/** Waveform lookup tables (LUTs) and their synthesis from a speed level.

    A table holds 7 rows ("phases") of 6 bytes: a pattern byte packing four
    2-bit voltage codes (most significant pair first), four frame counts and
    a repeat count. The pixel tables WW, BW, WB and BB are 42 bytes; the VCOM
    table carries 2 more trailing bytes that this driver leaves zero. */
module Waveform {
  import opened Wrappers
  import opened Protocol

  const ROWS: nat := 7
  const LUT_SIZE: nat := 42
  const VCOM_LUT_SIZE: nat := 44

  // The 2-bit voltage codes of a pattern slot.
  const GROUND: int := 0   // 00: put to ground
  const VDH: int := 1      // 01: drive high, the pixel moves towards black
  const VDL: int := 2      // 10: drive low, the pixel moves towards white

  /** A bytearray store keeps the low 8 bits of the integer written. */
  function Byte(v: int): uint8
  {
    v % 256
  }

  function Pow2(n: nat): (r: nat)
    ensures r >= 1
  {
    if n == 0 then 1 else 2 * Pow2(n - 1)
  }

  function Max(a: int, b: int): int { if a >= b then a else b }

  /** Frames for a single-direction drive: 64 halved once per speed step,
      listed speed by speed (PeriodFormula ties it to the division). */
  function Period(speed: int): nat
    requires 1 <= speed <= 6
  {
    if speed == 1 then 64 else if speed == 2 then 32 else if speed == 3 then 16
    else if speed == 4 then 8 else if speed == 5 then 4 else 2
  }

  /** Frames for one half of a back-and-forth drive: 32 halved once per step. */
  function HalfPeriod(speed: int): nat
    requires 1 <= speed <= 6
  {
    if speed == 1 then 32 else if speed == 2 then 16 else if speed == 3 then 8
    else if speed == 4 then 4 else if speed == 5 then 2 else 1
  }

  lemma Pow2Small()
    ensures Pow2(0) == 1 && Pow2(1) == 2 && Pow2(2) == 4
    ensures Pow2(3) == 8 && Pow2(4) == 16 && Pow2(5) == 32
  {
    calc {
      Pow2(5);
      2 * Pow2(4);
      2 * (2 * Pow2(3));
      2 * (2 * (2 * Pow2(2)));
      2 * (2 * (2 * (2 * Pow2(1))));
      2 * (2 * (2 * (2 * (2 * Pow2(0)))));
    }
  }

  /** Both periods are at least one frame, the half period is half the
      period, and each speed step halves the period. */
  lemma PeriodHalvesPerStep(speed: int)
    requires 1 <= speed <= 6
    ensures Period(speed) >= 1 && HalfPeriod(speed) >= 1
    ensures Period(speed) == 2 * HalfPeriod(speed)
    ensures Period(speed) * Pow2(speed - 1) == 64
    ensures speed < 6 ==> Period(speed) == 2 * Period(speed + 1) && HalfPeriod(speed) == 2 * HalfPeriod(speed + 1)
  {
    Pow2Small();
  }

  /** The listed periods are the driver's formulas: 64 (resp. 32) divided
      by two to the power `speed - 1`, and never below one frame. */
  lemma PeriodFormula(speed: int)
    requires 1 <= speed <= 6
    ensures Period(speed) == Max(64 / Pow2(speed - 1), 1)
    ensures HalfPeriod(speed) == Max(32 / Pow2(speed - 1), 1)
  {
    Pow2Small();
  }

  /** Faster speeds never get longer periods. */
  lemma {:induction false} PeriodNonIncreasing(s1: int, s2: int)
    requires 1 <= s1 <= s2 <= 6
    ensures Period(s1) >= Period(s2) && HalfPeriod(s1) >= HalfPeriod(s2)
    decreases s2 - s1
  {
    if s1 < s2 {
      PeriodHalvesPerStep(s1);
      PeriodNonIncreasing(s1 + 1, s2);
    }
  }

  /** The four frame counts of a row. */
  type Durations = s: seq<int> | |s| == 4 witness [0, 0, 0, 0]

  /** One row of a table, as the arguments of set_lut_row give it. */
  datatype Phase = Phase(pat: uint8, dur: Durations, rep: int)

  /** The 6 bytes that encode a phase. */
  function RowBytes(p: Phase): (r: seq<uint8>)
    ensures |r| == 6 && r[0] == p.pat && r[5] == Byte(p.rep)
    ensures forall k :: 0 <= k < 4 ==> r[1 + k] == Byte(p.dur[k])
  {
    [p.pat, Byte(p.dur[0]), Byte(p.dur[1]), Byte(p.dur[2]), Byte(p.dur[3]), Byte(p.rep)]
  }

  /** Reading a row back gives the phase again when every count fits a byte. */
  lemma RowRoundTrip(p: Phase)
    requires forall k :: 0 <= k < 4 ==> 0 <= p.dur[k] < 256
    requires 0 <= p.rep < 256
    ensures DecodeRow(RowBytes(p)) == p
  {
    var r := RowBytes(p);
    assert [r[1], r[2], r[3], r[4]] == p.dur;
  }

  function DecodeRow(r: seq<uint8>): Phase
    requires |r| == 6
  {
    Phase(r[0], [r[1], r[2], r[3], r[4]], r[5])
  }

  function Rows(ps: seq<Phase>): (r: seq<uint8>)
    ensures |r| == 6 * |ps|
  {
    if ps == [] then [] else RowBytes(ps[0]) + Rows(ps[1..])
  }

  function Zeros(n: nat): (z: seq<uint8>)
    ensures |z| == n && forall i :: 0 <= i < n ==> z[i] == 0
  {
    seq(n, _ => 0)
  }

  /** A table whose first rows encode `ps` and whose other bytes are zero. */
  function Table(ps: seq<Phase>, size: nat): (t: seq<uint8>)
    requires |ps| <= ROWS && size >= LUT_SIZE
    ensures |t| == size
  {
    Rows(ps) + Zeros(size - 6 * |ps|)
  }

  /** Replace row `row` of table `t` by `r`, keeping every other byte. */
  function WithRow(t: seq<uint8>, row: nat, r: seq<uint8>): (u: seq<uint8>)
    requires 6 * row + 6 <= |t| && |r| == 6
    ensures |u| == |t|
    ensures forall k :: 0 <= k < 6 ==> u[6 * row + k] == r[k]
    ensures forall i :: 0 <= i < |t| && !(6 * row <= i < 6 * row + 6) ==> u[i] == t[i]
  {
    t[..6 * row] + r + t[6 * row + 6..]
  }

  lemma {:induction false} RowsAppend(ps: seq<Phase>, p: Phase)
    ensures Rows(ps + [p]) == Rows(ps) + RowBytes(p)
  {
    if ps == [] {
      assert ps + [p] == [p];
    } else {
      assert (ps + [p])[1..] == ps[1..] + [p];
      RowsAppend(ps[1..], p);
    }
  }

  /** Writing the next row of a table built from `ps` gives the table of `ps + [p]`. */
  lemma TableNextRow(ps: seq<Phase>, p: Phase, size: nat)
    requires |ps| < ROWS && size >= LUT_SIZE
    ensures WithRow(Table(ps, size), |ps|, RowBytes(p)) == Table(ps + [p], size)
  {
    RowsAppend(ps, p);
    var t := Table(ps, size);
    var u := WithRow(t, |ps|, RowBytes(p));
    var v := Table(ps + [p], size);
    assert |u| == |v|;
    forall i | 0 <= i < |u|
      ensures u[i] == v[i]
    {
      if i < 6 * |ps| {
        assert u[i] == t[i] == Rows(ps)[i] == v[i];
      }
    }
  }

  // ---------------------------------------------------------------------
  // The synthesized waveforms.

  /** The branch with the settle and ping-pong phases: low speeds without
      flicker reduction. Every other configuration drives in a single row. */
  predicate Flickering(speed: int, noFlickering: bool)
  {
    speed <= 3 && !noFlickering
  }

  /** Single-row drive at `code` (VDL for white, VDH for black) for four
      periods, as the source writes it: one frame count of `4 * p`. */
  function WrittenTargetPhase(code: int, p: int): Phase
    requires code == VDH || code == VDL
  {
    Phase(code * 64, [4 * p, 0, 0, 0], 1)
  }

  /** The same drive with every frame count fitting a byte: when `4 * p`
      exceeds 255 it is spread over two sub-phases of `2 * p` frames, with
      `code` in both of the first two slots. */
  function TargetPhase(code: int, p: int): Phase
    requires code == VDH || code == VDL
  {
    if 4 * p <= 255 then WrittenTargetPhase(code, p)
    else Phase(code * 64 + code * 16, [2 * p, 2 * p, 0, 0], 1)
  }

  function VcomPhases(speed: int, noFlickering: bool): seq<Phase>
    requires 1 <= speed <= 6
  {
    var p, h := Period(speed), HalfPeriod(speed);
    if Flickering(speed, noFlickering) then
      [Phase(0, [p, 0, 0, 0], 2), Phase(0, [h, h, 0, 0], 2), Phase(0, [p, 0, 0, 0], 2)]
    else
      [Phase(0, [p, p, p, p], 1)]
  }

  /** Black to white: opposite colour, ping-pong, then white. */
  function BwPhases(speed: int, noFlickering: bool): seq<Phase>
    requires 1 <= speed <= 6
  {
    var p, h := Period(speed), HalfPeriod(speed);
    if Flickering(speed, noFlickering) then
      [Phase(0x40, [p, 0, 0, 0], 2), Phase(0x90, [h, h, 0, 0], 1), Phase(0x80, [p, 0, 0, 0], 2)]
    else
      [TargetPhase(VDL, p)]
  }

  /** White to black: the mirror image of BW. */
  function WbPhases(speed: int, noFlickering: bool): seq<Phase>
    requires 1 <= speed <= 6
  {
    var p, h := Period(speed), HalfPeriod(speed);
    if Flickering(speed, noFlickering) then
      [Phase(0x80, [p, 0, 0, 0], 2), Phase(0x60, [h, h, 0, 0], 1), Phase(0x40, [p, 0, 0, 0], 2)]
    else
      [TargetPhase(VDH, p)]
  }

  /** White to white: a copy of BW when flickering, nothing under flicker
      reduction, otherwise an invert-and-return of two periods each way. */
  function WwPhases(speed: int, noFlickering: bool): seq<Phase>
    requires 1 <= speed <= 6
  {
    var p := Period(speed);
    if Flickering(speed, noFlickering) then BwPhases(speed, noFlickering)
    else if noFlickering then []
    else [Phase(0x60, [2 * p, 2 * p, 0, 0], 1)]
  }

  /** Black to black, likewise; under flicker reduction only the optional
      two-frame black re-affirmation row. */
  function BbPhases(speed: int, noFlickering: bool, reaffirmBlack: bool): seq<Phase>
    requires 1 <= speed <= 6
  {
    var p := Period(speed);
    if Flickering(speed, noFlickering) then WbPhases(speed, noFlickering)
    else if noFlickering then (if reaffirmBlack then [ReaffirmBlackPhase()] else [])
    else [Phase(0x90, [2 * p, 2 * p, 0, 0], 1)]
  }

  function ReaffirmBlackPhase(): Phase
  {
    Phase(0x99, [0, 2, 0, 0], 1)
  }

  /** The five tables for a speed in 1..6. */
  datatype Tables = Tables(vcom: seq<uint8>, ww: seq<uint8>, bw: seq<uint8>, wb: seq<uint8>, bb: seq<uint8>)

  function Synthesize(speed: int, noFlickering: bool, reaffirmBlack: bool): (t: Tables)
    requires 1 <= speed <= 6
    ensures |t.vcom| == VCOM_LUT_SIZE && |t.ww| == |t.bw| == |t.wb| == |t.bb| == LUT_SIZE
    // Without flicker reduction at low speed the hold tables copy the transition tables ...
    ensures Flickering(speed, noFlickering) ==> t.ww == t.bw && t.bb == t.wb
    // ... and only rows 0-2 are used.
    ensures Flickering(speed, noFlickering) ==>
      forall i :: 18 <= i < LUT_SIZE ==> t.bw[i] == 0 && t.wb[i] == 0
    // Under flicker reduction WW is empty and BB holds at most the re-affirmation row.
    ensures noFlickering ==> t.ww == Zeros(LUT_SIZE)
    ensures noFlickering ==>
      t.bb == if reaffirmBlack then [0x99, 0, 2, 0, 0, 1] + Zeros(36) else Zeros(LUT_SIZE)
    // VCOM stays at VCOM_DC: its pattern byte is zero in every row.
    ensures forall row :: 0 <= row < ROWS ==> t.vcom[6 * row] == 0
  {
    var vs := VcomPhases(speed, noFlickering);
    var vcom := Table(vs, VCOM_LUT_SIZE);
    VcomPatternsZero(vs, VCOM_LUT_SIZE);
    SinglePhaseTable(ReaffirmBlackPhase(), LUT_SIZE);
    Tables(vcom,
           Table(WwPhases(speed, noFlickering), LUT_SIZE),
           Table(BwPhases(speed, noFlickering), LUT_SIZE),
           Table(WbPhases(speed, noFlickering), LUT_SIZE),
           Table(BbPhases(speed, noFlickering, reaffirmBlack), LUT_SIZE))
  }

  lemma {:induction false} RowsAt(ps: seq<Phase>, j: nat, k: nat)
    requires j < |ps| && k < 6
    ensures Rows(ps)[6 * j + k] == RowBytes(ps[j])[k]
  {
    assert Rows(ps) == RowBytes(ps[0]) + Rows(ps[1..]);
    if j > 0 {
      RowsAt(ps[1..], j - 1, k);
    }
  }

  /** A table whose phases all have pattern 0 has pattern byte 0 in every row. */
  lemma VcomPatternsZero(ps: seq<Phase>, size: nat)
    requires |ps| <= ROWS && size >= LUT_SIZE
    requires forall j :: 0 <= j < |ps| ==> ps[j].pat == 0
    ensures forall row :: 0 <= row < ROWS ==> Table(ps, size)[6 * row] == 0
  {
    forall row | 0 <= row < ROWS
      ensures Table(ps, size)[6 * row] == 0
    {
      if row < |ps| {
        RowsAt(ps, row, 0);
      }
    }
  }

  lemma SinglePhaseTable(p: Phase, size: nat)
    requires size >= LUT_SIZE
    ensures Table([p], size) == RowBytes(p) + Zeros(size - 6)
  {
    assert Rows([p]) == RowBytes(p) + Rows([]);
  }

  // ---------------------------------------------------------------------
  // Charge balance: frames x repeats spent at each voltage code.

  /** The 2-bit code of slot 0..3 of a pattern byte, slot 0 in the top bits. */
  function SlotCode(pat: uint8, slot: nat): int
    requires slot < 4
  {
    if slot == 0 then pat / 64
    else if slot == 1 then (pat / 16) % 4
    else if slot == 2 then (pat / 4) % 4
    else pat % 4
  }

  /** Frames one slot of a row spends at `code`. */
  function SlotDrive(r: seq<uint8>, slot: nat, code: int): int
    requires |r| == 6 && slot < 4
  {
    if SlotCode(r[0], slot) == code then r[1 + slot] else 0
  }

  /** Frames a 6-byte row spends at `code`, over its four slots and repeats. */
  function RowDrive(r: seq<uint8>, code: int): int
    requires |r| == 6
  {
    (SlotDrive(r, 0, code) + SlotDrive(r, 1, code) + SlotDrive(r, 2, code) + SlotDrive(r, 3, code)) * r[5]
  }

  /** Frames a whole table spends at `code`; trailing bytes that do not form
      a row (VCOM's last two) do not count. */
  function Drive(t: seq<uint8>, code: int): int
    decreases |t|
  {
    if |t| < 6 then 0 else RowDrive(t[..6], code) + Drive(t[6..], code)
  }

  /** Equal time at drive-high and drive-low: no DC bias left on the pixel. */
  predicate ChargeNeutral(t: seq<uint8>)
  {
    Drive(t, VDH) == Drive(t, VDL)
  }

  function PhasesDrive(ps: seq<Phase>, code: int): int
  {
    if ps == [] then 0 else RowDrive(RowBytes(ps[0]), code) + PhasesDrive(ps[1..], code)
  }

  lemma {:induction false} DriveZeros(n: nat, code: int)
    requires code != GROUND
    ensures Drive(Zeros(n), code) == 0
    decreases n
  {
    if n >= 6 {
      assert Zeros(n)[6..] == Zeros(n - 6);
      DriveZeros(n - 6, code);
    }
  }

  lemma {:induction false} DriveRows(ps: seq<Phase>, rest: seq<uint8>, code: int)
    ensures Drive(Rows(ps) + rest, code) == PhasesDrive(ps, code) + Drive(rest, code)
  {
    if ps != [] {
      var t := Rows(ps) + rest;
      assert Rows(ps) == RowBytes(ps[0]) + Rows(ps[1..]);
      assert t[..6] == RowBytes(ps[0]);
      assert t[6..] == Rows(ps[1..]) + rest;
      assert Drive(t, code) == RowDrive(t[..6], code) + Drive(t[6..], code);
      DriveRows(ps[1..], rest, code);
    } else {
      assert Rows(ps) + rest == rest;
    }
  }

  /** The drive of a synthesized table is the sum of its phases' drives. */
  lemma DriveTable(ps: seq<Phase>, size: nat, code: int)
    requires |ps| <= ROWS && size >= LUT_SIZE && code != GROUND
    ensures Drive(Table(ps, size), code) == PhasesDrive(ps, code)
  {
    DriveRows(ps, Zeros(size - 6 * |ps|), code);
    DriveZeros(size - 6 * |ps|, code);
  }

  lemma ThreePhasesDrive(a: Phase, b: Phase, c: Phase, code: int)
    ensures PhasesDrive([a, b, c], code) ==
      RowDrive(RowBytes(a), code) + RowDrive(RowBytes(b), code) + RowDrive(RowBytes(c), code)
  {
    assert [a, b, c][1..] == [b, c];
    assert [b, c][1..] == [c];
    assert [c][1..] == [];
    calc {
      PhasesDrive([a, b, c], code);
      RowDrive(RowBytes(a), code) + PhasesDrive([b, c], code);
      RowDrive(RowBytes(a), code) + RowDrive(RowBytes(b), code) + PhasesDrive([c], code);
      RowDrive(RowBytes(a), code) + RowDrive(RowBytes(b), code) + RowDrive(RowBytes(c), code) + PhasesDrive([], code);
    }
  }

  /** The three flickering rows, and their mirror image, drive each way for
      as long as the other. */
  lemma FlickeringRowsNeutral(p: int, h: int)
    requires 1 <= h <= 32 && p == 2 * h
    ensures ChargeNeutral(Table([Phase(0x40, [p, 0, 0, 0], 2), Phase(0x90, [h, h, 0, 0], 1), Phase(0x80, [p, 0, 0, 0], 2)], LUT_SIZE))
    ensures ChargeNeutral(Table([Phase(0x80, [p, 0, 0, 0], 2), Phase(0x60, [h, h, 0, 0], 1), Phase(0x40, [p, 0, 0, 0], 2)], LUT_SIZE))
  {
    var settle, pingPong, target := Phase(0x40, [p, 0, 0, 0], 2), Phase(0x90, [h, h, 0, 0], 1), Phase(0x80, [p, 0, 0, 0], 2);
    var settle', pingPong', target' := Phase(0x80, [p, 0, 0, 0], 2), Phase(0x60, [h, h, 0, 0], 1), Phase(0x40, [p, 0, 0, 0], 2);
    assert Byte(p) == p && Byte(h) == h;
    // 01 for two periods, 10 then 01 for a half period each, 10 for two periods.
    assert RowDrive(RowBytes(settle), VDH) == 2 * p && RowDrive(RowBytes(settle), VDL) == 0;
    assert RowDrive(RowBytes(pingPong), VDH) == h && RowDrive(RowBytes(pingPong), VDL) == h;
    assert RowDrive(RowBytes(target), VDH) == 0 && RowDrive(RowBytes(target), VDL) == 2 * p;
    assert RowDrive(RowBytes(settle'), VDH) == 0 && RowDrive(RowBytes(settle'), VDL) == 2 * p;
    assert RowDrive(RowBytes(pingPong'), VDH) == h && RowDrive(RowBytes(pingPong'), VDL) == h;
    assert RowDrive(RowBytes(target'), VDH) == 2 * p && RowDrive(RowBytes(target'), VDL) == 0;
    DriveTable([settle, pingPong, target], LUT_SIZE, VDH);
    DriveTable([settle, pingPong, target], LUT_SIZE, VDL);
    DriveTable([settle', pingPong', target'], LUT_SIZE, VDH);
    DriveTable([settle', pingPong', target'], LUT_SIZE, VDL);
    ThreePhasesDrive(settle, pingPong, target, VDH);
    ThreePhasesDrive(settle, pingPong, target, VDL);
    ThreePhasesDrive(settle', pingPong', target', VDH);
    ThreePhasesDrive(settle', pingPong', target', VDL);
  }

  /** In the flickering branch BW and WB are charge-neutral, and so are WW
      and BB, their copies. */
  lemma FlickeringTablesNeutral(speed: int, noFlickering: bool, reaffirmBlack: bool)
    requires 1 <= speed <= 6 && Flickering(speed, noFlickering)
    ensures var t := Synthesize(speed, noFlickering, reaffirmBlack);
      ChargeNeutral(t.bw) && ChargeNeutral(t.wb) && ChargeNeutral(t.ww) && ChargeNeutral(t.bb)
  {
    PeriodHalvesPerStep(speed);
    FlickeringRowsNeutral(Period(speed), HalfPeriod(speed));
  }

  /** Outside the flickering branch WW and BB invert and return for two
      periods each way, and under flicker reduction they are empty; either
      way they are charge-neutral unless the black re-affirmation is on. */
  lemma HoldTablesNeutral(speed: int, noFlickering: bool, reaffirmBlack: bool)
    requires 1 <= speed <= 6 && !Flickering(speed, noFlickering)
    requires !(noFlickering && reaffirmBlack)
    ensures var t := Synthesize(speed, noFlickering, reaffirmBlack);
      ChargeNeutral(t.ww) && ChargeNeutral(t.bb)
  {
    PeriodHalvesPerStep(speed);
    var ps, qs := WwPhases(speed, noFlickering), BbPhases(speed, noFlickering, reaffirmBlack);
    DriveTable(ps, LUT_SIZE, VDH);
    DriveTable(ps, LUT_SIZE, VDL);
    DriveTable(qs, LUT_SIZE, VDH);
    DriveTable(qs, LUT_SIZE, VDL);
    if !noFlickering {
      var p := Period(speed);
      assert Byte(2 * p) == 2 * p;
      assert PhasesDrive(ps, VDH) == 2 * p == PhasesDrive(ps, VDL);
      assert PhasesDrive(qs, VDH) == 2 * p == PhasesDrive(qs, VDL);
    }
  }

  /** The black re-affirmation row drives high for two frames and never low:
      it is the one table that leaves a DC bias. */
  lemma ReaffirmBlackBiased(speed: int)
    requires 1 <= speed <= 6
    ensures var t := Synthesize(speed, true, true);
      Drive(t.bb, VDH) == 2 && Drive(t.bb, VDL) == 0
  {
    var ps := BbPhases(speed, true, true);
    assert ps == [ReaffirmBlackPhase()];
    assert Synthesize(speed, true, true).bb == Table(ps, LUT_SIZE);
    DriveTable(ps, LUT_SIZE, VDH);
    DriveTable(ps, LUT_SIZE, VDL);
    ReaffirmRowDrive();
    assert ps[1..] == [];
  }

  lemma ReaffirmRowDrive()
    ensures PhasesDrive([ReaffirmBlackPhase()], VDH) == 2
    ensures PhasesDrive([ReaffirmBlackPhase()], VDL) == 0
  {
    assert [ReaffirmBlackPhase()][1..] == [];
  }

  // ---------------------------------------------------------------------
  // The single-row target drive outside the flickering branch.

  /** As written, at speed 1 with flicker reduction the BW and WB tables get
      a frame count of 256, stored as 0: those pixels are never driven. */
  lemma WrittenTargetPhaseLosesDrive()
    ensures Period(1) == 64
    ensures RowBytes(WrittenTargetPhase(VDL, Period(1)))[1] == 0
    ensures PhasesDrive([WrittenTargetPhase(VDL, Period(1))], VDL) == 0
    ensures PhasesDrive([WrittenTargetPhase(VDH, Period(1))], VDH) == 0
  {
    PeriodHalvesPerStep(1);
    Pow2Small();
  }

  /** The corrected target phase drives `code` for exactly `4 * period`
      frames at every speed, and never the opposite voltage. */
  lemma TargetPhaseKeepsDriveTime(speed: int, code: int)
    requires 1 <= speed <= 6
    requires code == VDH || code == VDL
    ensures var p := Period(speed);
      PhasesDrive([TargetPhase(code, p)], code) == 4 * p &&
      PhasesDrive([TargetPhase(code, p)], 3 - code) == 0
  {
    PeriodHalvesPerStep(speed);
    var p := Period(speed);
    if 4 * p <= 255 {
      assert Byte(4 * p) == 4 * p;
    } else {
      assert Byte(2 * p) == 2 * p;
    }
  }

  /** The BW and WB tables the source uploads at speed 1 with flicker
      reduction: one row whose frame count is stored as 0, so neither table
      drives at all. */
  lemma WrittenTablesAtSpeedOne()
    ensures var bw := Table([WrittenTargetPhase(VDL, Period(1))], LUT_SIZE);
      var wb := Table([WrittenTargetPhase(VDH, Period(1))], LUT_SIZE);
      bw[..6] == [0x80, 0, 0, 0, 0, 1] && wb[..6] == [0x40, 0, 0, 0, 0, 1] &&
      Drive(bw, VDL) == 0 && Drive(bw, VDH) == 0 && Drive(wb, VDH) == 0 && Drive(wb, VDL) == 0
  {
    var b, w := WrittenTargetPhase(VDL, Period(1)), WrittenTargetPhase(VDH, Period(1));
    WrittenTargetPhaseLosesDrive();
    SinglePhaseTable(b, LUT_SIZE);
    SinglePhaseTable(w, LUT_SIZE);
    DriveTable([b], LUT_SIZE, VDL);
    DriveTable([b], LUT_SIZE, VDH);
    DriveTable([w], LUT_SIZE, VDH);
    DriveTable([w], LUT_SIZE, VDL);
    assert [b][1..] == [] && [w][1..] == [];
  }

  /** The tables this model uploads in that configuration: the drive is
      split over two sub-phases of 128 frames, 256 frames in all. */
  lemma CorrectedTablesAtSpeedOne(reaffirmBlack: bool)
    ensures var t := Synthesize(1, true, reaffirmBlack);
      t.bw[..6] == [0xA0, 128, 128, 0, 0, 1] && t.wb[..6] == [0x50, 128, 128, 0, 0, 1] &&
      Drive(t.bw, VDL) == 256 && Drive(t.bw, VDH) == 0 && Drive(t.wb, VDH) == 256 && Drive(t.wb, VDL) == 0
  {
    var t := Synthesize(1, true, reaffirmBlack);
    var b, w := TargetPhase(VDL, 64), TargetPhase(VDH, 64);
    assert BwPhases(1, true) == [b] && WbPhases(1, true) == [w];
    assert t.bw == Table([b], LUT_SIZE) && t.wb == Table([w], LUT_SIZE);
    TargetPhaseKeepsDriveTime(1, VDL);
    TargetPhaseKeepsDriveTime(1, VDH);
    SinglePhaseTable(b, LUT_SIZE);
    SinglePhaseTable(w, LUT_SIZE);
    DriveTable([b], LUT_SIZE, VDL);
    DriveTable([b], LUT_SIZE, VDH);
    DriveTable([w], LUT_SIZE, VDH);
    DriveTable([w], LUT_SIZE, VDL);
  }

  // ---------------------------------------------------------------------
  // In-place construction of the tables.

  /** set_lut_row: write one row in place; rows past 6 are refused. */
  method SetLutRow(lut: array<uint8>, row: nat, pat: uint8, dur: Durations, rep: int)
    returns (o: Outcome<DriverError>)
    requires lut.Length >= LUT_SIZE
    modifies lut
    ensures o.Fail? <==> row >= ROWS
    ensures o.Fail? ==> o.error == RowOutOfRange && lut[..] == old(lut[..])
    ensures o.Pass? ==> lut[..] == WithRow(old(lut[..]), row, RowBytes(Phase(pat, dur, rep)))
  {
    if row > 6 {
      return Fail(RowOutOfRange);
    }
    var off := 6 * row;
    lut[off] := pat;
    lut[off + 1] := Byte(dur[0]);
    lut[off + 2] := Byte(dur[1]);
    lut[off + 3] := Byte(dur[2]);
    lut[off + 4] := Byte(dur[3]);
    lut[off + 5] := Byte(rep);
    o := Pass;
  }

  /** clear_lut: zero every byte in place. */
  method ClearLut(lut: array<uint8>)
    modifies lut
    ensures lut[..] == Zeros(lut.Length)
  {
    var i := 0;
    while i < lut.Length
      invariant 0 <= i <= lut.Length
      invariant forall k :: 0 <= k < i ==> lut[k] == 0
    {
      lut[i] := 0;
      i := i + 1;
    }
  }

  /** Write the phases `ps`, at most three as in set_waveform_lut, into
      rows 0.. of a zeroed table, one set_lut_row per row. */
  method SetRows(lut: array<uint8>, ps: seq<Phase>)
    requires lut.Length >= LUT_SIZE && |ps| <= 3
    requires lut[..] == Table([], lut.Length)
    modifies lut
    ensures lut[..] == Table(ps, lut.Length)
  {
    assert ps[..0] == [];
    if |ps| > 0 {
      SetNextRow(lut, ps, 0);
    }
    if |ps| > 1 {
      SetNextRow(lut, ps, 1);
    }
    if |ps| > 2 {
      SetNextRow(lut, ps, 2);
    }
    assert ps[..|ps|] == ps;
  }

  /** set_lut_row for row i, after rows 0 .. i-1 hold the first i phases. */
  method SetNextRow(lut: array<uint8>, ps: seq<Phase>, i: nat)
    requires lut.Length >= LUT_SIZE && i < |ps| <= ROWS
    requires lut[..] == Table(ps[..i], lut.Length)
    modifies lut
    ensures lut[..] == Table(ps[..i + 1], lut.Length)
  {
    var _ := SetLutRow(lut, i, ps[i].pat, ps[i].dur, ps[i].rep);
    TableGrows(ps, i, lut.Length);
  }

  /** Writing row i of the table of the first i phases gives the table of
      the first i + 1. */
  lemma TableGrows(ps: seq<Phase>, i: nat, size: nat)
    requires i < |ps| <= ROWS && size >= LUT_SIZE
    ensures WithRow(Table(ps[..i], size), i, RowBytes(ps[i])) == Table(ps[..i + 1], size)
  {
    TableNextRow(ps[..i], ps[i], size);
    assert ps[..i + 1] == ps[..i] + [ps[i]];
  }

  /** A fresh bytearray of `size` zero bytes, holding the rows `ps`. */
  method NewTable(size: nat, ps: seq<Phase>) returns (lut: array<uint8>)
    requires size >= LUT_SIZE && |ps| <= 3
    ensures fresh(lut) && lut[..] == Table(ps, size)
  {
    lut := new uint8[size](_ => 0);
    EmptyTable(size);
    assert lut[..] == Zeros(size);
    SetRows(lut, ps);
  }

  /** The five tables of set_waveform_lut, built in fresh bytearrays: rows
      written one by one, WW and BB copied from BW and WB in the flickering
      branch, and cleared under flicker reduction. */
  method SynthesizeTables(speed: int, noFlickering: bool, reaffirmBlack: bool)
    returns (vcom: array<uint8>, ww: array<uint8>, bw: array<uint8>, wb: array<uint8>, bb: array<uint8>)
    requires 1 <= speed <= 6
    ensures fresh(vcom) && fresh(ww) && fresh(bw) && fresh(wb) && fresh(bb)
    ensures var t := Synthesize(speed, noFlickering, reaffirmBlack);
      vcom[..] == t.vcom && ww[..] == t.ww && bw[..] == t.bw && wb[..] == t.wb && bb[..] == t.bb
  {
    vcom := NewTable(VCOM_LUT_SIZE, VcomPhases(speed, noFlickering));
    bw := NewTable(LUT_SIZE, BwPhases(speed, noFlickering));
    wb := NewTable(LUT_SIZE, WbPhases(speed, noFlickering));
    ww, bb := HoldTables(speed, noFlickering, reaffirmBlack, bw, wb);
  }

  /** WW and BB: copies of BW and WB (`WW[:] = BW[:]`) in the flickering
      branch, an invert-and-return row otherwise, cleared under flicker
      reduction except for the optional black re-affirmation row. */
  method HoldTables(speed: int, noFlickering: bool, reaffirmBlack: bool, bw: array<uint8>, wb: array<uint8>)
    returns (ww: array<uint8>, bb: array<uint8>)
    requires 1 <= speed <= 6
    requires bw[..] == Table(BwPhases(speed, noFlickering), LUT_SIZE)
    requires wb[..] == Table(WbPhases(speed, noFlickering), LUT_SIZE)
    ensures fresh(ww) && fresh(bb)
    ensures ww[..] == Table(WwPhases(speed, noFlickering), LUT_SIZE)
    ensures bb[..] == Table(BbPhases(speed, noFlickering, reaffirmBlack), LUT_SIZE)
  {
    if Flickering(speed, noFlickering) {
      ww := NewTable(LUT_SIZE, []);
      bb := NewTable(LUT_SIZE, []);
      forall i | 0 <= i < LUT_SIZE { ww[i] := bw[i]; }
      forall i | 0 <= i < LUT_SIZE { bb[i] := wb[i]; }
      assert ww[..] == bw[..] && bb[..] == wb[..];
    } else {
      var p := Period(speed);
      ww := NewTable(LUT_SIZE, [Phase(0x60, [2 * p, 2 * p, 0, 0], 1)]);  // 01 10 00 00: invert, then back
      bb := NewTable(LUT_SIZE, [Phase(0x90, [2 * p, 2 * p, 0, 0], 1)]);  // 10 01 00 00
      if noFlickering {
        ClearLut(ww);
        ClearLut(bb);
        EmptyTable(LUT_SIZE);
        if reaffirmBlack {
          var _ := SetLutRow(bb, 0, 0x99, [0, 2, 0, 0], 1);  // 10 01 10 01
          TableNextRow([], ReaffirmBlackPhase(), LUT_SIZE);
          assert [] + [ReaffirmBlackPhase()] == [ReaffirmBlackPhase()];
        }
      }
    }
  }

  lemma EmptyTable(size: nat)
    requires size >= LUT_SIZE
    ensures Table([], size) == Zeros(size)
  {
    assert Rows([]) == [];
  }
}
