/** The commands the driver sends: register writes, the waveform upload,
    display initialisation, and the controller state they leave behind. */
module Commands {
  import opened Wrappers
  import opened Protocol
  import Panel
  import Waveform

  // Register values written by initialize_display.
  const VDS_INTERNAL: bv8 := 0x02
  const VDG_INTERNAL: bv8 := 0x01
  const VCOM_VD: bv8 := 0x00
  const VGHL_16V: bv8 := 0x00
  const VDH_VDL_10V: bv8 := 0x26       // +10v VDH, -10v VDL
  const VDHR_DEFAULT: bv8 := 0x03
  const BOOSTER_SOFT_START: bv8 := 0x17  // START_10MS | STRENGTH_3 | OFF_6_58US
  const FRAMES_4: bv8 := 0x30
  const TEMP_INTERNAL_OFFSET_0: bv8 := 0x00
  const TCON_12_PERIODS: bv8 := 0x22
  const CDI_INVERTED: bv8 := 0xDC        // border floating, LUTBW/LUTWB swapped
  const CDI_NORMAL: bv8 := 0xCC
  const HZ_100: bv8 := 0x3A

  function Min(a: int, b: int): int { if a <= b then a else b }

  /** The PSR write for a supported panel: the configuration byte is never
      zero, so it always travels with the opcode. */
  function PsrCommand(width: int, height: int, speed: int, mirrorX: bool, mirrorY: bool): Command
    requires Panel.Supported(width, height)
  {
    Command(CMD_PSR, [Panel.PanelConfiguration(width, height, speed, mirrorX, mirrorY).value])
  }

  /** The five LUT uploads of set_waveform_lut, in the order it sends them. */
  function LutWrites(t: Waveform.Tables): (w: seq<Command>)
    ensures Opcodes(w) == [CMD_LUT_VCOM, CMD_LUT_BW, CMD_LUT_WB, CMD_LUT_WW, CMD_LUT_BB]
  {
    [Frame(CMD_LUT_VCOM, Buffer(ToBus(t.vcom))), Frame(CMD_LUT_BW, Buffer(ToBus(t.bw))),
     Frame(CMD_LUT_WB, Buffer(ToBus(t.wb))), Frame(CMD_LUT_WW, Buffer(ToBus(t.ww))),
     Frame(CMD_LUT_BB, Buffer(ToBus(t.bb)))]
  }

  /** What set_waveform_lut sends for an accepted speed: nothing below 1,
      where the controller's own one-time-programmed tables stay in use. */
  function WaveformWrites(speed: int, noFlickering: bool, reaffirmBlack: bool): seq<Command>
    requires speed <= 6
  {
    if speed < 1 then [] else LutWrites(Waveform.Synthesize(speed, noFlickering, reaffirmBlack))
  }

  // ---------------------------------------------------------------------
  // The controller's registers, as the last data written to each opcode.

  /** The data of the last command with `opcode` in the log, if any. */
  function LastWrite(log: seq<Command>, opcode: bv8): Option<seq<bv8>>
  {
    if log == [] then None
    else if log[|log| - 1].opcode == opcode then Some(log[|log| - 1].data)
    else LastWrite(log[..|log| - 1], opcode)
  }

  /** A later write to a register wins; without one the earlier value stays. */
  lemma {:induction false} LastWriteAppend(a: seq<Command>, b: seq<Command>, opcode: bv8)
    ensures LastWrite(a + b, opcode) == if LastWrite(b, opcode).Some? then LastWrite(b, opcode) else LastWrite(a, opcode)
    decreases |b|
  {
    if b != [] {
      var b' := b[..|b| - 1];
      assert (a + b)[..|a + b| - 1] == a + b';
      LastWriteAppend(a, b', opcode);
    } else {
      assert a + b == a;
    }
  }

  /** The last command with `opcode` decides the register. */
  lemma {:induction false} LastWriteAt(w: seq<Command>, i: nat, opcode: bv8)
    requires i < |w| && w[i].opcode == opcode
    requires forall k :: i < k < |w| ==> w[k].opcode != opcode
    ensures LastWrite(w, opcode) == Some(w[i].data)
    decreases |w|
  {
    if i < |w| - 1 {
      LastWriteAt(w[..|w| - 1], i, opcode);
    }
  }

  /** The five LUT registers hold `t`. */
  predicate TablesInForce(log: seq<Command>, t: Waveform.Tables)
  {
    LastWrite(log, CMD_LUT_VCOM) == Some(ToBus(t.vcom)) && LastWrite(log, CMD_LUT_WW) == Some(ToBus(t.ww)) &&
    LastWrite(log, CMD_LUT_BW) == Some(ToBus(t.bw)) && LastWrite(log, CMD_LUT_WB) == Some(ToBus(t.wb)) &&
    LastWrite(log, CMD_LUT_BB) == Some(ToBus(t.bb))
  }

  /** Whether a command sequence leaves every LUT register alone. */
  predicate NoLutWrite(w: seq<Command>)
  {
    forall i :: 0 <= i < |w| ==> w[i].opcode !in {CMD_LUT_VCOM, CMD_LUT_WW, CMD_LUT_BW, CMD_LUT_WB, CMD_LUT_BB}
  }

  lemma {:induction false} NoLutWriteKeeps(log: seq<Command>, w: seq<Command>, opcode: bv8)
    requires NoLutWrite(w) && opcode in {CMD_LUT_VCOM, CMD_LUT_WW, CMD_LUT_BW, CMD_LUT_WB, CMD_LUT_BB}
    ensures LastWrite(log + w, opcode) == LastWrite(log, opcode)
    decreases |w|
  {
    LastWriteAppend(log, w, opcode);
    NoLutWriteNone(w, opcode);
  }

  lemma {:induction false} NoLutWriteNone(w: seq<Command>, opcode: bv8)
    requires NoLutWrite(w) && opcode in {CMD_LUT_VCOM, CMD_LUT_WW, CMD_LUT_BW, CMD_LUT_WB, CMD_LUT_BB}
    ensures LastWrite(w, opcode) == None
    decreases |w|
  {
    if w != [] {
      NoLutWriteNone(w[..|w| - 1], opcode);
    }
  }

  /** Commands that touch no LUT register keep the tables in force. */
  lemma TablesStay(log: seq<Command>, w: seq<Command>, t: Waveform.Tables)
    requires TablesInForce(log, t) && NoLutWrite(w)
    ensures TablesInForce(log + w, t)
  {
    NoLutWriteKeeps(log, w, CMD_LUT_VCOM);
    NoLutWriteKeeps(log, w, CMD_LUT_WW);
    NoLutWriteKeeps(log, w, CMD_LUT_BW);
    NoLutWriteKeeps(log, w, CMD_LUT_WB);
    NoLutWriteKeeps(log, w, CMD_LUT_BB);
  }

  /** After the five LUT uploads their tables are in force, whatever was
      written before. */
  lemma LutWritesLoad(log: seq<Command>, t: Waveform.Tables)
    ensures TablesInForce(log + LutWrites(t), t)
  {
    var w := LutWrites(t);
    LastWriteAppend(log, w, CMD_LUT_VCOM);
    LastWriteAppend(log, w, CMD_LUT_WW);
    LastWriteAppend(log, w, CMD_LUT_BW);
    LastWriteAppend(log, w, CMD_LUT_WB);
    LastWriteAppend(log, w, CMD_LUT_BB);
    LastWriteAt(w, 0, CMD_LUT_VCOM);
    LastWriteAt(w, 1, CMD_LUT_BW);
    LastWriteAt(w, 2, CMD_LUT_WB);
    LastWriteAt(w, 3, CMD_LUT_WW);
    LastWriteAt(w, 4, CMD_LUT_BB);
  }

  /** After set_waveform_lut the synthesized tables are in force. */
  lemma WaveformLoads(log: seq<Command>, speed: int, noFlickering: bool, reaffirmBlack: bool)
    requires 1 <= speed <= 6
    ensures TablesInForce(log + WaveformWrites(speed, noFlickering, reaffirmBlack),
                          Waveform.Synthesize(speed, noFlickering, reaffirmBlack))
  {
    LutWritesLoad(log, Waveform.Synthesize(speed, noFlickering, reaffirmBlack));
  }

  // ---------------------------------------------------------------------
  // Bus-level operations.

  /** write(cmd, data): the opcode, then the data only when it is truthy. */
  method Write(bus: Bus, cmd: bv8, data: Payload)
    modifies bus
    ensures bus.log == old(bus.log) + [Frame(cmd, data)]
  {
    bus.log := bus.log + [Frame(cmd, data)];
  }

  /** A fixed run of writes, one after the other. */
  method WriteAll(bus: Bus, w: seq<Command>)
    modifies bus
    ensures bus.log == old(bus.log) + w
  {
    var i := 0;
    while i < |w|
      invariant 0 <= i <= |w|
      invariant bus.log == old(bus.log) + w[..i]
    {
      Write(bus, w[i].opcode, Buffer(w[i].data));
      assert w[..i + 1] == w[..i] + [w[i]];
      i := i + 1;
    }
    assert w[..|w|] == w;
  }

  /** set_panel_configuration: one PSR write, or `UnsupportedResolution`
      with nothing sent. */
  method SetPanelConfiguration(bus: Bus, width: int, height: int, speed: int, mirrorX: bool, mirrorY: bool)
    returns (o: Outcome<DriverError>)
    modifies bus
    ensures o.Fail? <==> !Panel.Supported(width, height)
    ensures o.Fail? ==> o.error == UnsupportedResolution && bus.log == old(bus.log)
    ensures o.Pass? ==> bus.log == old(bus.log) + [PsrCommand(width, height, speed, mirrorX, mirrorY)]
  {
    var r := Panel.PanelConfiguration(width, height, speed, mirrorX, mirrorY);
    if r.Failure? {
      return Fail(r.error);
    }
    Panel.PanelConfigurationNonZero(width, height, speed, mirrorX, mirrorY);
    Write(bus, CMD_PSR, Scalar(r.value));
    o := Pass;
  }

  /** set_waveform_lut(speed, no_flickering): nothing below speed 1,
      `SpeedOutOfRange` with nothing sent above 6, otherwise the five
      synthesized tables. */
  method SetWaveformLut(bus: Bus, speed: int, noFlickering: bool, reaffirmBlack: bool)
    returns (o: Outcome<DriverError>)
    modifies bus
    ensures o.Fail? <==> speed > 6
    ensures o.Fail? ==> o.error == SpeedOutOfRange && bus.log == old(bus.log)
    ensures o.Pass? ==> bus.log == old(bus.log) + WaveformWrites(speed, noFlickering, reaffirmBlack)
  {
    if speed < 1 {
      return Pass;
    }
    if speed > 6 {
      return Fail(SpeedOutOfRange);
    }
    var vcom, ww, bw, wb, bb := Waveform.SynthesizeTables(speed, noFlickering, reaffirmBlack);
    WriteTables(bus, vcom, ww, bw, wb, bb);
    o := Pass;
  }

  /** The five table writes, in the order set_waveform_lut sends them. */
  method WriteTables(bus: Bus, vcom: array<uint8>, ww: array<uint8>, bw: array<uint8>, wb: array<uint8>,
                     bb: array<uint8>)
    modifies bus
    ensures bus.log == old(bus.log) + LutWrites(Waveform.Tables(vcom[..], ww[..], bw[..], wb[..], bb[..]))
  {
    Write(bus, CMD_LUT_VCOM, Buffer(ToBus(vcom[..])));
    Write(bus, CMD_LUT_BW, Buffer(ToBus(bw[..])));
    Write(bus, CMD_LUT_WB, Buffer(ToBus(wb[..])));
    Write(bus, CMD_LUT_WW, Buffer(ToBus(ww[..])));
    Write(bus, CMD_LUT_BB, Buffer(ToBus(bb[..])));
  }

  // ---------------------------------------------------------------------
  // initialize_display.

  /** Soft reset and power settings. */
  function InitHead(): seq<Command>
  {
    [Frame(CMD_PSR, Scalar(Panel.RESET_SOFT)),
     Frame(CMD_PWR, Buffer([VDS_INTERNAL | VDG_INTERNAL, VCOM_VD | VGHL_16V, VDH_VDL_10V, VDH_VDL_10V, VDHR_DEFAULT]))]
  }

  /** Booster soft start and power on. */
  function InitBooster(): seq<Command>
  {
    [Frame(CMD_BTST, Buffer([BOOSTER_SOFT_START, BOOSTER_SOFT_START, BOOSTER_SOFT_START])), Op(CMD_PON)]
  }

  /** Power-off sequence, sensor, timing, border, clock, power off. */
  function InitTail(inverted: bool): seq<Command>
  {
    [Frame(CMD_PFS, Scalar(FRAMES_4)), Frame(CMD_TSE, Scalar(TEMP_INTERNAL_OFFSET_0)),
     Frame(CMD_TCON, Scalar(TCON_12_PERIODS)), Frame(CMD_CDI, Scalar(if inverted then CDI_INVERTED else CDI_NORMAL)),
     Frame(CMD_PLL, Scalar(HZ_100)), Op(CMD_POF)]
  }

  /** initialize_display: the hardware reset pulse is not a bus write; a
      speed above 6 stops it after the power settings, an unsupported panel
      after power on. */
  method InitializeDisplay(bus: Bus, width: int, height: int, speed: int, mirrorX: bool, mirrorY: bool,
                           inverted: bool, noFlickering: bool, reaffirmBlack: bool)
    returns (o: Outcome<DriverError>)
    modifies bus
    ensures o.Pass? <==> speed <= 6 && Panel.Supported(width, height)
    ensures speed > 6 ==> o == Fail(SpeedOutOfRange) && bus.log == old(bus.log) + InitHead()
    ensures speed <= 6 && !Panel.Supported(width, height) ==>
      o == Fail(UnsupportedResolution) &&
      bus.log == old(bus.log) + InitHead() + WaveformWrites(speed, noFlickering, reaffirmBlack) + InitBooster()
    ensures o.Pass? ==>
      bus.log == old(bus.log) + InitHead() + WaveformWrites(speed, noFlickering, reaffirmBlack) + InitBooster()
                 + [PsrCommand(width, height, speed, mirrorX, mirrorY)] + InitTail(inverted)
  {
    WriteAll(bus, InitHead());
    ghost var log1 := bus.log;
    o := SetWaveformLut(bus, speed, noFlickering, reaffirmBlack);
    if o.Fail? {
      return;
    }
    WriteAll(bus, InitBooster());
    ghost var log2 := bus.log;
    o := SetPanelConfiguration(bus, width, height, speed, mirrorX, mirrorY);
    if o.Fail? {
      return;
    }
    WriteAll(bus, InitTail(inverted));
  }

  /** The commands after the waveform upload set PSR, end powered off, and
      leave the LUT registers as they were. */
  lemma InitTailEffect(loaded: seq<Command>, psr: Command, inverted: bool, t: Waveform.Tables)
    requires psr.opcode == CMD_PSR
    ensures var after := loaded + InitBooster() + [psr] + InitTail(inverted);
      LastWrite(after, CMD_PSR) == Some(psr.data) && after[|after| - 1] == Op(CMD_POF) &&
      (TablesInForce(loaded, t) ==> TablesInForce(after, t))
  {
    var tail := InitBooster() + [psr] + InitTail(inverted);
    assert loaded + InitBooster() + [psr] + InitTail(inverted) == loaded + tail;
    LastWriteAppend(loaded, tail, CMD_PSR);
    LastWriteAt(tail, 2, CMD_PSR);
    assert NoLutWrite(tail);
    if TablesInForce(loaded, t) {
      TablesStay(loaded, tail, t);
    }
  }

  /** After initialisation the panel is configured for the driver's speed
      (internal tables exactly at speed 0), the synthesized tables are in
      force at any other speed, and the display is powered off. */
  lemma InitLeavesConfigured(log: seq<Command>, width: int, height: int, speed: int, mirrorX: bool, mirrorY: bool,
                             inverted: bool, noFlickering: bool, reaffirmBlack: bool)
    requires Panel.Supported(width, height) && speed <= 6
    ensures var after := log + InitHead() + WaveformWrites(speed, noFlickering, reaffirmBlack) + InitBooster()
                         + [PsrCommand(width, height, speed, mirrorX, mirrorY)] + InitTail(inverted);
      var psr := Panel.PanelConfiguration(width, height, speed, mirrorX, mirrorY).value;
      LastWrite(after, CMD_PSR) == Some([psr]) && (psr & Panel.LUT_REG != 0 <==> speed != 0) &&
      (speed >= 1 ==> TablesInForce(after, Waveform.Synthesize(speed, noFlickering, reaffirmBlack))) &&
      after[|after| - 1] == Op(CMD_POF)
  {
    var loaded := log + InitHead() + WaveformWrites(speed, noFlickering, reaffirmBlack);
    if speed >= 1 {
      var t := Waveform.Synthesize(speed, noFlickering, reaffirmBlack);
      WaveformLoads(log + InitHead(), speed, noFlickering, reaffirmBlack);
      InitTailEffect(loaded, PsrCommand(width, height, speed, mirrorX, mirrorY), inverted, t);
    } else {
      InitTailEffect(loaded, PsrCommand(width, height, speed, mirrorX, mirrorY), inverted, Waveform.Tables([], [], [], [], []));
    }
  }

  /** The soft reset and the sensor selection carry the value 0, so they
      go out as bare opcodes. */
  lemma ZeroSettingsSentBare(inverted: bool)
    ensures InitHead()[0] == Command(CMD_PSR, [])
    ensures InitTail(inverted)[1] == Command(CMD_TSE, [])
  {
  }
}
