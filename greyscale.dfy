/** Greyscale by time multiplexing: each pass handles three adjacent grey
    levels by encoding them as the WW, BB and WB transitions between two
    1-bit images, and every other pixel as BW, whose table drives nothing. */
module Greyscale {
  import opened Wrappers
  import opened Protocol
  import Waveform

  const FRAMES_TO_BLACK: nat := 32

  /** The right shift that maps a 0..255 luminance to 0..greyscale-1:
      3 plus the position of `greyscale` in [32, 16, 8, 4]. */
  function GreyShift(greyscale: int): (r: Option<nat>)
    ensures r.Some? <==> greyscale in {32, 16, 8, 4}
  {
    if greyscale == 32 then Some(3)
    else if greyscale == 16 then Some(4)
    else if greyscale == 8 then Some(5)
    else if greyscale == 4 then Some(6)
    else None
  }

  /** The shift divides the 256 luminance values evenly among the
      `greyscale` levels. */
  lemma GreyShiftScales(greyscale: int)
    requires greyscale in {32, 16, 8, 4}
    ensures greyscale * Waveform.Pow2(GreyShift(greyscale).value) == 256
  {
    Waveform.Pow2Small();
  }

  /** `(255 - grey) >> shift`: inverted (darker is larger) and rescaled. */
  function Converted(grey: uint8, shift: nat): int
  {
    (255 - grey) / Waveform.Pow2(shift)
  }

  /** Every converted value of a supported greyscale lies in 0..greyscale-1. */
  lemma ConvertedInRange(grey: uint8, greyscale: int)
    requires greyscale in {32, 16, 8, 4}
    ensures 0 <= Converted(grey, GreyShift(greyscale).value) < greyscale
  {
    Waveform.Pow2Small();
  }

  /** The transition the controller applies to a pixel, by (old, new) bit. */
  datatype Transition = WW | BB | WB | BW

  function ChipTransition(oldBit: bool, newBit: bool): Transition
  {
    if !oldBit && !newBit then WW
    else if oldBit && newBit then BB
    else if newBit then WB
    else BW
  }

  /** The class a pixel of converted value `c` is given in the pass for `level`. */
  function PixelClass(c: int, level: int): Transition
  {
    if c == level then WW
    else if c == level + 1 then BB
    else if c == level + 2 then WB
    else BW
  }

  /** The bit of the new image (sent as current image) for a class. */
  predicate NewBit(t: Transition) { t == BB || t == WB }

  /** The bit of the old image (sent as previous image) for a class. */
  predicate OldBit(t: Transition) { t == BB || t == BW }

  /** The two masks make the controller see exactly the intended class. */
  lemma ChipSeesPixelClass(c: int, level: int)
    ensures var t := PixelClass(c, level); ChipTransition(OldBit(t), NewBit(t)) == t
  {
  }

  /** The mask bit of pixel `i`: `1 << (7 - (i & 7))`, most significant first. */
  function BitMask(i: nat): bv8
  {
    (1 as bv8) << (7 - i % 8)
  }

  /** Pixel `i` of a packed 1-bit buffer: byte `i >> 3`, MSB first. */
  predicate PixelBit(buf: seq<bv8>, i: nat)
    requires i / 8 < |buf|
  {
    buf[i / 8] & BitMask(i) != 0
  }

  /** Whether pixel `i` is set in the old (`previous`) or new mask of a pass. */
  predicate MaskPixel(grey: seq<uint8>, shift: nat, level: int, previous: bool, i: nat)
    requires i < |grey|
  {
    var t := PixelClass(Converted(grey[i], shift), level);
    if previous then OldBit(t) else NewBit(t)
  }

  function Pack(b0: bool, b1: bool, b2: bool, b3: bool, b4: bool, b5: bool, b6: bool, b7: bool): bv8
  {
    (if b0 then 0x80 else 0) | (if b1 then 0x40 else 0) | (if b2 then 0x20 else 0) | (if b3 then 0x10 else 0) |
    (if b4 then 0x08 else 0) | (if b5 then 0x04 else 0) | (if b6 then 0x02 else 0) | (if b7 then 0x01 else 0)
  }

  /** Byte `j` of the old or new mask: pixels `8j .. 8j+7`, most significant first. */
  function MaskByte(grey: seq<uint8>, shift: nat, level: int, previous: bool, j: nat): bv8
    requires 8 * j + 8 <= |grey|
  {
    Pack(MaskPixel(grey, shift, level, previous, 8 * j), MaskPixel(grey, shift, level, previous, 8 * j + 1),
         MaskPixel(grey, shift, level, previous, 8 * j + 2), MaskPixel(grey, shift, level, previous, 8 * j + 3),
         MaskPixel(grey, shift, level, previous, 8 * j + 4), MaskPixel(grey, shift, level, previous, 8 * j + 5),
         MaskPixel(grey, shift, level, previous, 8 * j + 6), MaskPixel(grey, shift, level, previous, 8 * j + 7))
  }

  /** The packed old or new mask of a pass over `count` pixels. */
  function Mask(grey: seq<uint8>, shift: nat, level: int, count: nat, previous: bool): (m: seq<bv8>)
    requires count % 8 == 0 && count <= |grey|
    ensures |m| == count / 8
  {
    seq(count / 8, j requires 0 <= j < count / 8 => MaskByte(grey, shift, level, previous, j))
  }

  /** Bit `k` of a mask byte is pixel `8j + k`. */
  lemma MaskByteBit(grey: seq<uint8>, shift: nat, level: int, previous: bool, j: nat, k: nat)
    requires 8 * j + 8 <= |grey| && k < 8
    ensures MaskByte(grey, shift, level, previous, j) & BitMask(k) != 0
            <==> MaskPixel(grey, shift, level, previous, 8 * j + k)
  {
    if k == 0 { assert BitMask(k) == 0x80; }
    else if k == 1 { assert BitMask(k) == 0x40; }
    else if k == 2 { assert BitMask(k) == 0x20; }
    else if k == 3 { assert BitMask(k) == 0x10; }
    else if k == 4 { assert BitMask(k) == 0x08; }
    else if k == 5 { assert BitMask(k) == 0x04; }
    else if k == 6 { assert BitMask(k) == 0x02; }
    else { assert BitMask(k) == 0x01; }
  }

  /** Pixel `i` of a mask is set exactly when its class puts it there. */
  lemma MaskBit(grey: seq<uint8>, shift: nat, level: int, count: nat, previous: bool, i: nat)
    requires count % 8 == 0 && count <= |grey| && i < count
    ensures PixelBit(Mask(grey, shift, level, count, previous), i) == MaskPixel(grey, shift, level, previous, i)
  {
    var j, k := i / 8, i % 8;
    assert i == 8 * j + k;
    assert BitMask(i) == BitMask(k);
    MaskByteBit(grey, shift, level, previous, j, k);
  }

  /** A buffer whose every pixel is the mask's pixel is the mask. */
  lemma MaskFromPixels(buf: seq<bv8>, grey: seq<uint8>, shift: nat, level: int, count: nat, previous: bool)
    requires count % 8 == 0 && count <= |grey| && |buf| * 8 == count
    requires forall j :: 0 <= j < count ==> PixelBit(buf, j) == MaskPixel(grey, shift, level, previous, j)
    ensures buf == Mask(grey, shift, level, count, previous)
  {
    var m := Mask(grey, shift, level, count, previous);
    forall j | 0 <= j < count
      ensures PixelBit(buf, j) == PixelBit(m, j)
    {
      MaskBit(grey, shift, level, count, previous, j);
    }
    BuffersEqualByPixels(buf, m);
  }

  /** Two packed buffers with the same pixels are the same bytes. */
  lemma BuffersEqualByPixels(a: seq<bv8>, b: seq<bv8>)
    requires |a| == |b|
    requires forall i :: 0 <= i < 8 * |a| ==> PixelBit(a, i) == PixelBit(b, i)
    ensures a == b
  {
    forall j | 0 <= j < |a|
      ensures a[j] == b[j]
    {
      forall k | 0 <= k < 8
        ensures a[j] & BitMask(k) == b[j] & BitMask(k)
      {
        assert PixelBit(a, 8 * j + k) == PixelBit(b, 8 * j + k);
        assert (8 * j + k) / 8 == j && (8 * j + k) % 8 == k;
      }
      ByteFromBits(a[j], b[j]);
    }
  }

  lemma ByteFromBits(x: bv8, y: bv8)
    requires forall k :: 0 <= k < 8 ==> x & BitMask(k) == y & BitMask(k)
    ensures x == y
  {
    assert x & BitMask(0) == y & BitMask(0) && x & BitMask(1) == y & BitMask(1);
    assert x & BitMask(2) == y & BitMask(2) && x & BitMask(3) == y & BitMask(3);
    assert x & BitMask(4) == y & BitMask(4) && x & BitMask(5) == y & BitMask(5);
    assert x & BitMask(6) == y & BitMask(6) && x & BitMask(7) == y & BitMask(7);
  }

  /** Setting pixel `i` changes that pixel only. */
  lemma SetPixel(x: bv8, i: nat, j: nat)
    requires i / 8 == j / 8
    ensures (x | BitMask(i)) & BitMask(j) != 0 <==> x & BitMask(j) != 0 || i == j
  {
    assert i % 8 == j % 8 <==> i == j;
  }

  /** `fb[i >> 3] |= 1 << (7 - (i & 7))`: set pixel `i`, leave every other pixel. */
  method SetBit(fb: array<bv8>, i: nat)
    requires i / 8 < fb.Length
    modifies fb
    ensures forall j :: 0 <= j < 8 * fb.Length ==> PixelBit(fb[..], j) == (PixelBit(old(fb[..]), j) || j == i)
  {
    ghost var before := fb[..];
    fb[i / 8] := fb[i / 8] | BitMask(i);
    forall j | 0 <= j < 8 * fb.Length
      ensures PixelBit(fb[..], j) == (PixelBit(before, j) || j == i)
    {
      if j / 8 == i / 8 {
        SetPixel(before[i / 8], i, j);
      }
    }
  }

  /** set_pixels_for_greyscale: clear both masks, then per pixel set the new
      image bit in `fb1` and the old image bit in `fb2` for its class;
      report whether any pixel is at `level`, `level + 1` or `level + 2`. */
  method SetPixelsForGreyscale(grey: seq<uint8>, fb1: array<bv8>, fb2: array<bv8>,
                               width: int, height: int, shift: nat, level: int)
    returns (anyPixel: bool)
    requires fb1 != fb2
    requires width * height % 8 == 0 && fb1.Length * 8 == width * height && fb2.Length == fb1.Length
    requires width * height <= |grey|
    modifies fb1, fb2
    ensures fb1[..] == Mask(grey, shift, level, width * height, false)
    ensures fb2[..] == Mask(grey, shift, level, width * height, true)
    ensures anyPixel <==>
      exists i :: 0 <= i < width * height && level <= Converted(grey[i], shift) <= level + 2
  {
    var count := width * height;
    anyPixel := false;
    var i := 0;
    while i < count / 8
      invariant 0 <= i <= count / 8
      invariant forall k :: 0 <= k < i ==> fb1[k] == 0 && fb2[k] == 0
    {
      fb1[i] := 0;
      fb2[i] := 0;
      i := i + 1;
    }
    i := 0;
    while i < count
      invariant 0 <= i <= count
      invariant forall j :: 0 <= j < i ==>
        PixelBit(fb1[..], j) == MaskPixel(grey, shift, level, false, j) &&
        PixelBit(fb2[..], j) == MaskPixel(grey, shift, level, true, j)
      invariant forall j :: i <= j < count ==> !PixelBit(fb1[..], j) && !PixelBit(fb2[..], j)
      invariant anyPixel <==> exists j :: 0 <= j < i && level <= Converted(grey[j], shift) <= level + 2
    {
      var converted := Converted(grey[i], shift);
      if converted == level {            // WW: neither image has the pixel
        anyPixel := true;
      } else if converted == level + 1 { // BB: both images have it
        anyPixel := true;
        SetBit(fb1, i);
        SetBit(fb2, i);
      } else if converted == level + 2 { // WB: only the new image has it
        anyPixel := true;
        SetBit(fb1, i);
      } else {                           // BW: only the old image, left untouched
        SetBit(fb2, i);
      }
      i := i + 1;
    }
    MaskFromPixels(fb1[..], grey, shift, level, count, false);
    MaskFromPixels(fb2[..], grey, shift, level, count, true);
  }

  // ---------------------------------------------------------------------
  // The passes of update_greyscale and the tables each one writes.

  /** Whether any pixel falls in the three values a pass at `level` handles. */
  predicate AnyPixel(grey: seq<uint8>, shift: nat, level: int, count: nat)
    requires count <= |grey|
  {
    exists i :: 0 <= i < count && level <= Converted(grey[i], shift) <= level + 2
  }

  /** Passes start at g = 0, 3, 6, ... below `greyscale`; pass j handles level 3j + 1. */
  function NumPasses(greyscale: int): nat
  {
    if greyscale <= 0 then 0 else (greyscale + 2) / 3
  }

  /** `frames_to_black / (greyscale - 1) * n` frames, made an integer. */
  function GreyFrames(greyscale: int, n: nat): nat
    requires greyscale > 1
  {
    (FRAMES_TO_BLACK * n) / (greyscale - 1)
  }

  /** `frames_to_black / greyscale * n` frames for the VCOM table. */
  function VcomFrames(greyscale: int, n: nat): nat
    requires greyscale > 0
  {
    (FRAMES_TO_BLACK * n) / greyscale
  }

  /** The shared 42-byte buffer as written for one class: pattern 0x55 (every
      slot at drive-high), `frames` in the first slot, `rep` repeats. */
  function GreyLut(frames: int, rep: int): seq<uint8>
  {
    Waveform.Table([Waveform.Phase(0x55, [frames, 0, 0, 0], rep)], Waveform.LUT_SIZE)
  }

  /** The five tables written in the pass starting at `g`. */
  function GreyPassTables(greyscale: int, g: nat): Waveform.Tables
    requires greyscale > 1
  {
    Waveform.Tables(
      vcom := Waveform.Table([Waveform.Phase(0, [VcomFrames(greyscale, g + 3), 0, 0, 0], 1)], Waveform.VCOM_LUT_SIZE),
      ww := GreyLut(GreyFrames(greyscale, g + 1), 1),
      bw := GreyLut(0, 0),
      wb := GreyLut(GreyFrames(greyscale, g + 3), 1),
      bb := GreyLut(GreyFrames(greyscale, g + 2), 1))
  }

  /** The table the controller applies to a pixel of class `t`. */
  function TableFor(t: Waveform.Tables, c: Transition): seq<uint8>
  {
    match c
    case WW => t.ww
    case BB => t.bb
    case WB => t.wb
    case BW => t.bw
  }

  /** A grey table drives high for `frames * rep` frames and never low. */
  lemma GreyLutDrive(frames: int, rep: int)
    requires 0 <= frames < 256 && 0 <= rep < 256
    ensures Waveform.Drive(GreyLut(frames, rep), Waveform.VDH) == frames * rep
    ensures Waveform.Drive(GreyLut(frames, rep), Waveform.VDL) == 0
  {
    var p := Waveform.Phase(0x55, [frames, 0, 0, 0], rep);
    Waveform.DriveTable([p], Waveform.LUT_SIZE, Waveform.VDH);
    Waveform.DriveTable([p], Waveform.LUT_SIZE, Waveform.VDL);
    assert [p][1..] == [];
    assert Waveform.Byte(frames) == frames && Waveform.Byte(rep) == rep;
  }

  /** No frame count of a supported greyscale overflows a byte, and the
      darkest value gets exactly the frames needed to reach black. */
  lemma GreyFramesBounded(greyscale: int, n: nat)
    requires greyscale in {32, 16, 8, 4} && n <= greyscale + 2
    ensures GreyFrames(greyscale, n) <= 64 && VcomFrames(greyscale, n) <= 64
    ensures GreyFrames(greyscale, greyscale - 1) == FRAMES_TO_BLACK
  {
  }

  /** A darker value is driven strictly longer than a lighter one. */
  lemma GreyFramesIncrease(greyscale: int, c1: nat, c2: nat)
    requires greyscale in {32, 16, 8, 4} && c1 < c2
    ensures GreyFrames(greyscale, c1) < GreyFrames(greyscale, c2)
  {
    var d := greyscale - 1;
    var a := FRAMES_TO_BLACK * c1;
    assert FRAMES_TO_BLACK * c2 >= a + d;
    assert (a + d) / d == a / d + 1;
  }

  /** Each value 1 .. greyscale-1 is driven (not BW) in exactly one pass,
      pass (c - 1) / 3; value 0, white, is BW in every pass. */
  lemma PassCoverage(greyscale: int, c: int, j: nat)
    requires greyscale in {32, 16, 8, 4} && 0 <= c < greyscale && j < NumPasses(greyscale)
    ensures PixelClass(c, 3 * j + 1) != BW <==> c >= 1 && j == (c - 1) / 3
    ensures c >= 1 ==> (c - 1) / 3 < NumPasses(greyscale)
  {
  }

  /** The frames each class is driven towards black in the pass starting at `g`. */
  function ClassFrames(greyscale: int, g: nat, cls: Transition): int
    requires greyscale > 1
  {
    match cls
    case WW => GreyFrames(greyscale, g + 1)
    case BB => GreyFrames(greyscale, g + 2)
    case WB => GreyFrames(greyscale, g + 3)
    case BW => 0
  }

  /** Each table a pass writes drives its class high for that class's
      frames and never low; BW, with zero repeats, drives nothing. */
  lemma PassTablesDrive(greyscale: int, g: nat, cls: Transition)
    requires greyscale in {32, 16, 8, 4} && g < greyscale
    ensures Waveform.Drive(TableFor(GreyPassTables(greyscale, g), cls), Waveform.VDH) == ClassFrames(greyscale, g, cls)
    ensures Waveform.Drive(TableFor(GreyPassTables(greyscale, g), cls), Waveform.VDL) == 0
  {
    if cls == BW {
      GreyLutDrive(0, 0);
    } else {
      var n := if cls == WW then g + 1 else if cls == BB then g + 2 else g + 3;
      GreyFramesBounded(greyscale, n);
      assert ClassFrames(greyscale, g, cls) == GreyFrames(greyscale, n);
      GreyLutDrive(GreyFrames(greyscale, n), 1);
    }
  }

  /** The frames a pixel of value `c` is driven towards black, pass by pass,
      when every pass refreshes with its own grey tables, that is when no
      pass's update is a due full refresh (see Driver.GreyPassesNotFull and
      Driver.GreyscaleFramesInForce). */
  function PassFrames(greyscale: int, c: int): (d: seq<int>)
    requires greyscale > 1
    ensures |d| == NumPasses(greyscale)
  {
    seq(NumPasses(greyscale), j requires 0 <= j < NumPasses(greyscale) =>
      ClassFrames(greyscale, 3 * j, PixelClass(c, 3 * j + 1)))
  }

  function Sum(s: seq<int>): int
  {
    if s == [] then 0 else s[0] + Sum(s[1..])
  }

  /** A sum whose terms are all zero but the one at `k`, if any, is that term. */
  lemma {:induction false} SumOfOne(s: seq<int>, k: int, v: int)
    requires forall j :: 0 <= j < |s| ==> s[j] == if j == k then v else 0
    ensures Sum(s) == if 0 <= k < |s| then v else 0
  {
    if s != [] {
      SumOfOne(s[1..], k - 1, v);
    }
  }

  /** One pass gives a pixel of value `c` its frames exactly when it is its pass. */
  lemma PassFramesAt(greyscale: int, c: int, j: nat)
    requires greyscale in {32, 16, 8, 4} && 0 <= c < greyscale && j < NumPasses(greyscale)
    ensures ClassFrames(greyscale, 3 * j, PixelClass(c, 3 * j + 1)) ==
      if c >= 1 && j == (c - 1) / 3 then GreyFrames(greyscale, c) else 0
  {
    PassCoverage(greyscale, c, j);
  }

  /** Over all passes a pixel of value `c` is driven towards black for
      `GreyFrames(c)` frames, once, and white pixels not at all, provided
      every pass refreshes with its own grey tables: no pass's update is a
      due full refresh (full_update_period 0 or greater than NumPasses; see
      Driver.GreyPassesNotFull). */
  lemma GreyscaleFrames(greyscale: int, c: int)
    requires greyscale in {32, 16, 8, 4} && 0 <= c < greyscale
    ensures Sum(PassFrames(greyscale, c)) == if c == 0 then 0 else GreyFrames(greyscale, c)
  {
    var k := if c >= 1 then (c - 1) / 3 else -1;
    var d := PassFrames(greyscale, c);
    forall j | 0 <= j < |d|
      ensures d[j] == if j == k then GreyFrames(greyscale, c) else 0
    {
      PassFramesAt(greyscale, c, j);
    }
    SumOfOne(d, k, GreyFrames(greyscale, c));
    if c >= 1 {
      PassCoverage(greyscale, c, 0);
    }
  }

  /** In the last pass no pixel is in the new image: the framebuffer the
      passes reuse ends blank. */
  lemma LastPassBlank(greyscale: int, c: int)
    requires greyscale in {32, 16, 8, 4} && 0 <= c < greyscale
    ensures !NewBit(PixelClass(c, 3 * (NumPasses(greyscale) - 1) + 1))
  {
  }
}
