/** The UC8151 driver object: its settings, its framebuffer, and the
    update, speed and greyscale operations as the commands they send. */
module Driver {
  import opened Wrappers
  import opened Protocol
  import Panel
  import Waveform
  import Greyscale
  import opened Commands

  // ---------------------------------------------------------------------
  // update() and send_image() as command sequences.

  /** Whether update() forces a flickering refresh: in no-flickering mode,
      every `period` updates counted since the last speed change; never
      when the period is 0. */
  predicate FullRefreshDue(period: int, count: int, noFlickering: bool)
  {
    period != 0 && count % period == 0 && noFlickering
  }

  /** send_image: power on, partial mode off, the image into the previous
      (DTM1) or current (DTM2) image memory, end of data. */
  function ImageWrites(image: seq<bv8>, previous: bool): seq<Command>
  {
    [Op(CMD_PON), Op(CMD_PTOU), Frame(if previous then CMD_DTM1 else CMD_DTM2, Buffer(image)), Op(CMD_DSP)]
  }

  /** update() up to and including the display refresh command. */
  function RefreshWrites(image: seq<bv8>, full: bool, speed: int, reaffirmBlack: bool): seq<Command>
  {
    (if full then WaveformWrites(Min(2, speed), false, reaffirmBlack) else [])
    + ImageWrites(image, false) + [Op(CMD_DRF)]
  }

  /** Everything a completed update() sends. */
  function UpdateWrites(image: seq<bv8>, full: bool, speed: int, noFlickering: bool, reaffirmBlack: bool,
                        blocking: bool): seq<Command>
    requires full ==> speed <= 6
  {
    RefreshWrites(image, full, speed, reaffirmBlack)
    + (if full then WaveformWrites(speed, noFlickering, reaffirmBlack) else [])
    + (if blocking then [Op(CMD_POF)] else [])
  }

  /** An ordinary update powers on, sends the image to the current image
      memory unchanged, refreshes, and powers off only when blocking. */
  lemma UpdateOpcodes(image: seq<bv8>, speed: int, noFlickering: bool, reaffirmBlack: bool, blocking: bool)
    ensures var w := UpdateWrites(image, false, speed, noFlickering, reaffirmBlack, blocking);
      Opcodes(w) == [CMD_PON, CMD_PTOU, CMD_DTM2, CMD_DSP, CMD_DRF] + (if blocking then [CMD_POF] else []) &&
      w[2].data == image
  {
    var w := UpdateWrites(image, false, speed, noFlickering, reaffirmBlack, blocking);
    assert w == ImageWrites(image, false) + [Op(CMD_DRF)] + (if blocking then [Op(CMD_POF)] else []);
  }

  /** A forced full refresh runs with the flickering, charge-neutral tables
      of speed min(2, speed). */
  lemma FullRefreshTables(log: seq<Command>, image: seq<bv8>, speed: int, reaffirmBlack: bool)
    requires 1 <= speed <= 6
    ensures Waveform.Flickering(Min(2, speed), false)
    ensures TablesInForce(log + RefreshWrites(image, true, speed, reaffirmBlack),
                          Waveform.Synthesize(Min(2, speed), false, reaffirmBlack))
  {
    var t := Waveform.Synthesize(Min(2, speed), false, reaffirmBlack);
    var flick := WaveformWrites(Min(2, speed), false, reaffirmBlack);
    var rest := ImageWrites(image, false) + [Op(CMD_DRF)];
    WaveformLoads(log, Min(2, speed), false, reaffirmBlack);
    ImageAndRefreshKeepTables(image);
    TablesStay(log + flick, rest, t);
    Regroup(log, flick, ImageWrites(image, false), [Op(CMD_DRF)]);
  }

  /** Sending an image and refreshing leaves the LUT registers alone. */
  lemma ImageAndRefreshKeepTables(image: seq<bv8>)
    ensures NoLutWrite(ImageWrites(image, false) + [Op(CMD_DRF)])
  {
  }

  /** Regrouping the last two of three pieces appended to a log. */
  lemma Regroup<T>(log: seq<T>, a: seq<T>, b: seq<T>, c: seq<T>)
    ensures log + (a + b + c) == log + a + (b + c)
  {
  }

  /** Once a full-refresh update() returns, the driver's own tables are back
      in force. */
  lemma FullRefreshRestores(log: seq<Command>, image: seq<bv8>, speed: int, noFlickering: bool, reaffirmBlack: bool,
                            blocking: bool)
    requires 1 <= speed <= 6
    ensures TablesInForce(log + UpdateWrites(image, true, speed, noFlickering, reaffirmBlack, blocking),
                          Waveform.Synthesize(speed, noFlickering, reaffirmBlack))
  {
    var refresh := RefreshWrites(image, true, speed, reaffirmBlack);
    var t := Waveform.Synthesize(speed, noFlickering, reaffirmBlack);
    var tail: seq<Command> := if blocking then [Op(CMD_POF)] else [];
    var w := UpdateWrites(image, true, speed, noFlickering, reaffirmBlack, blocking);
    assert w == refresh + WaveformWrites(speed, noFlickering, reaffirmBlack) + tail;
    assert WaveformWrites(speed, noFlickering, reaffirmBlack) == LutWrites(t);
    LoadThenKeep(log, refresh, t, tail);
  }

  /** Tables uploaded and followed by commands that leave the LUT registers
      alone stay in force. */
  lemma LoadThenKeep(log: seq<Command>, head: seq<Command>, t: Waveform.Tables, tail: seq<Command>)
    requires NoLutWrite(tail)
    ensures TablesInForce(log + (head + LutWrites(t) + tail), t)
  {
    LutWritesLoad(log + head, t);
    TablesStay(log + head + LutWrites(t), tail, t);
    assert log + (head + LutWrites(t) + tail) == log + head + LutWrites(t) + tail;
  }

  /** An ordinary update refreshes with whatever tables were in force. */
  lemma PartialRefreshKeepsTables(log: seq<Command>, t: Waveform.Tables, image: seq<bv8>, speed: int,
                                  noFlickering: bool, reaffirmBlack: bool, blocking: bool)
    requires TablesInForce(log, t)
    ensures TablesInForce(log + RefreshWrites(image, false, speed, reaffirmBlack), t)
    ensures TablesInForce(log + UpdateWrites(image, false, speed, noFlickering, reaffirmBlack, blocking), t)
  {
    var w := UpdateWrites(image, false, speed, noFlickering, reaffirmBlack, blocking);
    var r := RefreshWrites(image, false, speed, reaffirmBlack);
    assert NoLutWrite(r);
    TablesStay(log, r, t);
    assert NoLutWrite(w);
    TablesStay(log, w, t);
  }

  // ---------------------------------------------------------------------
  // update_greyscale() as command sequences.

  /** A cleared 1-bit framebuffer. */
  function Blank(n: nat): (b: seq<bv8>)
    ensures |b| == n && forall i :: 0 <= i < n ==> b[i] == 0
  {
    seq(n, _ => 0 as bv8)
  }

  /** The grey tables of one pass, in the order update_greyscale sends them. */
  function GreyLutWrites(t: Waveform.Tables): (w: seq<Command>)
    ensures Opcodes(w) == [CMD_LUT_WW, CMD_LUT_BB, CMD_LUT_WB, CMD_LUT_BW, CMD_LUT_VCOM]
  {
    [Frame(CMD_LUT_WW, Buffer(ToBus(t.ww))), Frame(CMD_LUT_BB, Buffer(ToBus(t.bb))),
     Frame(CMD_LUT_WB, Buffer(ToBus(t.wb))), Frame(CMD_LUT_BW, Buffer(ToBus(t.bw))),
     Frame(CMD_LUT_VCOM, Buffer(ToBus(t.vcom)))]
  }

  lemma GreyLutWritesLoad(log: seq<Command>, t: Waveform.Tables)
    ensures TablesInForce(log + GreyLutWrites(t), t)
  {
    var w := GreyLutWrites(t);
    LastWriteAppend(log, w, CMD_LUT_VCOM);
    LastWriteAppend(log, w, CMD_LUT_WW);
    LastWriteAppend(log, w, CMD_LUT_BW);
    LastWriteAppend(log, w, CMD_LUT_WB);
    LastWriteAppend(log, w, CMD_LUT_BB);
    LastWriteAt(w, 0, CMD_LUT_WW);
    LastWriteAt(w, 1, CMD_LUT_BB);
    LastWriteAt(w, 2, CMD_LUT_WB);
    LastWriteAt(w, 3, CMD_LUT_BW);
    LastWriteAt(w, 4, CMD_LUT_VCOM);
  }

  /** The commands of pass `j` (g = 3j, level g + 1), run at `speed` without
      flicker when its update counter is `count`: nothing when no pixel is
      at one of its levels. */
  function PassWrites(buffer: seq<uint8>, greyscale: int, shift: nat, n: nat, period: int, reaffirmBlack: bool,
                      speed: int, j: nat, count: int): seq<Command>
    requires greyscale > 1 && n % 8 == 0 && n <= |buffer| && speed <= 6
  {
    var level := 3 * j + 1;
    if !Greyscale.AnyPixel(buffer, shift, level, n) then []
    else
      ImageWrites(Greyscale.Mask(buffer, shift, level, n, true), true)
      + GreyLutWrites(Greyscale.GreyPassTables(greyscale, 3 * j))
      + UpdateWrites(Greyscale.Mask(buffer, shift, level, n, false), FullRefreshDue(period, count, true), speed, true,
                     reaffirmBlack, true)
  }

  /** The update counter before pass `j`: 1 for the blanking update, plus
      one for every earlier pass that ran. */
  function CountBefore(buffer: seq<uint8>, shift: nat, n: nat, j: nat): (c: nat)
    requires n <= |buffer|
    ensures 1 <= c <= j + 1
  {
    if j == 0 then 1
    else CountBefore(buffer, shift, n, j - 1) + (if Greyscale.AnyPixel(buffer, shift, 3 * (j - 1) + 1, n) then 1 else 0)
  }

  /** The commands of passes 0 .. k-1. */
  function PassesWrites(buffer: seq<uint8>, greyscale: int, shift: nat, n: nat, period: int, reaffirmBlack: bool,
                        speed: int, k: nat): seq<Command>
    requires greyscale > 1 && n % 8 == 0 && n <= |buffer| && speed <= 6
  {
    if k == 0 then []
    else PassesWrites(buffer, greyscale, shift, n, period, reaffirmBlack, speed, k - 1)
         + PassWrites(buffer, greyscale, shift, n, period, reaffirmBlack, speed, k - 1,
                      CountBefore(buffer, shift, n, k - 1))
  }

  /** A pass refreshes with its own grey tables unless its update is a due
      full refresh; then the speed-2 flickering tables replace them. */
  lemma GreyPassTablesAtRefresh(log: seq<Command>, old_image: seq<bv8>, new_image: seq<bv8>,
                                t: Waveform.Tables, full: bool, reaffirmBlack: bool)
    ensures var atRefresh := log + ImageWrites(old_image, true) + GreyLutWrites(t)
                             + RefreshWrites(new_image, full, 2, reaffirmBlack);
      TablesInForce(atRefresh, if full then Waveform.Synthesize(2, false, reaffirmBlack) else t)
  {
    var loaded := log + ImageWrites(old_image, true) + GreyLutWrites(t);
    GreyLutWritesLoad(log + ImageWrites(old_image, true), t);
    if full {
      FullRefreshTables(loaded, new_image, 2, reaffirmBlack);
    } else {
      PartialRefreshKeepsTables(loaded, t, new_image, 2, true, reaffirmBlack, true);
    }
  }

  /** With a full-update period of 0 or longer than the number of passes,
      no pass is a full refresh, so every pass uses its grey tables. */
  lemma GreyPassesNotFull(buffer: seq<uint8>, greyscale: int, shift: nat, n: nat, period: int, j: nat)
    requires n <= |buffer| && j < Greyscale.NumPasses(greyscale)
    requires period == 0 || period > Greyscale.NumPasses(greyscale)
    ensures !FullRefreshDue(period, CountBefore(buffer, shift, n, j), true)
  {
    var c := CountBefore(buffer, shift, n, j);
    if period != 0 {
      assert 0 < c < period;
      assert c % period == c;
    }
  }

  /** With a full-update period of 1 every pass is a full refresh, so
      every pass refreshes with the speed-2 tables instead of its grey ones. */
  lemma GreyPassesFullWithPeriodOne(buffer: seq<uint8>, shift: nat, n: nat, j: nat)
    requires n <= |buffer|
    ensures FullRefreshDue(1, CountBefore(buffer, shift, n, j), true)
  {
  }

  /** The tables in force when pass `j` sends its refresh command, its
      update counter being `count`. */
  function PassRefreshTables(greyscale: int, period: int, reaffirmBlack: bool, j: nat, count: int): Waveform.Tables
    requires greyscale > 1
  {
    if FullRefreshDue(period, count, true) then Waveform.Synthesize(GREY_SPEED, false, reaffirmBlack)
    else Greyscale.GreyPassTables(greyscale, 3 * j)
  }

  /** The commands of pass `j` up to and including its refresh command. */
  function PassRefreshWrites(buffer: seq<uint8>, greyscale: int, shift: nat, n: nat, period: int,
                             reaffirmBlack: bool, j: nat, count: int): seq<Command>
    requires greyscale > 1 && n % 8 == 0 && n <= |buffer|
  {
    ImageWrites(Greyscale.Mask(buffer, shift, 3 * j + 1, n, true), true)
    + GreyLutWrites(Greyscale.GreyPassTables(greyscale, 3 * j))
    + RefreshWrites(Greyscale.Mask(buffer, shift, 3 * j + 1, n, false), FullRefreshDue(period, count, true),
                    GREY_SPEED, reaffirmBlack)
  }

  /** A pass that runs sends its commands up to its refresh, then the
      driver's tables if the refresh was a full one, and powers off. */
  lemma PassWritesSplit(buffer: seq<uint8>, greyscale: int, shift: nat, n: nat, period: int, reaffirmBlack: bool,
                        j: nat, count: int)
    requires greyscale > 1 && n % 8 == 0 && n <= |buffer| && Greyscale.AnyPixel(buffer, shift, 3 * j + 1, n)
    ensures PassWrites(buffer, greyscale, shift, n, period, reaffirmBlack, GREY_SPEED, j, count)
            == PassRefreshWrites(buffer, greyscale, shift, n, period, reaffirmBlack, j, count)
               + (if FullRefreshDue(period, count, true) then WaveformWrites(GREY_SPEED, true, reaffirmBlack) else [])
               + [Op(CMD_POF)]
  {
    var full := FullRefreshDue(period, count, true);
    var a := ImageWrites(Greyscale.Mask(buffer, shift, 3 * j + 1, n, true), true)
             + GreyLutWrites(Greyscale.GreyPassTables(greyscale, 3 * j));
    var newImage := Greyscale.Mask(buffer, shift, 3 * j + 1, n, false);
    var c := RefreshWrites(newImage, full, GREY_SPEED, reaffirmBlack);
    var w: seq<Command> := if full then WaveformWrites(GREY_SPEED, true, reaffirmBlack) else [];
    var pof := [Op(CMD_POF)];
    var u := UpdateWrites(newImage, full, GREY_SPEED, true, reaffirmBlack, true);
    assert u == c + w + pof;
    assert PassWrites(buffer, greyscale, shift, n, period, reaffirmBlack, GREY_SPEED, j, count) == a + u;
    assert PassRefreshWrites(buffer, greyscale, shift, n, period, reaffirmBlack, j, count) == a + c;
    Append3(a, c, w, pof);
  }

  /** At the refresh of a pass that runs, the tables `PassRefreshTables`
      names are in force. */
  lemma PassRefreshInForce(log: seq<Command>, buffer: seq<uint8>, greyscale: int, shift: nat, n: nat, period: int,
                           reaffirmBlack: bool, j: nat, count: int)
    requires greyscale > 1 && n % 8 == 0 && n <= |buffer|
    ensures TablesInForce(log + PassRefreshWrites(buffer, greyscale, shift, n, period, reaffirmBlack, j, count),
                          PassRefreshTables(greyscale, period, reaffirmBlack, j, count))
  {
    var a := ImageWrites(Greyscale.Mask(buffer, shift, 3 * j + 1, n, true), true);
    var b := GreyLutWrites(Greyscale.GreyPassTables(greyscale, 3 * j));
    var c := RefreshWrites(Greyscale.Mask(buffer, shift, 3 * j + 1, n, false), FullRefreshDue(period, count, true),
                           GREY_SPEED, reaffirmBlack);
    GreyPassTablesAtRefresh(log, Greyscale.Mask(buffer, shift, 3 * j + 1, n, true),
                            Greyscale.Mask(buffer, shift, 3 * j + 1, n, false),
                            Greyscale.GreyPassTables(greyscale, 3 * j), FullRefreshDue(period, count, true),
                            reaffirmBlack);
    Append3(log, a, b, c);
  }

  /** A pass whose update is not a due full refresh drives each class with
      its grey table: its frames towards black, none towards white. */
  lemma GreyPassDriveInForce(greyscale: int, period: int, reaffirmBlack: bool, j: nat, count: int, c: int)
    requires greyscale in {32, 16, 8, 4} && 0 <= c < greyscale && j < Greyscale.NumPasses(greyscale)
    requires !FullRefreshDue(period, count, true)
    ensures var t := Greyscale.TableFor(PassRefreshTables(greyscale, period, reaffirmBlack, j, count),
                                        Greyscale.PixelClass(c, 3 * j + 1));
      Waveform.Drive(t, Waveform.VDH) == (if c >= 1 && j == (c - 1) / 3 then Greyscale.GreyFrames(greyscale, c) else 0) &&
      Waveform.Drive(t, Waveform.VDL) == 0
  {
    var cls := Greyscale.PixelClass(c, 3 * j + 1);
    assert PassRefreshTables(greyscale, period, reaffirmBlack, j, count) == Greyscale.GreyPassTables(greyscale, 3 * j);
    Greyscale.PassTablesDrive(greyscale, 3 * j, cls);
    Greyscale.PassFramesAt(greyscale, c, j);
  }

  /** The frames the tables in force at pass `j`'s refresh drive a pixel
      of value `c` with at voltage `code`. */
  function PassRefreshDrive(buffer: seq<uint8>, greyscale: int, shift: nat, n: nat, period: int, reaffirmBlack: bool,
                            c: int, code: int, j: nat): int
    requires greyscale > 1 && n <= |buffer|
  {
    var t := PassRefreshTables(greyscale, period, reaffirmBlack, j, CountBefore(buffer, shift, n, j));
    Waveform.Drive(Greyscale.TableFor(t, Greyscale.PixelClass(c, 3 * j + 1)), code)
  }

  /** The same, pass by pass. */
  function RefreshDrive(buffer: seq<uint8>, greyscale: int, shift: nat, n: nat, period: int, reaffirmBlack: bool,
                        c: int, code: int): (d: seq<int>)
    requires greyscale > 1 && n <= |buffer|
    ensures |d| == Greyscale.NumPasses(greyscale)
    ensures forall j :: 0 <= j < |d| ==> d[j] == PassRefreshDrive(buffer, greyscale, shift, n, period, reaffirmBlack, c, code, j)
  {
    seq(Greyscale.NumPasses(greyscale), j requires 0 <= j < Greyscale.NumPasses(greyscale) =>
      PassRefreshDrive(buffer, greyscale, shift, n, period, reaffirmBlack, c, code, j))
  }

  /** Pass `j` of a run where no pass is a due full refresh drives a pixel
      of value `c` towards black only if it is that value's pass, and never
      towards white. */
  lemma PassRefreshDriveNotFull(buffer: seq<uint8>, greyscale: int, shift: nat, n: nat, period: int,
                                reaffirmBlack: bool, c: int, j: nat)
    requires greyscale in {32, 16, 8, 4} && 0 <= c < greyscale && n <= |buffer| && j < Greyscale.NumPasses(greyscale)
    requires period == 0 || period > Greyscale.NumPasses(greyscale)
    ensures PassRefreshDrive(buffer, greyscale, shift, n, period, reaffirmBlack, c, Waveform.VDH, j)
            == if c >= 1 && j == (c - 1) / 3 then Greyscale.GreyFrames(greyscale, c) else 0
    ensures PassRefreshDrive(buffer, greyscale, shift, n, period, reaffirmBlack, c, Waveform.VDL, j) == 0
  {
    GreyPassesNotFull(buffer, greyscale, shift, n, period, j);
    GreyPassDriveInForce(greyscale, period, reaffirmBlack, j, CountBefore(buffer, shift, n, j), c);
  }

  /** When no pass is a due full refresh, the tables actually in force at
      the passes' refreshes drive a pixel of value `c` towards black for
      GreyFrames(c) frames in all, and a white pixel not at all. */
  lemma GreyscaleFramesInForce(buffer: seq<uint8>, greyscale: int, shift: nat, n: nat, period: int,
                               reaffirmBlack: bool, c: int)
    requires greyscale in {32, 16, 8, 4} && 0 <= c < greyscale && n <= |buffer|
    requires period == 0 || period > Greyscale.NumPasses(greyscale)
    ensures Greyscale.Sum(RefreshDrive(buffer, greyscale, shift, n, period, reaffirmBlack, c, Waveform.VDH))
            == if c == 0 then 0 else Greyscale.GreyFrames(greyscale, c)
  {
    var high := RefreshDrive(buffer, greyscale, shift, n, period, reaffirmBlack, c, Waveform.VDH);
    var k := if c >= 1 then (c - 1) / 3 else -1;
    forall j | 0 <= j < |high|
      ensures high[j] == if j == k then Greyscale.GreyFrames(greyscale, c) else 0
    {
      PassRefreshDriveNotFull(buffer, greyscale, shift, n, period, reaffirmBlack, c, j);
    }
    Greyscale.SumOfOne(high, k, Greyscale.GreyFrames(greyscale, c));
    if c >= 1 {
      Greyscale.PassCoverage(greyscale, c, 0);
    }
  }

  /** When no pass is a due full refresh, no pass drives any pixel towards
      white. */
  lemma GreyscaleNeverWhitensInForce(buffer: seq<uint8>, greyscale: int, shift: nat, n: nat, period: int,
                                     reaffirmBlack: bool, c: int)
    requires greyscale in {32, 16, 8, 4} && 0 <= c < greyscale && n <= |buffer|
    requires period == 0 || period > Greyscale.NumPasses(greyscale)
    ensures var low := RefreshDrive(buffer, greyscale, shift, n, period, reaffirmBlack, c, Waveform.VDL);
      forall j :: 0 <= j < |low| ==> low[j] == 0
  {
    var low := RefreshDrive(buffer, greyscale, shift, n, period, reaffirmBlack, c, Waveform.VDL);
    forall j | 0 <= j < |low|
      ensures low[j] == 0
    {
      PassRefreshDriveNotFull(buffer, greyscale, shift, n, period, reaffirmBlack, c, j);
    }
  }

  /** The speed update_greyscale runs its passes at. */
  const GREY_SPEED := 2

  /** The commands update_greyscale sends before its passes: speed 2
      without flicker, then an update of the blank framebuffer. */
  function GreyscaleEntryWrites(width: int, height: int, mirrorX: bool, mirrorY: bool, period: int,
                                reaffirmBlack: bool): seq<Command>
    requires Panel.Supported(width, height)
  {
    [PsrCommand(width, height, GREY_SPEED, mirrorX, mirrorY)] + WaveformWrites(GREY_SPEED, true, reaffirmBlack)
    + UpdateWrites(Blank(width * height / 8), FullRefreshDue(period, 0, true), GREY_SPEED, true, reaffirmBlack, true)
  }

  /** The commands update_greyscale sends after its passes: the original
      speed, and when it is accepted its tables and power off. */
  function GreyscaleExitWrites(width: int, height: int, mirrorX: bool, mirrorY: bool, reaffirmBlack: bool,
                               origSpeed: int, origNoFlickering: bool): seq<Command>
    requires Panel.Supported(width, height)
  {
    var psr := [PsrCommand(width, height, origSpeed, mirrorX, mirrorY)];
    if origSpeed <= 6 then psr + WaveformWrites(origSpeed, origNoFlickering, reaffirmBlack) + [Op(CMD_POF)] else psr
  }

  /** Everything update_greyscale sends for a supported greyscale. */
  function GreyscaleWrites(buffer: seq<uint8>, greyscale: int, width: int, height: int, mirrorX: bool, mirrorY: bool,
                           period: int, reaffirmBlack: bool, origSpeed: int, origNoFlickering: bool): seq<Command>
    requires Panel.Supported(width, height) && greyscale in {32, 16, 8, 4} && width * height <= |buffer|
  {
    var n := width * height;
    var shift := Greyscale.GreyShift(greyscale).value;
    GreyscaleEntryWrites(width, height, mirrorX, mirrorY, period, reaffirmBlack)
    + PassesWrites(buffer, greyscale, shift, n, period, reaffirmBlack, GREY_SPEED, Greyscale.NumPasses(greyscale))
    + GreyscaleExitWrites(width, height, mirrorX, mirrorY, reaffirmBlack, origSpeed, origNoFlickering)
  }

  /** The new-image mask of the last pass is empty. */
  lemma LastMaskBlank(buffer: seq<uint8>, greyscale: int, n: nat)
    requires greyscale in {32, 16, 8, 4} && n % 8 == 0 && n <= |buffer|
    ensures var shift := Greyscale.GreyShift(greyscale).value;
      Greyscale.Mask(buffer, shift, 3 * (Greyscale.NumPasses(greyscale) - 1) + 1, n, false) == Blank(n / 8)
  {
    var shift := Greyscale.GreyShift(greyscale).value;
    var level := 3 * (Greyscale.NumPasses(greyscale) - 1) + 1;
    forall i | 0 <= i < n
      ensures !Greyscale.MaskPixel(buffer, shift, level, false, i)
    {
      Greyscale.ConvertedInRange(buffer[i], greyscale);
      Greyscale.LastPassBlank(greyscale, Greyscale.Converted(buffer[i], shift));
    }
    var m := Greyscale.Mask(buffer, shift, level, n, false);
    forall j | 0 <= j < n / 8
      ensures m[j] == 0
    {
      assert 8 * j + 7 < n;
    }
  }

  /** A non-zero multiple of a positive number is at least that number away from zero. */
  lemma MulAwayFromZero(p: int, d: int)
    requires p > 0
    ensures d >= 1 ==> p * d >= p
    ensures d <= -1 ==> p * d <= -p
  {
    if d >= 1 {
      assert p * d == p + p * (d - 1);
      assert p * (d - 1) >= 0;
    } else if d <= -1 {
      assert p * d == -p + p * (d + 1);
      assert p * (d + 1) <= 0;
    }
  }

  /** Counting `k` on from a multiple of `period`, for `k` up to one period. */
  lemma ModAfterMultiple(count: int, period: int, k: int)
    requires period > 0 && count % period == 0 && 0 <= k <= period
    ensures (count + k) % period == if k == period then 0 else k
  {
    var q := count / period;
    var a := count + k;
    var r := if k == period then 0 else k;
    var q' := if k == period then q + 1 else q;
    assert count == period * q;
    assert a == period * q' + r;
    assert a == period * (a / period) + a % period;
    assert period * (a / period - q') == r - a % period;
    MulAwayFromZero(period, a / period - q');
  }

  /** A full refresh is forced once every `period` updates: after a due
      one, none of the next `period - 1` is, and the one after them is. */
  lemma FullRefreshSpacing(period: int, count: int, k: int)
    requires period > 0 && FullRefreshDue(period, count, true) && 0 < k < period
    ensures !FullRefreshDue(period, count + k, true)
    ensures FullRefreshDue(period, count + period, true)
  {
    ModAfterMultiple(count, period, k);
    ModAfterMultiple(count, period, period);
  }

  /** Appending to a log one piece at a time. */
  lemma Append<T>(log: seq<T>, w: seq<T>, piece: seq<T>)
    ensures log + w + piece == log + (w + piece)
  {
  }

  /** Appending three pieces to a log one at a time. */
  lemma Append3<T>(log: seq<T>, a: seq<T>, b: seq<T>, c: seq<T>)
    ensures log + a + b + c == log + (a + b + c)
  {
  }

  /** The log after pass `j` is the log of the passes up to and including it. */
  lemma PassesStep(log: seq<Command>, buffer: seq<uint8>, greyscale: int, shift: nat, n: nat, period: int,
                   reaffirmBlack: bool, speed: int, j: nat)
    requires greyscale > 1 && n % 8 == 0 && n <= |buffer| && speed <= 6
    ensures log + PassesWrites(buffer, greyscale, shift, n, period, reaffirmBlack, speed, j)
                + PassWrites(buffer, greyscale, shift, n, period, reaffirmBlack, speed, j, CountBefore(buffer, shift, n, j))
            == log + PassesWrites(buffer, greyscale, shift, n, period, reaffirmBlack, speed, j + 1)
  {
    Append(log, PassesWrites(buffer, greyscale, shift, n, period, reaffirmBlack, speed, j),
           PassWrites(buffer, greyscale, shift, n, period, reaffirmBlack, speed, j, CountBefore(buffer, shift, n, j)));
  }

  /** The loop over g = 3j stops exactly after the last pass. */
  lemma LoopEndsAfterLastPass(greyscale: int, j: nat)
    requires greyscale > 1 && greyscale <= 3 * j && j <= Greyscale.NumPasses(greyscale)
    ensures j == Greyscale.NumPasses(greyscale) && j > 0
  {
  }

  // ---------------------------------------------------------------------
  // The driver object.

  /** The part of a grey-table buffer that update_greyscale never writes:
      the bytes of the first row other than its pattern, first frame count
      and repeat count, and every later row. */
  ghost predicate BlankTail(s: seq<uint8>)
  {
    forall i :: 0 <= i < |s| && (2 <= i < 5 || 6 <= i) ==> s[i] == 0
  }

  /** A buffer that is zero outside the first row's pattern, first frame
      count and repeat count holds the single-row table of those values. */
  lemma SingleRowBuffer(s: seq<uint8>, pat: uint8, frames: int, rep: int, size: nat)
    requires size >= Waveform.LUT_SIZE && |s| == size && BlankTail(s)
    requires s[0] == pat && s[1] == Waveform.Byte(frames) && s[5] == Waveform.Byte(rep)
    ensures s == Waveform.Table([Waveform.Phase(pat, [frames, 0, 0, 0], rep)], size)
  {
    var p := Waveform.Phase(pat, [frames, 0, 0, 0], rep);
    Waveform.SinglePhaseTable(p, size);
    var t := Waveform.RowBytes(p) + Waveform.Zeros(size - 6);
    forall i | 0 <= i < size
      ensures s[i] == t[i]
    {
      if i >= 6 {
        assert t[i] == Waveform.Zeros(size - 6)[i - 6];
      }
    }
  }

  /** Sends a table buffer whose only phase is in row 0. */
  method WriteTable(bus: Bus, cmd: bv8, buf: array<uint8>, ghost pat: uint8, ghost frames: int, ghost rep: int)
    requires buf.Length >= Waveform.LUT_SIZE && BlankTail(buf[..])
    requires buf[0] == pat && buf[1] == Waveform.Byte(frames) && buf[5] == Waveform.Byte(rep)
    modifies bus
    ensures bus.log == old(bus.log)
                       + [Frame(cmd, Buffer(ToBus(Waveform.Table([Waveform.Phase(pat, [frames, 0, 0, 0], rep)],
                                                                 buf.Length))))]
  {
    SingleRowBuffer(buf[..], pat, frames, rep, buf.Length);
    Write(bus, cmd, Buffer(ToBus(buf[..])));
  }

  class UC8151 {
    const spi: Bus
    const width: int
    const height: int
    const mirrorX: bool
    const mirrorY: bool
    const inverted: bool
    const reaffirmBlack: bool
    /** The 1-bit framebuffer, one bit per pixel, most significant bit first. */
    const rawFb: array<bv8>
    var speed: int
    var noFlickering: bool
    /** Updates done since the last speed change. */
    var updateCount: int
    var fullUpdatePeriod: int

    /** One of the four panels, with a framebuffer of one bit per pixel. */
    ghost predicate Valid()
    {
      Panel.Supported(width, height) && (width * height) % 8 == 0 && rawFb.Length * 8 == width * height
    }

    constructor (spi: Bus, width: int, height: int, speed: int, mirrorX: bool, mirrorY: bool, inverted: bool,
                 noFlickering: bool, fullUpdatePeriod: int, reaffirmBlack: bool)
      requires Panel.Supported(width, height)
      ensures Valid() && fresh(rawFb) && rawFb[..] == Blank(rawFb.Length)
      ensures this.spi == spi && this.width == width && this.height == height && this.speed == speed
      ensures this.mirrorX == mirrorX && this.mirrorY == mirrorY && this.inverted == inverted
      ensures this.noFlickering == noFlickering && this.fullUpdatePeriod == fullUpdatePeriod
      ensures this.reaffirmBlack == reaffirmBlack && updateCount == 0
    {
      this.spi := spi;
      this.width := width;
      this.height := height;
      this.speed := speed;
      this.mirrorX := mirrorX;
      this.mirrorY := mirrorY;
      this.inverted := inverted;
      this.noFlickering := noFlickering;
      this.reaffirmBlack := reaffirmBlack;
      this.fullUpdatePeriod := fullUpdatePeriod;
      this.updateCount := 0;
      Panel.WholeBytes(width, height);
      rawFb := new bv8[width * height / 8](_ => 0);
    }

    /** __init__: initialise the display, then allocate the framebuffer; no
        driver exists when initialisation raises. */
    static method Create(spi: Bus, width: int, height: int, speed: int, mirrorX: bool, mirrorY: bool, inverted: bool,
                         noFlickering: bool, fullUpdatePeriod: int, reaffirmBlack: bool)
      returns (r: Result<UC8151, DriverError>)
      modifies spi
      ensures r.Success? <==> speed <= 6 && Panel.Supported(width, height)
      ensures r.Failure? ==> r.error == if speed > 6 then SpeedOutOfRange else UnsupportedResolution
      ensures speed > 6 ==> spi.log == old(spi.log) + InitHead()
      ensures speed <= 6 && !Panel.Supported(width, height) ==>
        spi.log == old(spi.log) + InitHead() + WaveformWrites(speed, noFlickering, reaffirmBlack) + InitBooster()
      ensures r.Success? ==>
        var d := r.value;
        fresh(d) && fresh(d.rawFb) && d.Valid() && d.spi == spi && d.rawFb[..] == Blank(d.rawFb.Length) &&
        d.width == width && d.height == height && d.speed == speed && d.mirrorX == mirrorX && d.mirrorY == mirrorY &&
        d.inverted == inverted && d.noFlickering == noFlickering && d.fullUpdatePeriod == fullUpdatePeriod &&
        d.reaffirmBlack == reaffirmBlack && d.updateCount == 0
      ensures r.Success? ==>
        spi.log == old(spi.log) + InitHead() + WaveformWrites(speed, noFlickering, reaffirmBlack) + InitBooster()
                   + [PsrCommand(width, height, speed, mirrorX, mirrorY)] + InitTail(inverted)
    {
      var o := InitializeDisplay(spi, width, height, speed, mirrorX, mirrorY, inverted, noFlickering, reaffirmBlack);
      if o.Fail? {
        return Failure(o.error);
      }
      var d := new UC8151(spi, width, height, speed, mirrorX, mirrorY, inverted, noFlickering, fullUpdatePeriod,
                          reaffirmBlack);
      return Success(d);
    }

    /** set_panel_configuration for the driver's own settings. */
    method SetPanelConfiguration() returns (o: Outcome<DriverError>)
      requires Valid()
      modifies spi
      ensures o == Pass && spi.log == old(spi.log) + [PsrCommand(width, height, speed, mirrorX, mirrorY)]
    {
      o := Commands.SetPanelConfiguration(spi, width, height, speed, mirrorX, mirrorY);
    }

    /** set_speed: apply the options given, set the speed, reconfigure the
        panel and the tables; the counter restarts only when all succeed. */
    method SetSpeed(newSpeed: int, newNoFlickering: Option<bool>, newPeriod: Option<int>)
      returns (o: Outcome<DriverError>)
      requires Valid()
      modifies this, spi
      ensures speed == newSpeed
      ensures noFlickering == if newNoFlickering.Some? then newNoFlickering.value else old(noFlickering)
      ensures fullUpdatePeriod == if newPeriod.Some? then newPeriod.value else old(fullUpdatePeriod)
      ensures o.Fail? <==> newSpeed > 6
      ensures o.Fail? ==>
        o.error == SpeedOutOfRange && updateCount == old(updateCount) &&
        spi.log == old(spi.log) + [PsrCommand(width, height, newSpeed, mirrorX, mirrorY)]
      ensures o.Pass? ==>
        updateCount == 0 &&
        spi.log == old(spi.log) + [PsrCommand(width, height, newSpeed, mirrorX, mirrorY)]
                   + WaveformWrites(newSpeed, noFlickering, reaffirmBlack)
    {
      if newNoFlickering.Some? {
        noFlickering := newNoFlickering.value;
      }
      if newPeriod.Some? {
        fullUpdatePeriod := newPeriod.value;
      }
      speed := newSpeed;
      var _ := SetPanelConfiguration();
      o := SetWaveformLut(spi, speed, noFlickering, reaffirmBlack);
      if o.Fail? {
        return;
      }
      updateCount := 0;
    }

    /** wait_and_switch_off: the busy wait is not a bus write; power off. */
    method WaitAndSwitchOff()
      modifies spi
      ensures spi.log == old(spi.log) + [Op(CMD_POF)]
    {
      Write(spi, CMD_POF, NoData);
    }

    /** send_image: the buffer goes to the previous image memory when
        `previous`, otherwise to the current one. */
    method SendImage(fb: array<bv8>, previous: bool)
      modifies spi
      ensures spi.log == old(spi.log) + ImageWrites(fb[..], previous)
    {
      Write(spi, CMD_PON, NoData);
      Write(spi, CMD_PTOU, NoData);
      if previous {
        Write(spi, CMD_DTM1, Buffer(fb[..]));
      } else {
        Write(spi, CMD_DTM2, Buffer(fb[..]));
      }
      Write(spi, CMD_DSP, NoData);
    }

    /** update: nothing while busy unless blocking; a due full refresh
        runs with the speed-min(2, speed) flickering tables and loads the
        driver's own tables back after the refresh command. */
    method Update(blocking: bool, busy: bool, fb: Option<array<bv8>>) returns (r: Result<bool, DriverError>)
      requires Valid()
      modifies this, spi
      ensures speed == old(speed) && noFlickering == old(noFlickering) && fullUpdatePeriod == old(fullUpdatePeriod)
      ensures !blocking && busy ==>
        r == Success(false) && spi.log == old(spi.log) && updateCount == old(updateCount)
      ensures var image := if fb.Some? then fb.value[..] else rawFb[..];
        var full := FullRefreshDue(fullUpdatePeriod, old(updateCount), noFlickering);
        (blocking || !busy) && full && speed > 6 ==>
          r == Failure(SpeedOutOfRange) && updateCount == old(updateCount) &&
          spi.log == old(spi.log) + RefreshWrites(image, true, speed, reaffirmBlack)
      ensures var image := if fb.Some? then fb.value[..] else rawFb[..];
        var full := FullRefreshDue(fullUpdatePeriod, old(updateCount), noFlickering);
        (blocking || !busy) && (full ==> speed <= 6) ==>
          r == Success(true) && updateCount == old(updateCount) + 1 &&
          spi.log == old(spi.log) + UpdateWrites(image, full, speed, noFlickering, reaffirmBlack, blocking)
    {
      var buf := if fb.Some? then fb.value else rawFb;
      if !blocking && busy {
        return Success(false);
      }
      ghost var log0 := spi.log;
      var full := fullUpdatePeriod != 0 && updateCount % fullUpdatePeriod == 0 && noFlickering;
      SendRefresh(buf, full);
      var o := FinishUpdate(full, blocking);
      if o.Fail? {
        return Failure(o.error);
      }
      Append3(log0, RefreshWrites(buf[..], full, speed, reaffirmBlack),
              if full then WaveformWrites(speed, noFlickering, reaffirmBlack) else [],
              if blocking then [Op(CMD_POF)] else []);
      updateCount := updateCount + 1;
      return Success(true);
    }

    /** update(blocking=True) on the framebuffer at a speed the tables
        accept: it always completes. */
    method UpdateBlocking()
      requires Valid() && speed <= 6
      modifies this, spi
      ensures speed == old(speed) && noFlickering == old(noFlickering) && fullUpdatePeriod == old(fullUpdatePeriod)
      ensures updateCount == old(updateCount) + 1
      ensures spi.log == old(spi.log) + UpdateWrites(rawFb[..], FullRefreshDue(fullUpdatePeriod, old(updateCount),
                                                                                noFlickering),
                                                     speed, noFlickering, reaffirmBlack, true)
    {
      var _ := Update(true, false, None);
    }

    /** The first half of update: the flickering tables when a full refresh
        is due, the image into the current image memory, and the refresh. */
    method SendRefresh(buf: array<bv8>, full: bool)
      modifies spi
      ensures spi.log == old(spi.log) + RefreshWrites(buf[..], full, speed, reaffirmBlack)
    {
      ghost var log0 := spi.log;
      if full {
        var _ := SetWaveformLut(spi, Min(2, speed), false, reaffirmBlack);
      }
      ghost var w := if full then WaveformWrites(Min(2, speed), false, reaffirmBlack) else [];
      SendImage(buf, false);
      Write(spi, CMD_DRF, NoData);
      Append3(log0, w, ImageWrites(buf[..], false), [Op(CMD_DRF)]);
    }

    /** The second half of update: after a full refresh, the driver's own
        tables again (refused above speed 6); power off when blocking. */
    method FinishUpdate(full: bool, blocking: bool) returns (o: Outcome<DriverError>)
      modifies spi
      ensures o.Fail? <==> full && speed > 6
      ensures o.Fail? ==> o.error == SpeedOutOfRange && spi.log == old(spi.log)
      ensures o.Pass? ==>
        spi.log == old(spi.log) + (if full then WaveformWrites(speed, noFlickering, reaffirmBlack) else [])
                   + (if blocking then [Op(CMD_POF)] else [])
    {
      ghost var log0 := spi.log;
      o := Pass;
      if full {
        o := SetWaveformLut(spi, speed, noFlickering, reaffirmBlack);
        if o.Fail? {
          return;
        }
      }
      ghost var w := if full then WaveformWrites(speed, noFlickering, reaffirmBlack) else [];
      assert spi.log == log0 + w;
      if blocking {
        WaitAndSwitchOff();
      } else {
        assert spi.log == log0 + w + [];
      }
    }

    /** fb.fill(0): every pixel of the framebuffer white. */
    method ClearFramebuffer()
      modifies rawFb
      ensures rawFb[..] == Blank(rawFb.Length)
    {
      forall i | 0 <= i < rawFb.Length {
        rawFb[i] := 0;
      }
    }

    /** The WW, BB, WB and BW tables of one greyscale pass, built in turn
        in the shared 42-byte buffer. */
    method WriteDriveLuts(lut: array<uint8>, greyscale: int, g: nat)
      requires greyscale > 1
      requires lut.Length == Waveform.LUT_SIZE && BlankTail(lut[..])
      modifies spi, lut
      ensures BlankTail(lut[..])
      ensures var t := Greyscale.GreyPassTables(greyscale, g);
        spi.log == old(spi.log) + [Frame(CMD_LUT_WW, Buffer(ToBus(t.ww))), Frame(CMD_LUT_BB, Buffer(ToBus(t.bb))),
                                   Frame(CMD_LUT_WB, Buffer(ToBus(t.wb))), Frame(CMD_LUT_BW, Buffer(ToBus(t.bw)))]
    {
      lut[0] := 0x55;
      lut[5] := 1;
      lut[1] := Waveform.Byte(Greyscale.GreyFrames(greyscale, g + 1));
      WriteTable(spi, CMD_LUT_WW, lut, 0x55, Greyscale.GreyFrames(greyscale, g + 1), 1);
      lut[1] := Waveform.Byte(Greyscale.GreyFrames(greyscale, g + 2));
      WriteTable(spi, CMD_LUT_BB, lut, 0x55, Greyscale.GreyFrames(greyscale, g + 2), 1);
      lut[1] := Waveform.Byte(Greyscale.GreyFrames(greyscale, g + 3));
      WriteTable(spi, CMD_LUT_WB, lut, 0x55, Greyscale.GreyFrames(greyscale, g + 3), 1);
      lut[1] := 0;
      lut[5] := 0;
      WriteTable(spi, CMD_LUT_BW, lut, 0x55, 0, 0);
    }

    /** The VCOM table of one greyscale pass: VCOM_DC for the pass's longest
        drive. */
    method WriteVcomLut(vcom: array<uint8>, greyscale: int, g: nat)
      requires greyscale > 1
      requires vcom.Length == Waveform.VCOM_LUT_SIZE && BlankTail(vcom[..])
      modifies spi, vcom
      ensures BlankTail(vcom[..])
      ensures spi.log == old(spi.log) + [Frame(CMD_LUT_VCOM, Buffer(ToBus(Greyscale.GreyPassTables(greyscale, g).vcom)))]
    {
      vcom[0] := 0;
      vcom[1] := Waveform.Byte(Greyscale.VcomFrames(greyscale, g + 3));
      vcom[5] := 1;
      WriteTable(spi, CMD_LUT_VCOM, vcom, 0, Greyscale.VcomFrames(greyscale, g + 3), 1);
    }

    /** The table writes of one greyscale pass through the shared buffers:
        WW, BB and WB drive towards black for their frame counts, BW drives
        nothing, and VCOM stays at VCOM_DC for the pass's longest drive. */
    method WriteGreyLuts(lut: array<uint8>, vcom: array<uint8>, greyscale: int, g: nat)
      requires greyscale > 1
      requires lut.Length == Waveform.LUT_SIZE && vcom.Length == Waveform.VCOM_LUT_SIZE
      requires BlankTail(lut[..]) && BlankTail(vcom[..])
      requires lut != vcom
      modifies spi, lut, vcom
      ensures BlankTail(lut[..]) && BlankTail(vcom[..])
      ensures spi.log == old(spi.log) + GreyLutWrites(Greyscale.GreyPassTables(greyscale, g))
    {
      WriteDriveLuts(lut, greyscale, g);
      WriteVcomLut(vcom, greyscale, g);
    }

    /** The sending half of a pass: the old mask, the pass's tables, then a
        blocking update with the new mask in the framebuffer. */
    method SendPass(greyscale: int, g: nat, fb2: array<bv8>, lut: array<uint8>, vcom: array<uint8>)
      requires Valid() && greyscale > 1
      requires lut.Length == Waveform.LUT_SIZE && vcom.Length == Waveform.VCOM_LUT_SIZE
      requires {fb2 as object, rawFb} !! {lut as object, vcom}
      requires BlankTail(lut[..]) && BlankTail(vcom[..])
      requires speed == GREY_SPEED && noFlickering
      modifies this, spi, lut, vcom
      ensures speed == GREY_SPEED && noFlickering && fullUpdatePeriod == old(fullUpdatePeriod)
      ensures BlankTail(lut[..]) && BlankTail(vcom[..])
      ensures updateCount == old(updateCount) + 1
      ensures spi.log == old(spi.log) + (ImageWrites(fb2[..], true) + GreyLutWrites(Greyscale.GreyPassTables(greyscale, g))
                                         + UpdateWrites(rawFb[..], FullRefreshDue(fullUpdatePeriod, old(updateCount), true),
                                                        speed, noFlickering, reaffirmBlack, true))
    {
      ghost var log0 := spi.log;
      SendPassImageAndTables(greyscale, g, fb2, lut, vcom);
      ghost var w := ImageWrites(fb2[..], true) + GreyLutWrites(Greyscale.GreyPassTables(greyscale, g));
      assert spi.log == log0 + w;
      UpdateBlocking();
      Append(log0, w, UpdateWrites(rawFb[..], FullRefreshDue(fullUpdatePeriod, old(updateCount), true), speed,
                                   noFlickering, reaffirmBlack, true));
    }

    /** The old mask into the previous image memory, then the pass's tables. */
    method SendPassImageAndTables(greyscale: int, g: nat, fb2: array<bv8>, lut: array<uint8>, vcom: array<uint8>)
      requires greyscale > 1
      requires lut.Length == Waveform.LUT_SIZE && vcom.Length == Waveform.VCOM_LUT_SIZE
      requires fb2 !in {lut as object, vcom} && lut != vcom
      requires BlankTail(lut[..]) && BlankTail(vcom[..])
      modifies spi, lut, vcom
      ensures BlankTail(lut[..]) && BlankTail(vcom[..])
      ensures fb2[..] == old(fb2[..])
      ensures spi.log == old(spi.log) + ImageWrites(fb2[..], true) + GreyLutWrites(Greyscale.GreyPassTables(greyscale, g))
    {
      SendImage(fb2, true);
      WriteGreyLuts(lut, vcom, greyscale, g);
    }

    /** One pass of update_greyscale's loop, for g = 3j: build both masks;
        when some pixel is at one of the pass's levels, send the old mask,
        the pass's tables, and update with the new mask. */
    method GreyscalePass(buffer: seq<uint8>, greyscale: int, shift: nat, fb2: array<bv8>,
                         lut: array<uint8>, vcom: array<uint8>, j: nat)
      requires Valid() && width * height <= |buffer| && Greyscale.GreyShift(greyscale) == Some(shift)
      requires fb2 != rawFb && fb2.Length == rawFb.Length
      requires lut.Length == Waveform.LUT_SIZE && vcom.Length == Waveform.VCOM_LUT_SIZE
      requires {fb2 as object, rawFb} !! {lut as object, vcom}
      requires BlankTail(lut[..]) && BlankTail(vcom[..])
      requires speed == GREY_SPEED && noFlickering
      modifies this, spi, rawFb, fb2, lut, vcom
      ensures speed == GREY_SPEED && noFlickering && fullUpdatePeriod == old(fullUpdatePeriod)
      ensures BlankTail(lut[..]) && BlankTail(vcom[..])
      ensures rawFb[..] == Greyscale.Mask(buffer, shift, 3 * j + 1, width * height, false)
      ensures j + 1 == Greyscale.NumPasses(greyscale) ==> rawFb[..] == Blank(rawFb.Length)
      ensures spi.log == old(spi.log) + PassWrites(buffer, greyscale, shift, width * height, fullUpdatePeriod,
                                                   reaffirmBlack, speed, j, old(updateCount))
      ensures updateCount ==
        old(updateCount) + if Greyscale.AnyPixel(buffer, shift, 3 * j + 1, width * height) then 1 else 0
    {
      var anyPixel := Greyscale.SetPixelsForGreyscale(buffer, rawFb, fb2, width, height, shift, 3 * j + 1);
      SendPassIfAny(anyPixel, greyscale, j, fb2, lut, vcom);
      LastMaskBlank(buffer, greyscale, width * height);
    }

    /** The pass sends only when some pixel is at one of its levels. */
    method SendPassIfAny(anyPixel: bool, greyscale: int, j: nat, fb2: array<bv8>, lut: array<uint8>,
                         vcom: array<uint8>)
      requires Valid() && greyscale > 1
      requires lut.Length == Waveform.LUT_SIZE && vcom.Length == Waveform.VCOM_LUT_SIZE
      requires {fb2 as object, rawFb} !! {lut as object, vcom}
      requires BlankTail(lut[..]) && BlankTail(vcom[..])
      requires speed == GREY_SPEED && noFlickering
      modifies this, spi, lut, vcom
      ensures speed == GREY_SPEED && noFlickering && fullUpdatePeriod == old(fullUpdatePeriod)
      ensures BlankTail(lut[..]) && BlankTail(vcom[..])
      ensures updateCount == old(updateCount) + if anyPixel then 1 else 0
      ensures spi.log == old(spi.log) +
        if !anyPixel then []
        else ImageWrites(fb2[..], true) + GreyLutWrites(Greyscale.GreyPassTables(greyscale, 3 * j))
             + UpdateWrites(rawFb[..], FullRefreshDue(fullUpdatePeriod, old(updateCount), true), speed, true,
                            reaffirmBlack, true)
    {
      if anyPixel {
        SendPass(greyscale, 3 * j, fb2, lut, vcom);
      } else {
        assert spi.log == old(spi.log) + [];
      }
    }

    /** GreyscalePass j, seen from the loop: the log grows from the
        commands of passes 0 .. j-1 to those of passes 0 .. j. */
    method NextPass(buffer: seq<uint8>, greyscale: int, shift: nat, fb2: array<bv8>,
                    lut: array<uint8>, vcom: array<uint8>, ghost log0: seq<Command>, j: nat)
      requires Valid() && width * height <= |buffer| && Greyscale.GreyShift(greyscale) == Some(shift)
      requires fb2 != rawFb && fb2.Length == rawFb.Length
      requires lut.Length == Waveform.LUT_SIZE && vcom.Length == Waveform.VCOM_LUT_SIZE
      requires {fb2 as object, rawFb} !! {lut as object, vcom}
      requires BlankTail(lut[..]) && BlankTail(vcom[..])
      requires speed == GREY_SPEED && noFlickering
      requires updateCount == CountBefore(buffer, shift, width * height, j)
      requires spi.log == log0 + PassesWrites(buffer, greyscale, shift, width * height, fullUpdatePeriod,
                                              reaffirmBlack, GREY_SPEED, j)
      modifies this, spi, rawFb, fb2, lut, vcom
      ensures speed == GREY_SPEED && noFlickering && fullUpdatePeriod == old(fullUpdatePeriod)
      ensures BlankTail(lut[..]) && BlankTail(vcom[..])
      ensures updateCount == CountBefore(buffer, shift, width * height, j + 1)
      ensures spi.log == log0 + PassesWrites(buffer, greyscale, shift, width * height, fullUpdatePeriod,
                                             reaffirmBlack, GREY_SPEED, j + 1)
      ensures j + 1 == Greyscale.NumPasses(greyscale) ==> rawFb[..] == Blank(rawFb.Length)
    {
      GreyscalePass(buffer, greyscale, shift, fb2, lut, vcom, j);
      PassesStep(log0, buffer, greyscale, shift, width * height, fullUpdatePeriod, reaffirmBlack, GREY_SPEED, j);
    }

    /** The passes of update_greyscale, with its three buffers: the 42-byte
        and 44-byte tables and the second mask, all zeroed. */
    method RunPasses(buffer: seq<uint8>, greyscale: int, shift: nat)
      requires Valid() && width * height <= |buffer| && Greyscale.GreyShift(greyscale) == Some(shift)
      requires speed == GREY_SPEED && noFlickering && updateCount == 1
      modifies this, spi, rawFb
      ensures speed == GREY_SPEED && noFlickering && fullUpdatePeriod == old(fullUpdatePeriod)
      ensures var n, k := width * height, Greyscale.NumPasses(greyscale);
        spi.log == old(spi.log) + PassesWrites(buffer, greyscale, shift, n, fullUpdatePeriod, reaffirmBlack, GREY_SPEED, k) &&
        rawFb[..] == Blank(rawFb.Length) &&
        updateCount == CountBefore(buffer, shift, n, k)
    {
      var lut := new uint8[Waveform.LUT_SIZE](_ => 0);
      var vcom := new uint8[Waveform.VCOM_LUT_SIZE](_ => 0);
      var fb2 := new bv8[rawFb.Length](_ => 0);
      PassLoop(buffer, greyscale, shift, fb2, lut, vcom);
    }

    /** The pass loop of update_greyscale: g = 0, 3, 6, ... below
        `greyscale`, one GreyscalePass each. */
    method PassLoop(buffer: seq<uint8>, greyscale: int, shift: nat, fb2: array<bv8>,
                    lut: array<uint8>, vcom: array<uint8>)
      requires Valid() && width * height <= |buffer| && Greyscale.GreyShift(greyscale) == Some(shift)
      requires fb2 != rawFb && fb2.Length == rawFb.Length
      requires lut.Length == Waveform.LUT_SIZE && vcom.Length == Waveform.VCOM_LUT_SIZE
      requires {fb2 as object, rawFb} !! {lut as object, vcom}
      requires BlankTail(lut[..]) && BlankTail(vcom[..])
      requires speed == GREY_SPEED && noFlickering && updateCount == 1
      modifies this, spi, rawFb, fb2, lut, vcom
      ensures speed == GREY_SPEED && noFlickering && fullUpdatePeriod == old(fullUpdatePeriod)
      ensures var n, k := width * height, Greyscale.NumPasses(greyscale);
        spi.log == old(spi.log) + PassesWrites(buffer, greyscale, shift, n, fullUpdatePeriod, reaffirmBlack, GREY_SPEED, k) &&
        rawFb[..] == Blank(rawFb.Length) &&
        updateCount == CountBefore(buffer, shift, n, k)
    {
      ghost var log0 := spi.log;
      var g, j := 0, 0;
      while g < greyscale
        invariant g == 3 * j && j <= Greyscale.NumPasses(greyscale)
        invariant speed == GREY_SPEED && noFlickering && fullUpdatePeriod == old(fullUpdatePeriod)
        invariant BlankTail(lut[..]) && BlankTail(vcom[..])
        invariant updateCount == CountBefore(buffer, shift, width * height, j)
        invariant spi.log == log0 + PassesWrites(buffer, greyscale, shift, width * height, fullUpdatePeriod,
                                                 reaffirmBlack, GREY_SPEED, j)
        invariant j == Greyscale.NumPasses(greyscale) ==> rawFb[..] == Blank(rawFb.Length)
      {
        NextPass(buffer, greyscale, shift, fb2, lut, vcom, log0, j);
        g, j := g + 3, j + 1;
      }
      LoopEndsAfterLastPass(greyscale, j);
    }

    /** The start of update_greyscale: speed 2 without flicker, a blank
        framebuffer, and a blocking update of it. */
    method EnterGreyscale()
      requires Valid()
      modifies this, spi, rawFb
      ensures speed == GREY_SPEED && noFlickering && fullUpdatePeriod == old(fullUpdatePeriod) && updateCount == 1
      ensures rawFb[..] == Blank(rawFb.Length)
      ensures spi.log == old(spi.log) + GreyscaleEntryWrites(width, height, mirrorX, mirrorY, fullUpdatePeriod,
                                                             reaffirmBlack)
    {
      ghost var log0 := spi.log;
      var _ := SetSpeed(GREY_SPEED, Some(true), None);
      ClearFramebuffer();
      UpdateBlocking();
      Append3(log0, [PsrCommand(width, height, GREY_SPEED, mirrorX, mirrorY)],
              WaveformWrites(GREY_SPEED, true, reaffirmBlack),
              UpdateWrites(Blank(width * height / 8), FullRefreshDue(fullUpdatePeriod, 0, true), GREY_SPEED, true,
                           reaffirmBlack, true));
    }

    /** The end of update_greyscale: restore the speed and flicker mode,
        and power off when that speed is accepted. */
    method ExitGreyscale(origSpeed: int, origNoFlickering: bool) returns (o: Outcome<DriverError>)
      requires Valid()
      modifies this, spi
      ensures speed == origSpeed && noFlickering == origNoFlickering && fullUpdatePeriod == old(fullUpdatePeriod)
      ensures (o.Pass? <==> origSpeed <= 6) && (o.Fail? ==> o.error == SpeedOutOfRange)
      ensures o.Pass? ==> updateCount == 0
      ensures o.Fail? ==> updateCount == old(updateCount)
      ensures spi.log == old(spi.log) + GreyscaleExitWrites(width, height, mirrorX, mirrorY, reaffirmBlack,
                                                            origSpeed, origNoFlickering)
    {
      ghost var log0 := spi.log;
      ghost var psr := [PsrCommand(width, height, origSpeed, mirrorX, mirrorY)];
      o := SetSpeed(origSpeed, Some(origNoFlickering), None);
      if o.Fail? {
        return;
      }
      WaitAndSwitchOff();
      Append3(log0, psr, WaveformWrites(origSpeed, origNoFlickering, reaffirmBlack), [Op(CMD_POF)]);
    }

    /** update_greyscale for a supported greyscale, whose shift is given. */
    method GreyscaleSequence(buffer: seq<uint8>, greyscale: int, shift: nat) returns (o: Outcome<DriverError>)
      requires Valid() && width * height <= |buffer|
      requires greyscale in {32, 16, 8, 4} && Greyscale.GreyShift(greyscale) == Some(shift)
      modifies this, spi, rawFb
      ensures spi.log == old(spi.log)
        + GreyscaleEntryWrites(width, height, mirrorX, mirrorY, fullUpdatePeriod, reaffirmBlack)
        + PassesWrites(buffer, greyscale, shift, width * height, fullUpdatePeriod, reaffirmBlack, GREY_SPEED,
                       Greyscale.NumPasses(greyscale))
        + GreyscaleExitWrites(width, height, mirrorX, mirrorY, reaffirmBlack, old(speed), old(noFlickering))
      ensures speed == old(speed) && noFlickering == old(noFlickering) && fullUpdatePeriod == old(fullUpdatePeriod)
      ensures rawFb[..] == Blank(rawFb.Length)
      ensures (o.Pass? <==> old(speed) <= 6) && (o.Fail? ==> o.error == SpeedOutOfRange)
      ensures o.Pass? ==> updateCount == 0
      ensures o.Fail? ==>
        updateCount == CountBefore(buffer, shift, width * height, Greyscale.NumPasses(greyscale))
    {
      var origSpeed, origNoFlickering := speed, noFlickering;
      EnterAndRunPasses(buffer, greyscale, shift);
      o := ExitGreyscale(origSpeed, origNoFlickering);
    }

    /** update_greyscale up to the restoring set_speed: speed 2 without
        flicker, a blank update, then every pass. */
    method EnterAndRunPasses(buffer: seq<uint8>, greyscale: int, shift: nat)
      requires Valid() && width * height <= |buffer|
      requires greyscale in {32, 16, 8, 4} && Greyscale.GreyShift(greyscale) == Some(shift)
      modifies this, spi, rawFb
      ensures speed == GREY_SPEED && noFlickering && fullUpdatePeriod == old(fullUpdatePeriod)
      ensures rawFb[..] == Blank(rawFb.Length)
      ensures updateCount == CountBefore(buffer, shift, width * height, Greyscale.NumPasses(greyscale))
      ensures spi.log == old(spi.log)
        + GreyscaleEntryWrites(width, height, mirrorX, mirrorY, fullUpdatePeriod, reaffirmBlack)
        + PassesWrites(buffer, greyscale, shift, width * height, fullUpdatePeriod, reaffirmBlack, GREY_SPEED,
                       Greyscale.NumPasses(greyscale))
    {
      EnterGreyscale();
      RunPasses(buffer, greyscale, shift);
    }

    /** update_greyscale: reject an unsupported greyscale; otherwise switch
        to speed 2 without flicker, blank the screen, run one pass per three
        grey levels, and restore the speed and flicker mode, powering off
        when the restored speed is accepted. */
    method UpdateGreyscale(buffer: seq<uint8>, greyscale: int) returns (o: Outcome<DriverError>)
      requires Valid() && width * height <= |buffer|
      modifies this, spi, rawFb
      ensures greyscale !in {32, 16, 8, 4} ==>
        o == Fail(UnsupportedGreyscale) && spi.log == old(spi.log) && rawFb[..] == old(rawFb[..]) &&
        speed == old(speed) && noFlickering == old(noFlickering) && updateCount == old(updateCount) &&
        fullUpdatePeriod == old(fullUpdatePeriod)
      ensures greyscale in {32, 16, 8, 4} ==>
        spi.log == old(spi.log) + GreyscaleWrites(buffer, greyscale, width, height, mirrorX, mirrorY,
                                                  old(fullUpdatePeriod), reaffirmBlack, old(speed),
                                                  old(noFlickering)) &&
        speed == old(speed) && noFlickering == old(noFlickering) && fullUpdatePeriod == old(fullUpdatePeriod) &&
        rawFb[..] == Blank(rawFb.Length) &&
        (o.Pass? <==> old(speed) <= 6) && (o.Fail? ==> o.error == SpeedOutOfRange) &&
        (o.Pass? ==> updateCount == 0) &&
        (o.Fail? ==> updateCount == CountBefore(buffer, Greyscale.GreyShift(greyscale).value, width * height,
                                                Greyscale.NumPasses(greyscale)))
    {
      var shift := Greyscale.GreyShift(greyscale);
      if shift.None? {
        return Fail(UnsupportedGreyscale);
      }
      ghost var log0 := spi.log;
      o := GreyscaleSequence(buffer, greyscale, shift.value);
      Panel.WholeBytes(width, height);
      Append3(log0, GreyscaleEntryWrites(width, height, mirrorX, mirrorY, fullUpdatePeriod, reaffirmBlack),
              PassesWrites(buffer, greyscale, shift.value, width * height, fullUpdatePeriod, reaffirmBlack, GREY_SPEED,
                           Greyscale.NumPasses(greyscale)),
              GreyscaleExitWrites(width, height, mirrorX, mirrorY, reaffirmBlack, old(speed), old(noFlickering)));
    }
  }
}
