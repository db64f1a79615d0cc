# UC8151 e-paper driver, modelled in Dafny

This project models the core of `uc8151.py`, a MicroPython driver for e-paper
panels built on the UC8151 (IL0373) controller. Apart from the busy line, the driver never reads back
from the controller, so everything it does is captured by what it writes to
the serial bus. The model takes the busy line as a boolean input of `Update`
and keeps the record of the writes: a `Bus` object holds a log of
`Command` records, one opcode plus the data bytes shipped with it, and
`Commands.Write` appends to it. Every operation is specified by the exact
command sequence it appends. The controller state that results is derived
from the log: the contents of a register are the data of the last write to
its opcode (`Commands.LastWrite`).

The modules follow the driver's structure:

- `Protocol`: opcodes, the `Command` record and the `Bus` log. It also models
  Python truthiness of the `data` argument, so an integer 0 or an empty buffer
  goes out as a bare opcode.
- `Panel`: the panel setting register (PSR) byte for the four supported
  resolutions.
- `Waveform`: the waveform lookup tables (LUTs).
  - The table layout: 7 rows of 6 bytes, a pattern byte of four 2-bit voltage
    codes, four frame counts and a repeat count.
  - `Synthesize`, the pure description of the five tables that
    `set_waveform_lut` computes for a speed. It differs from the source in
    one configuration, speed 1 with flicker reduction: there the source
    stores a frame count of 256 as 0 (see "## Findings"). The model uploads
    the corrected rows instead, and `WrittenTablesAtSpeedOne` states the
    bytes the source sends.
  - The imperative construction of those tables in fresh arrays, by
    `set_lut_row` and `clear_lut`.
  - A charge-balance measure, `Drive`: frames spent at drive-high or
    drive-low.
- `Commands`: the register writes of `set_panel_configuration`,
  `set_waveform_lut` and `initialize_display`, and the LUT registers they
  leave in force.
- `Greyscale`: the pixel classification behind the greyscale mode.
  - The packed 1-bit masks built by `set_pixels_for_greyscale`, proved bit by
    bit.
  - The per-pass tables and how many frames each grey value is driven towards
    black.
- `Driver`: the `UC8151` class, whose fields are the driver's mutable
  settings and framebuffer.
  - `update`, `set_speed`, `send_image`, `wait_and_switch_off` and
    `update_greyscale` as methods whose postconditions give the new state and
    the appended commands.
  - Lemmas about which tables each refresh runs with. A greyscale pass whose
    update is a due full refresh runs with the speed-2 flickering tables, not
    its grey tables. The per-value frame totals therefore hold when no pass
    is due (`GreyscaleFramesInForce`).

Python exceptions become `Failure`/`Fail` values carrying a `DriverError`. The
state changes made before the raise are kept, as in the source. For example,
`set_speed` with a speed above 6 has already stored the speed and written the
PSR byte when the table upload refuses it.

`set_lut_row` raises through a misspelt name (`valueError`) for a row above 6.
That is still an exception, so the model's `RowOutOfRange` failure is the same
observable behaviour.

`update` tests `update_count % full_update_period == 0`. Python's floored
modulo and Dafny's Euclidean one agree on whether the remainder is zero, so
`FullRefreshDue` needs no adjustment for a negative period.

## Model

| member | source | states |
|---|---|---|
| Protocol.Frame | uc8151.py:192-202 | a write sends the opcode; the data goes out only when truthy: an integer as one byte, a list or bytearray as its bytes |
| Commands.Write | uc8151.py:192-202 | one write appends exactly one command record to the bus log |
| Panel.ResolutionBits | uc8151.py:213-220 | the resolution bits occupy only the two top bits of the PSR byte |
| Panel.PanelConfiguration | uc8151.py:209-234 | fails with UnsupportedResolution exactly for a panel other than the four; otherwise the byte has format BW, booster on and no reset, LUT_REG iff speed is not 0, SHIFT_RIGHT iff not mirror_x, SCAN_UP iff not mirror_y, and the panel's resolution bits |
| Panel.ResolutionBitsInjective | uc8151.py:59-62 | distinct supported panels get distinct resolution bits |
| Panel.PanelConfigurationNonZero | uc8151.py:211 | the PSR byte is never 0, so it always travels with the opcode |
| Commands.SetPanelConfiguration | uc8151.py:209-236 | fails with nothing written exactly for an unsupported panel; otherwise appends one PSR write |
| Commands.LutWrites | uc8151.py:574-578 | the tables go out in the order VCOM, BW, WB, WW, BB |
| Commands.LutWritesLoad | uc8151.py:574-578 | after the five uploads their tables are in force, whatever was written before |
| Commands.WaveformLoads | uc8151.py:449-578 | after set_waveform_lut at speeds 1..6 the synthesized tables are in force |
| Commands.TablesStay | uc8151.py:654-689 | commands that write no LUT register keep the tables in force |
| Commands.SetWaveformLut | uc8151.py:449-578 | nothing is sent below speed 1; fails with SpeedOutOfRange and nothing sent exactly above 6; otherwise the five synthesized tables are sent, with the corrected BW and WB rows at speed 1 under flicker reduction |
| Commands.WriteTables | uc8151.py:574-578 | the five table arrays are sent in the source's order |
| Commands.InitializeDisplay | uc8151.py:238-318 | the full initialisation sequence; succeeds iff the speed is at most 6 and the panel is supported; each failure stops at the step that raises, with what was sent before it |
| Commands.InitTailEffect | uc8151.py:267-318 | the writes after the tables set PSR, keep the LUT registers and end with power off |
| Commands.InitLeavesConfigured | uc8151.py:238-318 | after initialisation PSR selects register LUTs iff the speed is not 0, the synthesized tables are in force at speeds 1..6, and the last command is power off |
| Commands.ZeroSettingsSentBare | uc8151.py:242-291 | the soft reset and the temperature-sensor setting are 0, so they are sent as bare opcodes |
| Waveform.PeriodHalvesPerStep | uc8151.py:489-494 | both periods are at least one frame, the half period is half the period, and each speed step halves both |
| Waveform.PeriodFormula | uc8151.py:489-494 | the listed periods equal max(64 / 2^(speed-1), 1) and max(32 / 2^(speed-1), 1) |
| Waveform.PeriodNonIncreasing | uc8151.py:489-494 | a faster speed never gets a longer period |
| Waveform.RowBytes | uc8151.py:611-617 | a row is the pattern, the four frame counts and the repeat count, each stored modulo 256 |
| Waveform.RowRoundTrip | uc8151.py:609-617 | reading a row back gives the phase when every count fits a byte |
| Waveform.WithRow | uc8151.py:611-617 | writing row r changes bytes 6r..6r+5 only |
| Waveform.TableNextRow | uc8151.py:506-541 | writing the next row of a table of phases gives the table of one more phase |
| Waveform.Synthesize | uc8151.py:500-564 | the five tables have sizes 44 and 42; WW and BB copy BW and WB in the low-speed flickering branch, where only rows 0-2 are used; under flicker reduction WW is empty and BB holds at most the re-affirmation row; the VCOM pattern is 0 in every row; at speed 1 under flicker reduction BW and WB hold the corrected rows |
| Waveform.VcomPatternsZero | uc8151.py:510-537 | VCOM stays at VCOM_DC: every row's pattern byte is 0 |
| Waveform.DriveTable | uc8151.py:609-624 | the drive of a table built from phases is the sum of the phases' drives; the zero rows add nothing |
| Waveform.FlickeringRowsNeutral | uc8151.py:506-522 | the three-phase BW and WB waveforms spend as long at drive-high as at drive-low |
| Waveform.FlickeringTablesNeutral | uc8151.py:506-527 | in the flickering branch all four pixel tables are charge-neutral |
| Waveform.HoldTablesNeutral | uc8151.py:528-557 | outside that branch WW and BB are charge-neutral unless the black re-affirmation is on |
| Waveform.ReaffirmBlackBiased | uc8151.py:563-564 | the re-affirmation row drives high for two frames and never low |
| Waveform.WrittenTargetPhaseLosesDrive | uc8151.py:536-539 | as written, speed 1 with flicker reduction stores 4 x 64 = 256 frames as 0, so BW and WB drive nothing |
| Waveform.TargetPhaseKeepsDriveTime | uc8151.py:536-539 | the corrected single-row phase drives its voltage for exactly 4 x period frames at every speed, and never the opposite one |
| Waveform.WrittenTablesAtSpeedOne | uc8151.py:536-539 | the BW and WB tables as written at speed 1 with flicker reduction start with rows 80 00 00 00 00 01 and 40 00 00 00 00 01, and neither drives at all |
| Waveform.CorrectedTablesAtSpeedOne | uc8151.py:536-539 | the synthesized BW and WB tables at that input split the drive over two 128-frame sub-phases, driving white (resp. black) for 256 frames and never the opposite voltage |
| Waveform.SetLutRow | uc8151.py:609-617 | fails with the table unchanged exactly for row > 6; otherwise replaces row r by the phase's bytes and nothing else |
| Waveform.ClearLut | uc8151.py:620-624 | every byte of the table becomes 0 |
| Waveform.SetRows | uc8151.py:506-541 | writing the phases row by row into a zeroed table gives the table of those phases |
| Waveform.SetNextRow | uc8151.py:609-617 | set_lut_row on row i extends the table of the first i phases to i + 1 |
| Waveform.NewTable | uc8151.py:481-485 | a fresh zeroed bytearray filled with the given rows |
| Waveform.SynthesizeTables | uc8151.py:481-564 | the five arrays built in place equal the synthesized tables, corrected rows included |
| Waveform.HoldTables | uc8151.py:526-564 | WW and BB are copied, written, cleared and re-affirmed into the tables Synthesize describes |
| Greyscale.GreyShift | uc8151.py:765-775 | a shift exists exactly for greyscale 32, 16, 8 or 4 |
| Greyscale.GreyShiftScales | uc8151.py:765-775 | greyscale x 2^shift = 256, so the shift spreads 0..255 evenly over the levels |
| Greyscale.ConvertedInRange | uc8151.py:726 | every inverted and shifted pixel value lies in 0..greyscale-1 |
| Greyscale.ChipSeesPixelClass | uc8151.py:727-738 | the old and new bits set for a class make the controller apply that class's table |
| Greyscale.MaskBit | uc8151.py:719-720 | pixel i of a mask is bit 7 - (i mod 8) of byte i / 8, and it is set iff the pixel's class puts it there |
| Greyscale.MaskFromPixels | uc8151.py:709-739 | a buffer that agrees with the mask pixel by pixel is the mask |
| Greyscale.SetBit | uc8151.py:719-738 | OR-ing in the pixel's bit sets that pixel and leaves every other pixel |
| Greyscale.SetPixelsForGreyscale | uc8151.py:709-739 | fb1 becomes the new-image mask and fb2 the old-image mask of the three levels; the result is true iff some pixel's value is level, level+1 or level+2 |
| Greyscale.GreyLutDrive | uc8151.py:812-823 | a grey table drives high for frames x repeats and never low |
| Greyscale.GreyFramesBounded | uc8151.py:814-827 | no frame count of a supported greyscale exceeds 64, and the darkest value gets exactly frames_to_black = 32 |
| Greyscale.GreyFramesIncrease | uc8151.py:814-818 | a darker value is driven strictly longer |
| Greyscale.PassCoverage | uc8151.py:796-799 | each value 1..greyscale-1 is driven in exactly one pass, pass (c-1)/3; white is never driven |
| Greyscale.PassTablesDrive | uc8151.py:812-829 | each table of a pass drives its class high for that class's frames and never low; BW drives nothing |
| Greyscale.GreyscaleFrames | uc8151.py:796-832 | when every pass refreshes with its own grey tables (no pass's update is a due full refresh: full_update_period 0 or greater than the number of passes, see Driver.GreyPassesNotFull), a pixel of value c is driven towards black for exactly GreyFrames(c) frames over all passes, and white pixels not at all |
| Greyscale.LastPassBlank | uc8151.py:796-799 | in the last pass no pixel is in the new image |
| Driver.UpdateOpcodes | uc8151.py:654-689 | an ordinary update powers on, sends the image to the current image memory, refreshes, and powers off only when blocking |
| Driver.FullRefreshTables | uc8151.py:660-667 | a forced full refresh runs with the flickering tables of speed min(2, speed) |
| Driver.FullRefreshRestores | uc8151.py:664-672 | after a full-refresh update the driver's own tables are back in force |
| Driver.PartialRefreshKeepsTables | uc8151.py:654-674 | an ordinary update refreshes with the tables already in force and leaves them |
| Driver.FullRefreshSpacing | uc8151.py:660-662 | after a due full refresh, none of the next period - 1 updates is one, and the one after them is |
| Driver.GreyLutWrites | uc8151.py:815-829 | a pass sends its tables in the order WW, BB, WB, BW, VCOM |
| Driver.GreyLutWritesLoad | uc8151.py:812-829 | after a pass's table writes its tables are in force |
| Driver.GreyPassTablesAtRefresh | uc8151.py:806-832 | a pass refreshes with its grey tables, unless its update is a due full refresh, which runs with the speed-2 flickering tables instead |
| Driver.GreyPassesNotFull | uc8151.py:660-662 | with a full-update period of 0 or longer than the number of passes, no pass is a full refresh |
| Driver.GreyPassesFullWithPeriodOne | uc8151.py:660-662 | with a full-update period of 1 every pass is a full refresh |
| Driver.PassWritesSplit | uc8151.py:796-832 | a pass that runs sends its old mask, its grey tables and the refresh of its new mask, then the driver's tables only if that refresh was a full one, then power off |
| Driver.PassRefreshInForce | uc8151.py:806-832 | at a pass's refresh command the tables in force are its grey tables, or the speed-2 flickering tables when its update is a due full refresh (uc8151.py:660-667) |
| Driver.GreyPassDriveInForce | uc8151.py:812-832 | a pass whose update is not a due full refresh drives a pixel of value c towards black only in c's own pass, for GreyFrames(c) frames, and never towards white |
| Driver.PassRefreshDriveNotFull | uc8151.py:796-832 | with full_update_period 0 or greater than the number of passes, the tables in force at pass j's refresh drive value c towards black only when j is c's pass, and never towards white |
| Driver.GreyscaleFramesInForce | uc8151.py:796-832 | with full_update_period 0 or greater than the number of passes, the tables actually in force at the passes' refreshes drive a pixel of value c towards black for GreyFrames(c) frames in all, and a white pixel not at all |
| Driver.GreyscaleNeverWhitensInForce | uc8151.py:796-832 | under the same condition, no pass's refresh drives any pixel towards white |
| Driver.CountBefore | uc8151.py:784-832 | before pass j the counter is between 1 and j + 1 |
| Driver.LastMaskBlank | uc8151.py:796-799 | the last pass leaves a blank new-image mask in the framebuffer |
| Driver.LoopEndsAfterLastPass | uc8151.py:796 | the loop over g = 0, 3, 6, ... stops after exactly NumPasses passes |
| Driver.WriteTable | uc8151.py:812-829 | a buffer zero outside row 0's pattern, first frame count and repeat count is sent as the single-row table |
| Driver.UC8151.constructor | uc8151.py:146-174 | stores the settings, a zeroed 1-bit framebuffer of width x height / 8 bytes, and a counter of 0 |
| Driver.UC8151.Create | uc8151.py:146-174 | __init__: succeeds iff the speed is at most 6 and the panel is supported; then the initialisation sequence has been sent and the driver holds the given settings; on failure the writes sent before the raise are stated |
| Driver.UC8151.SetPanelConfiguration | uc8151.py:209-236 | for a constructed driver, one PSR write with its settings |
| Driver.UC8151.SetSpeed | uc8151.py:583-591 | stores the options given and the speed, writes PSR, and uploads the tables; fails after the PSR write exactly above speed 6, and resets the counter only on success |
| Driver.UC8151.WaitAndSwitchOff | uc8151.py:640-642 | appends one power-off command |
| Driver.UC8151.SendImage | uc8151.py:682-689 | power on, partial mode off, the buffer into DTM1 if old else DTM2, end of data |
| Driver.UC8151.Update | uc8151.py:654-674 | returns false with nothing sent when not blocking and busy; a full refresh is due iff the period is not 0, divides the counter and flicker reduction is on; it runs with the speed-min(2, speed) tables and reloads the driver's own afterwards; fails after the refresh above speed 6; otherwise returns true and increments the counter |
| Driver.UC8151.UpdateBlocking | uc8151.py:654-674 | a blocking update of the framebuffer at speeds up to 6 always completes, with power off |
| Driver.UC8151.SendRefresh | uc8151.py:660-667 | the flickering tables when due, the image, and the refresh command |
| Driver.UC8151.FinishUpdate | uc8151.py:670-674 | after a full refresh the driver's own tables, refused above speed 6; then power off when blocking |
| Driver.UC8151.ClearFramebuffer | uc8151.py:783 | every framebuffer byte becomes 0 |
| Driver.UC8151.WriteDriveLuts | uc8151.py:812-823 | the WW, BB, WB and BW writes carry the pass's tables, built in turn in one shared buffer |
| Driver.UC8151.WriteVcomLut | uc8151.py:826-829 | the VCOM write carries the pass's VCOM table |
| Driver.UC8151.WriteGreyLuts | uc8151.py:812-829 | the five writes of a pass carry its tables in the source's order |
| Driver.UC8151.SendPassImageAndTables | uc8151.py:806-829 | the old mask into the previous image memory, then the pass's tables |
| Driver.UC8151.SendPass | uc8151.py:806-832 | old mask, tables, then a blocking update of the new mask, counted once |
| Driver.UC8151.SendPassIfAny | uc8151.py:800-832 | a pass with no pixel at its levels sends nothing and does not count |
| Driver.UC8151.GreyscalePass | uc8151.py:799-832 | the framebuffer holds the pass's new-image mask, which is blank in the last pass; the log grows by the pass's commands |
| Driver.UC8151.NextPass | uc8151.py:796-832 | one loop step extends the log and the counter from passes 0..j-1 to 0..j |
| Driver.UC8151.PassLoop | uc8151.py:796-832 | the loop sends the commands of all passes and leaves the framebuffer blank |
| Driver.UC8151.RunPasses | uc8151.py:788-832 | with zeroed table and mask buffers, all passes are sent |
| Driver.UC8151.EnterGreyscale | uc8151.py:779-784 | speed 2 with flicker reduction, a blank framebuffer and one blocking update of it |
| Driver.UC8151.ExitGreyscale | uc8151.py:835-836 | restores the speed and flicker mode; powers off iff the restored speed is accepted; the counter restarts on success and is kept on failure |
| Driver.UC8151.GreyscaleSequence | uc8151.py:779-836 | entry, all passes, then exit, with the original speed and flicker mode restored; the counter is 0 on success and the count the passes left on failure |
| Driver.UC8151.UpdateGreyscale | uc8151.py:764-836 | an unsupported greyscale fails with nothing changed; otherwise the whole greyscale command sequence is sent, the framebuffer ends blank, the speed, flicker mode and period are as before, and the counter is 0 on success and the count the passes left on failure |

## Left out

- Only integer speeds are modelled. The source also accepts fractional speeds
  such as 2.5, whose periods come from floating-point division.
- The model does not include the busy-line poll, the hardware reset pulse, the
  sleeps, or the chip-select and data/command pin toggling of each write,
  because none of them is a bus write. `update`'s busy test is a boolean
  parameter of `Driver.UC8151.Update`.
- The `framebuf.FrameBuffer` drawing object is left out. Only `fill(0)` on the
  raw framebuffer is modelled (`ClearFramebuffer`).
- The LUT dump under the debug flag (`show_lut`) is left out because it only
  prints.
- `set_handmade_lut`, a debugging alternative to the computed tables, is left
  out. It is never called by the driver.
- `load_greyscale_image` is left out because it is file I/O around
  `update_greyscale`.
- The demos, the `__main__` test program and the `png2gs8` converter are not
  part of this model.
- Waveform.Synthesize: at speed 1 with flicker reduction the BW and WB
  tables are the corrected two-sub-phase rows, not the rows the source
  uploads with a frame count of 0. The source's rows are stated by
  `WrittenTablesAtSpeedOne`.
- Waveform.SynthesizeTables: builds the corrected rows at that input, for
  the same reason.
- Commands.SetWaveformLut: uploads the corrected rows at that input, and so
  do the operations that call it (`Commands.InitializeDisplay`,
  `Driver.UC8151.Create`, `SetSpeed`, `Update`, `ExitGreyscale` and
  `UpdateGreyscale`).
- Greyscale.GreyFrames: the source computes `int(32 / (greyscale - 1) * n)` in
  floating point; the model uses the exact floor of 32n / (greyscale - 1)
  and does not model floating point. For the levels the passes use
  (n at most greyscale + 2, greyscale 32, 16, 8 or 4), rounding to binary32
  or binary64 gives that exact floor as well, so the two agree there.
- Greyscale.GreyscaleFrames: the per-pixel total is proved for passes that
  refresh with their own grey tables. With full_update_period between 1 and
  the number of passes, a pass whose update is a due full refresh refreshes
  with the speed-2 flickering tables instead (`Driver.GreyPassTablesAtRefresh`,
  `Driver.GreyPassesFullWithPeriodOne`), and no total is stated for that case.
- Greyscale.SetPixelsForGreyscale: requires the grey buffer to hold at least
  width x height pixels. The source reads it through a raw pointer without a
  bound check, so a shorter buffer reads memory past its end.
- Driver.UC8151.UpdateGreyscale: requires a grey buffer of at least
  width x height pixels, for the same reason.
- Driver.UC8151.SetPanelConfiguration: the resolution check cannot fail on a
  driver that was constructed. `Create` only succeeds for a supported panel
  and the dimensions never change, so the method promises success.
- Driver.UC8151.Update: `fb` is any byte array. Its contents go out as given
  and its length is not checked, as in the source.

## Findings

| source | as written | input that shows it | evidently intended | confidence | as-written member | corrected member |
|---|---|---|---|---|---|---|
| uc8151.py:536-539 | the single-row BW and WB phases use one frame count of `p*4`, stored in a bytearray | speed 1 with `no_flickering=True`: period 64, so 4 x 64 = 256 frames is stored as 0 and black-to-white and white-to-black pixels are never driven | drive the target colour for 4 x period frames at every speed, split into two sub-phases of 2 x period frames when 4 x period does not fit a byte | not executed | Waveform.WrittenTargetPhaseLosesDrive | Waveform.TargetPhaseKeepsDriveTime |
