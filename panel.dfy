/** The panel setting register (PSR): one byte OR-combined from the
    resolution class, the LUT source, the pixel format, the booster and
    reset bits, and the two mirroring flags. */
module Panel {
  import opened Wrappers

  const RES_96x230: bv8 := 0x00
  const RES_96x252: bv8 := 0x40
  const RES_128x296: bv8 := 0x80
  const RES_160x296: bv8 := 0xC0
  const RES_MASK: bv8 := 0xC0
  const LUT_OTP: bv8 := 0x00
  const LUT_REG: bv8 := 0x20
  const FORMAT_BW: bv8 := 0x10
  const SCAN_DOWN: bv8 := 0x00
  const SCAN_UP: bv8 := 0x08
  const SHIFT_LEFT: bv8 := 0x00
  const SHIFT_RIGHT: bv8 := 0x04
  const BOOSTER_ON: bv8 := 0x02
  const RESET_SOFT: bv8 := 0x00
  const RESET_NONE: bv8 := 0x01

  /** The four panels the controller supports. */
  predicate Supported(width: int, height: int)
  {
    (width == 96 && height == 230) || (width == 96 && height == 252) ||
    (width == 128 && height == 296) || (width == 160 && height == 296)
  }

  /** Every supported panel has a whole number of bytes of pixels. */
  lemma WholeBytes(width: int, height: int)
    requires Supported(width, height)
    ensures (width * height) % 8 == 0 && width * height > 0
  {
  }

  /** The resolution bits of a supported panel. */
  function ResolutionBits(width: int, height: int): (r: bv8)
    requires Supported(width, height)
    ensures r & !RES_MASK == 0
  {
    if width == 96 && height == 230 then RES_96x230
    else if width == 96 && height == 252 then RES_96x252
    else if width == 128 then RES_128x296
    else RES_160x296
  }

  /** The PSR byte for the driver's geometry, speed and mirroring, or
      `UnsupportedResolution` for any other width x height. */
  function PanelConfiguration(width: int, height: int, speed: int, mirrorX: bool, mirrorY: bool)
    : (r: Result<bv8, DriverError>)
    ensures r.Failure? <==> !Supported(width, height)
    ensures r.Failure? ==> r.error == UnsupportedResolution
    ensures r.Success? ==> r.value & (FORMAT_BW | BOOSTER_ON | RESET_NONE) == FORMAT_BW | BOOSTER_ON | RESET_NONE
    ensures r.Success? ==> (r.value & LUT_REG != 0 <==> speed != 0)
    ensures r.Success? ==> (r.value & SHIFT_RIGHT != 0 <==> !mirrorX)
    ensures r.Success? ==> (r.value & SCAN_UP != 0 <==> !mirrorY)
    ensures r.Success? ==> r.value & RES_MASK == ResolutionBits(width, height)
  {
    if !Supported(width, height) then Failure(UnsupportedResolution)
    else
      var psr := FORMAT_BW | BOOSTER_ON | RESET_NONE | ResolutionBits(width, height);
      var psr := psr | (if speed == 0 then LUT_OTP else LUT_REG);
      var psr := psr | (if mirrorX then SHIFT_LEFT else SHIFT_RIGHT);
      var psr := psr | (if mirrorY then SCAN_DOWN else SCAN_UP);
      Success(psr)
  }

  /** Distinct supported panels get distinct resolution bits, so the chip can
      tell the four classes apart from the PSR byte alone. */
  lemma ResolutionBitsInjective(w1: int, h1: int, w2: int, h2: int)
    requires Supported(w1, h1) && Supported(w2, h2)
    requires ResolutionBits(w1, h1) == ResolutionBits(w2, h2)
    ensures w1 == w2 && h1 == h2
  {
  }

  /** The PSR byte is never zero, so its data phase is always shipped. */
  lemma PanelConfigurationNonZero(width: int, height: int, speed: int, mirrorX: bool, mirrorY: bool)
    requires Supported(width, height)
    ensures PanelConfiguration(width, height, speed, mirrorX, mirrorY).value != 0
  {
  }
}
