/** The register protocol: every bus transaction is one `Command` record,
    an opcode byte followed by the data bytes that were shipped with it. */
module Protocol {

  /** A byte held as an integer (lookup tables, greyscale pixels). */
  type uint8 = x: int | 0 <= x < 256

  // Command opcodes of the UC8151 / IL0373 controller.
  const CMD_PSR: bv8 := 0x00
  const CMD_PWR: bv8 := 0x01
  const CMD_POF: bv8 := 0x02
  const CMD_PFS: bv8 := 0x03
  const CMD_PON: bv8 := 0x04
  const CMD_BTST: bv8 := 0x06
  const CMD_DTM1: bv8 := 0x10
  const CMD_DSP: bv8 := 0x11
  const CMD_DRF: bv8 := 0x12
  const CMD_DTM2: bv8 := 0x13
  const CMD_LUT_VCOM: bv8 := 0x20
  const CMD_LUT_WW: bv8 := 0x21
  const CMD_LUT_BW: bv8 := 0x22
  const CMD_LUT_WB: bv8 := 0x23
  const CMD_LUT_BB: bv8 := 0x24
  const CMD_PLL: bv8 := 0x30
  const CMD_TSE: bv8 := 0x41
  const CMD_CDI: bv8 := 0x50
  const CMD_TCON: bv8 := 0x60
  const CMD_PTOU: bv8 := 0x92

  /** The bytes of an integer buffer as they travel on the bus. */
  function ToBus(t: seq<uint8>): (b: seq<bv8>)
    ensures |b| == |t|
  {
    seq(|t|, i requires 0 <= i < |t| => t[i] as bv8)
  }

  /** One transaction as it appears on the bus. */
  datatype Command = Command(opcode: bv8, data: seq<bv8>)

  /** The `data` argument of the driver's write: absent, a single integer,
      or a byte buffer (a list is converted to bytes first). */
  datatype Payload = NoData | Scalar(b: bv8) | Buffer(bytes: seq<bv8>)

  /** Python truthiness of the payload: the data phase is sent only for a
      truthy argument, so an integer 0 and an empty buffer are never sent. */
  predicate Truthy(p: Payload)
  {
    match p
    case NoData => false
    case Scalar(b) => b != 0
    case Buffer(bs) => |bs| > 0
  }

  /** The record one write produces. */
  function Frame(cmd: bv8, p: Payload): (c: Command)
    ensures c.opcode == cmd
    ensures c.data == [] <==> !Truthy(p)
    ensures p.Scalar? && p.b != 0 ==> c.data == [p.b]
    ensures p.Buffer? ==> c.data == p.bytes
  {
    if !Truthy(p) then Command(cmd, [])
    else match p
      case Scalar(b) => Command(cmd, [b])
      case Buffer(bs) => Command(cmd, bs)
  }

  /** A command with no data phase. */
  function Op(cmd: bv8): Command { Frame(cmd, NoData) }

  /** The opcodes of a command sequence, in order. */
  function Opcodes(cmds: seq<Command>): (ops: seq<bv8>)
    ensures |ops| == |cmds|
    ensures forall i :: 0 <= i < |cmds| ==> ops[i] == cmds[i].opcode
  {
    if cmds == [] then [] else [cmds[0].opcode] + Opcodes(cmds[1..])
  }

  /** The serial bus, seen as the log of every transaction written to it. */
  class Bus {
    var log: seq<Command>

    constructor ()
      ensures log == []
    {
      log := [];
    }
  }
}
