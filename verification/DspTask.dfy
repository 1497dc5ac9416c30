/**
 What the DSP's task does with one message: the product is filled in, or the checksum of the image in
 memory at that moment.
 */
module DspTask {
  import opened Memory
  import opened Edma
  import opened CrcService
  import opened Wire
  import opened Daemon

  type Snapshot = m: seq<bv8> | |m| == MEMORY_BYTES ghost witness seq(MEMORY_BYTES, _ => 0)

  /**
   What the answer to a checksum request depends on besides the request: the contents of memory, whether
   EDMA channels are granted and linked, and a number nobody knows for a request that makes
   process_dma_in do what it is not made for.
   */
  datatype Situation = Situation(mem: Snapshot, streams: bool, unknown: Int32)

  /** What a C int keeps of a product. */
  function Truncated(v: int): Int32 {
    (v + 0x8000_0000) % 0x1_0000_0000 - 0x8000_0000
  }

  /** z is the int with the low 32 bits of v. */
  predicate LowBitsOf(z: int, v: int) {
    -0x8000_0000 <= z < 0x8000_0000 && (z - v) % 0x1_0000_0000 == 0
  }

  /** The only such int, and v itself when v is an int. */
  lemma TruncatedExact(v: int, z: int)
    ensures LowBitsOf(z, v) <==> z == Truncated(v)
    ensures -0x8000_0000 <= v < 0x8000_0000 ==> Truncated(v) == v
  {
    var q := (v + 0x8000_0000) / 0x1_0000_0000;
    assert v + 0x8000_0000 == q * 0x1_0000_0000 + (v + 0x8000_0000) % 0x1_0000_0000;
    assert Truncated(v) - v == -q * 0x1_0000_0000;
    ModPeriodic(0, -q);
    if LowBitsOf(z, v) {
      var p := (z - v) / 0x1_0000_0000;
      assert z - v == p * 0x1_0000_0000;
      assert z - Truncated(v) == (p + q) * 0x1_0000_0000;
    }
  }

  /** The fields of a checksum request as unsigned numbers, but for format and stride. */
  function ImageOf(b: Body): Image
    requires b.Checksum?
  {
    Image(b.format, Unsigned(b.addr), Unsigned(b.width), Unsigned(b.height), b.strideBytes)
  }

  /** The checksum field after process_CRC32MSGSUBID. */
  function ComputedCrc(at: Situation, b: Body): Int32 {
    if !b.Checksum? then 0
    else if Streamable(ImageOf(b)) then ServiceAnswer(at.mem, ImageOf(b), b.crc, at.streams)
    else at.unknown
  }

  /** The message with its answer filled in. */
  function Answer(m: Message, crc: Int32): Message {
    match m.body
    case Product(x, y, _) => m.(body := Product(x, y, Truncated(x * y)))
    case Checksum(addr, format, width, height, strideBytes, _) =>
      m.(body := Checksum(addr, format, width, height, strideBytes, crc))
    case _ => m
  }

  /** The number the answer to a request carries. */
  function RightAnswer(at: Situation, b: Body): Int32 {
    match b
    case Product(x, y, _) => Truncated(x * y)
    case Checksum(_, _, _, _, _, _) => ComputedCrc(at, b)
    case _ => 0
  }

  /** The part of process_MSGQ_MYMSGID that works on products and checksums, with the engine behind it. */
  method Work(d: Dsp, m: Message, channelsGranted: bool, linkAccepted: bool, ghost at: Situation)
    returns (answer: Message)
    requires Placed(d) && !d.pending && !d.inFlight && d.sem == 0
    requires m.body.Product? || (m.body.Checksum? && Streamable(ImageOf(m.body)))
    requires at.mem == d.mem[..] && at.streams == (channelsGranted && linkAccepted)
    modifies d, d.mem
    ensures answer == Answer(m, ComputedCrc(at, m.body))
    ensures m.body.Product? ==> answer == m.(body := m.body.(z := answer.body.z))
    ensures m.body.Product? ==> LowBitsOf(answer.body.z, m.body.x * m.body.y)
    ensures !d.pending && !d.inFlight && d.sem == 0
  {
    answer := m;
    match m.body
    case Product(x, y, z) =>
      TruncatedExact(x * y, Truncated(x * y));
      answer := m.(body := m.body.(z := Truncated(x * y)));
    case Checksum(addr, format, width, height, strideBytes, crc) =>
      var crc32 := ProcessCrc32(d, ImageOf(m.body), crc, channelsGranted, linkAccepted);
      answer := m.(body := m.body.(crc := crc32));
  }
}
