/**
 The byte format of the local socket: little-endian 32-bit fields, requests from clients and
 replies to them.
 */
module Wire {
  import opened Framing

  type Byte = b: int | 0 <= b < 256

  type Int32 = i: int | -0x8000_0000 <= i < 0x8000_0000

  /** The bits of a C int read as an unsigned number. */
  function Unsigned(v: Int32): (u: int)
    ensures 0 <= u < 0x1_0000_0000
  {
    if v < 0 then v + 0x1_0000_0000 else v
  }

  /** The C int with the bits of an unsigned number. */
  function Signed(u: int): Int32
    requires 0 <= u < 0x1_0000_0000
  {
    if u < 0x8000_0000 then u else u - 0x1_0000_0000
  }

  function Le32(v: Int32): (b: seq<Byte>)
    ensures |b| == 4
  {
    var u := Unsigned(v);
    [u % 0x100, u / 0x100 % 0x100, u / 0x1_0000 % 0x100, u / 0x100_0000]
  }

  function FromLe32(b: seq<Byte>): Int32
    requires |b| == 4
  {
    Signed(Shifted(b[0], b[1], b[2], b[3]))
  }

  function Shifted(a: int, b: int, c: int, d: int): int {
    a + 0x100 * b + 0x1_0000 * c + 0x100_0000 * d
  }

  lemma SignedOfUnsigned(v: Int32)
    ensures Signed(Unsigned(v)) == v
  {
  }

  lemma UnsignedOfSigned(u: int)
    requires 0 <= u < 0x1_0000_0000
    ensures Unsigned(Signed(u)) == u
  {
  }

  lemma ReadWritten(v: Int32)
    ensures FromLe32(Le32(v)) == v
  {
    var u := Unsigned(v);
    var h := u / 0x100;
    assert u == u % 0x100 + 0x100 * h;
    var g := h / 0x100;
    assert h == h % 0x100 + 0x100 * g && g == u / 0x1_0000;
    assert g == g % 0x100 + 0x100 * (g / 0x100) && g / 0x100 == u / 0x100_0000;
    SignedOfUnsigned(v);
  }

  lemma WrittenRead(b: seq<Byte>)
    requires |b| == 4
    ensures Le32(FromLe32(b)) == b
  {
    var g: int, h: int, u: int := Shifted(b[2], b[3], 0, 0), Shifted(b[1], b[2], b[3], 0),
      Shifted(b[0], b[1], b[2], b[3]);
    UnsignedOfSigned(u);
    assert u / 0x100 == h && u % 0x100 == b[0];
    assert h / 0x100 == g && h % 0x100 == b[1];
    assert g / 0x100 == b[3] && g % 0x100 == b[2];
    assert u / 0x1_0000 == g && u / 0x100_0000 == b[3];
  }

  /** Field k of a message: the four bytes at 4 * k. */
  function Field(s: seq<Byte>, k: nat): Int32
    requires 4 * k + 4 <= |s|
  {
    FromLe32(s[4 * k..4 * k + 4])
  }

  // ---- a message as a list of fields ----

  function Fields(vs: seq<Int32>): (b: seq<Byte>)
    ensures |b| == 4 * |vs|
  {
    if vs == [] then [] else Le32(vs[0]) + Fields(vs[1..])
  }

  lemma {:induction false} FieldOfFields(vs: seq<Int32>, k: nat, tail: seq<Byte>)
    requires k < |vs|
    ensures Field(Fields(vs) + tail, k) == vs[k]
    decreases k
  {
    var s := Fields(vs) + tail;
    if k == 0 {
      assert s[0..4] == Le32(vs[0]);
      ReadWritten(vs[0]);
    } else {
      FieldOfFields(vs[1..], k - 1, tail);
      assert s[4 * k..4 * k + 4] == (Fields(vs[1..]) + tail)[4 * (k - 1)..4 * (k - 1) + 4];
    }
  }

  /** The bytes of a message are determined by its fields. */
  lemma {:induction false} FieldsOfBytes(vs: seq<Int32>, s: seq<Byte>)
    requires |s| == 4 * |vs|
    requires forall k :: 0 <= k < |vs| ==> Field(s, k) == vs[k]
    ensures s == Fields(vs)
    decreases |vs|
  {
    if vs != [] {
      WrittenRead(s[0..4]);
      assert Field(s, 0) == vs[0];
      forall k | 0 <= k < |vs| - 1
        ensures Field(s[4..], k) == vs[1..][k]
      {
        var j := k + 1;
        assert Field(s, j) == vs[j];
        assert s[4..][4 * k..4 * k + 4] == s[4 * j..4 * j + 4];
      }
      FieldsOfBytes(vs[1..], s[4..]);
      assert s == s[0..4] + s[4..];
    }
  }

  // ---- requests ----

  const MULT: Int32 := 1
  const CRC32: Int32 := 2

  datatype Request =
    | Mult(sequence: Int32, x: Int32, y: Int32)
    | Crc32(sequence: Int32, addr: Int32, format: Int32, width: Int32, height: Int32, strideBytes: Int32)

  function RequestFields(r: Request): (vs: seq<Int32>)
    ensures |vs| == if r.Mult? then 5 else 8
  {
    match r
    case Mult(sequence, x, y) => [MULT, 20, sequence, x, y]
    case Crc32(sequence, addr, format, width, height, strideBytes) =>
      [CRC32, 32, sequence, addr, format, width, height, strideBytes]
  }

  function Encode(r: Request): seq<Byte> {
    Fields(RequestFields(r))
  }

  function Decode(pdu: seq<Byte>): Decoded<Request>
    requires |pdu| >= HEADER_BYTES
  {
    var code := Field(pdu, 0);
    if code == MULT then
      if |pdu| < 20 then TooShort
      else Ask(Mult(Field(pdu, 2), Field(pdu, 3), Field(pdu, 4)))
    else if code == CRC32 then
      if |pdu| < 32 then TooShort
      else Ask(Crc32(Field(pdu, 2), Field(pdu, 3), Field(pdu, 4), Field(pdu, 5), Field(pdu, 6), Field(pdu, 7)))
    else Ignored
  }

  lemma RequestFieldsRead(r: Request, s: seq<Byte>)
    requires |s| >= |Encode(r)| && s[..|Encode(r)|] == Encode(r)
    ensures forall k :: 0 <= k < |RequestFields(r)| ==> Field(s, k) == RequestFields(r)[k]
  {
    var vs := RequestFields(r);
    assert s == Fields(vs) + s[|Encode(r)|..];
    forall k | 0 <= k < |vs|
      ensures Field(s, k) == vs[k]
    {
      FieldOfFields(vs, k, s[|Encode(r)|..]);
    }
  }

  /** The daemon recovers exactly the fields the client wrote. */
  lemma DecodeOfEncode(r: Request)
    ensures |Encode(r)| >= HEADER_BYTES && Decode(Encode(r)) == Ask(r)
  {
    RequestFieldsRead(r, Encode(r));
    var s, vs := Encode(r), RequestFields(r);
    assert Field(s, 0) == vs[0] && Field(s, 2) == vs[2] && Field(s, 3) == vs[3] && Field(s, 4) == vs[4];
    if r.Crc32? {
      assert Field(s, 5) == vs[5] && Field(s, 6) == vs[6] && Field(s, 7) == vs[7];
    }
  }

  /** A message of the exact size that asks for r, and says so in its size field, is r's encoding. */
  lemma EncodeOfDecode(pdu: seq<Byte>, r: Request)
    requires |pdu| >= HEADER_BYTES && Decode(pdu) == Ask(r)
    requires |pdu| == Field(pdu, 1) == if r.Mult? then 20 else 32
    ensures pdu == Encode(r)
  {
    FieldsOfBytes(RequestFields(r), pdu);
  }

  // ---- replies ----

  datatype Reply = Reply(code: Int32, sequence: Int32, value: Int32)

  function EncodeReply(r: Reply): (b: seq<Byte>)
    ensures |b| == 16
  {
    Fields([r.code, 16, r.sequence, r.value])
  }

  function DecodeReply(s: seq<Byte>): Reply
    requires |s| == 16
  {
    Reply(Field(s, 0), Field(s, 2), Field(s, 3))
  }

  lemma DecodeOfEncodeReply(r: Reply)
    ensures Field(EncodeReply(r), 1) == 16 && DecodeReply(EncodeReply(r)) == r
  {
    var vs := [r.code, 16, r.sequence, r.value];
    assert Fields(vs) + [] == Fields(vs);
    FieldOfFields(vs, 0, []);
    FieldOfFields(vs, 1, []);
    FieldOfFields(vs, 2, []);
    FieldOfFields(vs, 3, []);
  }

  // ---- the daemon's framing ----

  function SizeField(header: seq<Byte>): int {
    if |header| < HEADER_BYTES then 0 else Field(header, 1)
  }

  function DecodeAny(pdu: seq<Byte>): Decoded<Request> {
    if |pdu| < HEADER_BYTES then TooShort else Decode(pdu)
  }

  /** Messages from clients. */
  function Requests(): (f: Format<Byte, Request>) {
    Format(SizeField, DecodeAny)
  }

  function Encodings(rs: seq<Request>): (es: seq<seq<Byte>>)
    ensures |es| == |rs|
  {
    seq(|rs|, i requires 0 <= i < |rs| => Encode(rs[i]))
  }

  function EncodeAll(rs: seq<Request>): seq<Byte> {
    Flatten(Encodings(rs))
  }

  lemma EncodeAllConcat(a: seq<Request>, b: seq<Request>)
    ensures EncodeAll(a + b) == EncodeAll(a) + EncodeAll(b)
  {
    assert Encodings(a + b) == Encodings(a) + Encodings(b);
    FlattenConcat(Encodings(a), Encodings(b));
  }

  lemma EncodingIsWhole(r: Request)
    ensures Whole(Requests(), Encode(r)) && DecodeAny(Encode(r)) == Ask(r)
  {
    var s := Encode(r);
    RequestFieldsRead(r, s);
    assert Field(s, 1) == RequestFields(r)[1] == |s|;
    assert s[..HEADER_BYTES][4..8] == s[4..8];
    DecodeOfEncode(r);
  }

  /** The stream of well-formed requests parses into exactly those requests. */
  lemma {:induction false} ParseOfEncodeAll(rs: seq<Request>)
    ensures Parse(Requests(), EncodeAll(rs)) == Parsed(rs, [], false)
    decreases |rs|
  {
    if rs != [] {
      FirstRequest(rs, rs[0], rs[1..]);
      ParseOfEncodeAll(rs[1..]);
      assert [rs[0]] + rs[1..] == rs;
    }
  }

  lemma FirstRequest(rs: seq<Request>, r: Request, later: seq<Request>)
    requires rs != [] && r == rs[0] && later == rs[1..]
    ensures Parse(Requests(), EncodeAll(rs)) == Before([r], Parse(Requests(), EncodeAll(later)))
  {
    EncodingIsWhole(r);
    assert Encodings(rs)[1..] == Encodings(later);
    ParseWhole(Requests(), Encode(r), EncodeAll(later));
  }

  /** Client to daemon: however the bytes are cut, the daemon sees the requests as they were made. */
  lemma ClientRequestsArrive(rs: seq<Request>, offers: seq<nat>)
    requires |offers| >= |EncodeAll(rs)|
    ensures Receive(Requests(), [], EncodeAll(rs), offers) == Received(Parsed(rs, [], false), [])
  {
    ParseOfEncodeAll(rs);
    FragmentationIndependent(Requests(), EncodeAll(rs), offers, offers);
  }

  // ---- byte by byte ----

  /** The number four bytes spell, low byte first. */
  function Spelled(a: Byte, b: Byte, c: Byte, d: Byte): int {
    a + 0x100 * b + 0x1_0000 * c + 0x100_0000 * d
  }

  /** A field on the wire is its int modulo 2^32. */
  lemma FieldOnWire(s: seq<Byte>, k: nat)
    requires 4 * k + 4 <= |s|
    ensures (Field(s, k) - Spelled(s[4 * k], s[4 * k + 1], s[4 * k + 2], s[4 * k + 3])) % 0x1_0000_0000 == 0
  {
    var b := s[4 * k..4 * k + 4];
    assert b[0] == s[4 * k] && b[1] == s[4 * k + 1] && b[2] == s[4 * k + 2] && b[3] == s[4 * k + 3];
    SignedCongruent(Spelled(b[0], b[1], b[2], b[3]));
  }

  lemma SignedCongruent(u: int)
    requires 0 <= u < 0x1_0000_0000
    ensures (Signed(u) - u) % 0x1_0000_0000 == 0
  {
  }

  lemma IntOnWire(v: Int32)
    ensures var b := Le32(v); (v - Spelled(b[0], b[1], b[2], b[3])) % 0x1_0000_0000 == 0
  {
    ReadWritten(v);
    FieldOnWire(Le32(v), 0);
    assert Le32(v)[0..4] == Le32(v);
  }

  /** A request for a product, field by field. */
  lemma MultOnWire(sequence: Int32, x: Int32, y: Int32)
    ensures Encode(Mult(sequence, x, y)) == Le32(1) + Le32(20) + Le32(sequence) + Le32(x) + Le32(y)
  {
    FourFields(1, 20, sequence, x, [y]);
    OneField(y);
    assert [1, 20, sequence, x] + [y] == RequestFields(Mult(sequence, x, y));
  }

  /** A request for a checksum, field by field. */
  lemma Crc32OnWire(sequence: Int32, addr: Int32, format: Int32, width: Int32, height: Int32, strideBytes: Int32)
    ensures Encode(Crc32(sequence, addr, format, width, height, strideBytes))
         == Le32(2) + Le32(32) + Le32(sequence) + Le32(addr)
           + (Le32(format) + Le32(width) + Le32(height) + Le32(strideBytes))
  {
    FourFields(2, 32, sequence, addr, [format, width, height, strideBytes]);
    OnlyFourFields(format, width, height, strideBytes);
    assert [2, 32, sequence, addr] + [format, width, height, strideBytes]
        == RequestFields(Crc32(sequence, addr, format, width, height, strideBytes));
  }

  /** A reply, field by field. */
  lemma ReplyOnWire(r: Reply)
    ensures EncodeReply(r) == Le32(r.code) + Le32(16) + Le32(r.sequence) + Le32(r.value)
  {
    OnlyFourFields(r.code, 16, r.sequence, r.value);
  }

  lemma OnlyFourFields(a: Int32, b: Int32, c: Int32, d: Int32)
    ensures Fields([a, b, c, d]) == Le32(a) + Le32(b) + Le32(c) + Le32(d)
  {
    FourFields(a, b, c, d, []);
    assert [a, b, c, d] + [] == [a, b, c, d];
    assert Le32(a) + Le32(b) + Le32(c) + Le32(d) + Fields([]) == Le32(a) + Le32(b) + Le32(c) + Le32(d);
  }

  lemma OneField(a: Int32)
    ensures Fields([a]) == Le32(a)
  {
    assert [a][1..] == [];
  }

  lemma FourFields(a: Int32, b: Int32, c: Int32, d: Int32, rest: seq<Int32>)
    ensures Fields([a, b, c, d] + rest) == Le32(a) + Le32(b) + Le32(c) + Le32(d) + Fields(rest)
  {
    var more := [b, c, d] + rest;
    assert [a, b, c, d] + rest == [a] + more && more == [b] + ([c, d] + rest) && [c, d] + rest == [c] + ([d] + rest);
    FirstField(a, more);
    FirstField(b, [c, d] + rest);
    FirstField(c, [d] + rest);
    FirstField(d, rest);
    FourParts(Le32(a), Le32(b), Le32(c), Le32(d), Fields(rest));
  }

  lemma FourParts<T>(a: seq<T>, b: seq<T>, c: seq<T>, d: seq<T>, rest: seq<T>)
    ensures a + (b + (c + (d + rest))) == a + b + c + d + rest
  {
  }

  lemma FirstField(a: Int32, rest: seq<Int32>)
    ensures Fields([a] + rest) == Le32(a) + Fields(rest)
  {
    assert ([a] + rest)[1..] == rest;
  }

  // ---- what a stream spells, by number ----

  /** A whole message: at most 512 bytes, its own length in its second field, all fields of its kind there. */
  predicate WellFormed(pdu: seq<Byte>) {
    && 8 <= |pdu| <= 512 && Field(pdu, 1) == |pdu|
    && (Field(pdu, 0) == 1 ==> |pdu| >= 20) && (Field(pdu, 0) == 2 ==> |pdu| >= 32)
  }

  /** The request in it; messages of other kinds are passed over. */
  function RequestIn(pdu: seq<Byte>): seq<Request>
    requires WellFormed(pdu)
  {
    if Field(pdu, 0) == 1 then [Mult(Field(pdu, 2), Field(pdu, 3), Field(pdu, 4))]
    else if Field(pdu, 0) == 2 then
      [Crc32(Field(pdu, 2), Field(pdu, 3), Field(pdu, 4), Field(pdu, 5), Field(pdu, 6), Field(pdu, 7))]
    else []
  }

  function RequestsIn(pdus: seq<seq<Byte>>): seq<Request>
    requires forall j :: 0 <= j < |pdus| ==> WellFormed(pdus[j])
  {
    if pdus == [] then [] else RequestIn(pdus[0]) + RequestsIn(pdus[1..])
  }

  /** The stream starts with a message that has a wrong length, or is complete and lacks fields. */
  predicate Malformed(s: seq<Byte>) {
    |s| >= 8 &&
    var n := Field(s, 1);
    n < 8 || n > 512 || (n <= |s| && ((Field(s, 0) == 1 && n < 20) || (Field(s, 0) == 2 && n < 32)))
  }

  /** The stream starts with a message of which bytes are missing. */
  predicate Unfinished(s: seq<Byte>) {
    |s| < 8 || (8 <= Field(s, 1) <= 512 && |s| < Field(s, 1))
  }

  /** A stream is whole messages, whose requests are asked, and then an open message or one that is refused. */
  lemma {:induction false} ParseExact(s: seq<Byte>) returns (pdus: seq<seq<Byte>>)
    ensures forall j :: 0 <= j < |pdus| ==> WellFormed(pdus[j])
    ensures var t := Parse(Requests(), s);
      && s == Flatten(pdus) + t.rest && t.asked == RequestsIn(pdus)
      && (t.rejected <==> Malformed(t.rest)) && (!t.rejected ==> Unfinished(t.rest))
    decreases |s|
  {
    if Malformed(s) || Unfinished(s) {
      pdus := [];
      NothingParsed(s);
    } else {
      var n := Field(s, 1);
      var pdu, rest := s[..n], s[n..];
      FirstParsed(s, pdu, rest);
      var later := ParseExact(rest);
      pdus := [pdu] + later;
      Grows(s, pdu, rest, later, Parse(Requests(), rest), Parse(Requests(), s));
    }
  }

  lemma Grows(s: seq<Byte>, pdu: seq<Byte>, rest: seq<Byte>, later: seq<seq<Byte>>,
    t: Parsed<Byte, Request>, u: Parsed<Byte, Request>)
    requires WellFormed(pdu) && forall j :: 0 <= j < |later| ==> WellFormed(later[j])
    requires s == pdu + rest
    requires rest == Flatten(later) + t.rest && t.asked == RequestsIn(later) && u == Before(RequestIn(pdu), t)
    ensures s == Flatten([pdu] + later) + u.rest && u.asked == RequestsIn([pdu] + later)
  {
    OneMore(pdu, later, t.rest);
  }

  lemma OneMore(pdu: seq<Byte>, later: seq<seq<Byte>>, rest: seq<Byte>)
    requires WellFormed(pdu) && forall j :: 0 <= j < |later| ==> WellFormed(later[j])
    ensures Flatten([pdu] + later) + rest == pdu + (Flatten(later) + rest)
    ensures RequestsIn([pdu] + later) == RequestIn(pdu) + RequestsIn(later)
  {
    FlattenFirst(pdu, later, rest);
    assert ([pdu] + later)[1..] == later;
  }

  lemma FlattenFirst<T>(a: seq<T>, later: seq<seq<T>>, rest: seq<T>)
    ensures Flatten([a] + later) + rest == a + (Flatten(later) + rest)
  {
    assert ([a] + later)[1..] == later;
    assert (a + Flatten(later)) + rest == a + (Flatten(later) + rest);
  }

  lemma HeaderFields(s: seq<Byte>, n: nat)
    requires 8 <= n <= |s|
    ensures Field(s[..n], 0) == Field(s, 0) && Field(s[..n], 1) == Field(s, 1)
  {
    assert s[..n][0..4] == s[0..4] && s[..n][4..8] == s[4..8];
  }

  lemma NothingParsed(s: seq<Byte>)
    requires Malformed(s) || Unfinished(s)
    ensures Parse(Requests(), s) == Parsed([], s, Malformed(s))
  {
    if |s| >= 8 {
      HeaderFields(s, 8);
      var n := Field(s, 1);
      if 8 <= n <= |s| {
        HeaderFields(s, n);
      }
    }
  }

  lemma FirstParsed(s: seq<Byte>, pdu: seq<Byte>, rest: seq<Byte>)
    requires !Malformed(s) && !Unfinished(s) && pdu == s[..Field(s, 1)] && rest == s[Field(s, 1)..]
    ensures WellFormed(pdu) && |rest| < |s| && s == pdu + rest
    ensures Parse(Requests(), s) == Before(RequestIn(pdu), Parse(Requests(), rest))
  {
    HeaderFields(s, 8);
    HeaderFields(s, Field(s, 1));
  }
}
