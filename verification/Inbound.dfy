/**
 The half-received message of a client in its 512-byte buffer.
 */
module Inbound {
  import opened Framing
  import opened Wire
  import opened Streams
  import opened Daemon

  /** The buffer holds the bytes got of a message that is not complete yet. */
  ghost predicate Open(s: Stream, got: seq<Byte>)
    reads s, s.data
  {
    && s.data.Length == MAX_PDU_BYTES && s.p == |got| <= MAX_PDU_BYTES
    && s.data[..s.p] == got
    && Partial(Requests(), got)
    && (got != [] ==> s.end == Target(Requests(), got))
  }

  /** in_uint32_le within a message. */
  method NextField(s: Stream, ghost pdu: seq<Byte>, ghost k: nat) returns (v: Int32)
    requires s.p == 4 * k && 4 * k + 4 <= |pdu| <= s.data.Length && s.data[..|pdu|] == pdu
    modifies s`p
    ensures s.p == 4 * k + 4 && v == Field(pdu, k)
  {
    assert s.data[4 * k..4 * k + 4] == s.data[..|pdu|][4 * k..4 * k + 4];
    v := s.InUint32();
  }

  method ReadMult(s: Stream, ghost pdu: seq<Byte>) returns (d: Decoded<Request>)
    requires s.p == 8 && s.end == |pdu| <= s.data.Length && s.data[..|pdu|] == pdu
    modifies s`p
    ensures d == if |pdu| < 20 then TooShort else Ask(Mult(Field(pdu, 2), Field(pdu, 3), Field(pdu, 4)))
  {
    if !s.CheckRem(12) {
      return TooShort;
    }
    var sequence := NextField(s, pdu, 2);
    var x := NextField(s, pdu, 3);
    var y := NextField(s, pdu, 4);
    d := Ask(Mult(sequence, x, y));
  }

  method ReadCrc32(s: Stream, ghost pdu: seq<Byte>) returns (d: Decoded<Request>)
    requires s.p == 8 && s.end == |pdu| <= s.data.Length && s.data[..|pdu|] == pdu
    modifies s`p
    ensures d == if |pdu| < 32 then TooShort
      else Ask(Crc32(Field(pdu, 2), Field(pdu, 3), Field(pdu, 4), Field(pdu, 5), Field(pdu, 6), Field(pdu, 7)))
  {
    if !s.CheckRem(24) {
      return TooShort;
    }
    var sequence := NextField(s, pdu, 2);
    var addr := NextField(s, pdu, 3);
    var format := NextField(s, pdu, 4);
    var width := NextField(s, pdu, 5);
    var height := NextField(s, pdu, 6);
    var strideBytes := NextField(s, pdu, 7);
    d := Ask(Crc32(sequence, addr, format, width, height, strideBytes));
  }

  /** The fields of a complete message, as far as the call that sends them on. */
  method ReadRequest(s: Stream, ghost pdu: seq<Byte>) returns (d: Decoded<Request>)
    requires s.p == 0 && s.end == |pdu| <= s.data.Length && s.data[..|pdu|] == pdu && Whole(Requests(), pdu)
    modifies s`p
    ensures d == DecodeAny(pdu)
  {
    var code := NextField(s, pdu, 0);
    var bytes := NextField(s, pdu, 1);
    assert pdu[..HEADER_BYTES][4..8] == pdu[4..8];
    if bytes < HEADER_BYTES || !s.CheckRem(bytes - HEADER_BYTES) {
      return TooShort;
    }
    if code == MULT {
      d := ReadMult(s, pdu);
    } else if code == CRC32 {
      d := ReadCrc32(s, pdu);
    } else {
      d := Ignored;
    }
  }

  /** A new message starts by asking for its header; never more than the buffer holds, never nothing. */
  method WantedBytes(s: Stream, ghost got: seq<Byte>) returns (n: nat)
    requires Open(s, got)
    modifies s`end
    ensures Open(s, got) && s.end == Target(Requests(), got)
    ensures n == s.end - s.p && 1 <= n && s.p + n <= s.data.Length
  {
    if s.p == 0 {
      s.end := HEADER_BYTES;
    }
    n := s.end - s.p;
  }

  /** The readable branch of dspmain_peer_check_fds after recv, as far as the call that sends. */
  method Receive(s: Stream, chunk: seq<Byte>, ghost got: seq<Byte>) returns (rejected: bool, asked: seq<Request>)
    requires Open(s, got) && s.end == Target(Requests(), got) && 1 <= |chunk| <= s.end - s.p
    modifies s`p, s`end, s.data
    ensures var t := Take(Requests(), got, chunk);
      && rejected == t.rejected && asked == t.asked
      && (!rejected ==> Open(s, t.rest))
  {
    ghost var all := got + chunk;
    DeliverKeepsPartial(Requests(), got, chunk);
    if |got| >= HEADER_BYTES {
      SizeOfPrefix(Requests(), got, chunk);
    }
    s.Fill(chunk);
    if s.p < s.end {
      return false, [];
    }
    if s.p == HEADER_BYTES {
      var n := HeaderBytes(s, all);
      if n < HEADER_BYTES || n > s.data.Length {
        return true, [];
      }
      s.end := n;
    }
    assert s.data[..s.p] == all;
    if s.p < s.end {
      return false, [];
    }
    s.p := 0;
    var d := ReadRequest(s, all);
    s.p := 0;
    rejected, asked := d.TooShort?, if d.Ask? then [d.request] else [];
  }

  /** recv of what is wanted and has arrived, then Receive; nothing arrived is an error. */
  method ReadFrom(s: Stream, arrived: seq<Byte>, ghost got: seq<Byte>) returns (rejected: bool, asked: seq<Request>)
    requires Open(s, got)
    modifies s`p, s`end, s.data
    ensures var t := Reading(got, arrived);
      && rejected == t.rejected && asked == t.asked
      && (!rejected ==> Open(s, t.rest))
  {
    var n := WantedBytes(s, got);
    var chunk := Got(arrived, n);
    if chunk == [] {
      return true, [];
    }
    rejected, asked := Receive(s, chunk, got);
  }

  method HeaderBytes(s: Stream, ghost header: seq<Byte>) returns (n: Int32)
    requires s.p == HEADER_BYTES == |header| <= s.data.Length && s.data[..HEADER_BYTES] == header
    modifies s`p
    ensures s.p == HEADER_BYTES && n == Size(Requests(), header)
  {
    s.p := 0;
    s.p := s.p + 4;
    n := NextField(s, header, 1);
    assert header[..HEADER_BYTES] == header;
  }
}
