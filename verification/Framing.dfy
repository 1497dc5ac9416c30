/**
 Cutting a byte stream into messages that carry their length in an 8-byte header: the receive state
 of one peer, and the one-shot parse that any sequence of receives amounts to.  What the header and
 the messages mean is a parameter.
 */
module Framing {

  const HEADER_BYTES := 8
  const MAX_PDU_BYTES := 512

  datatype Decoded<R> = Ask(request: R) | Ignored | TooShort

  /** How to read a length from a header and a request from a whole message. */
  datatype Format<!B, !R> = Format(size: seq<B> -> int, decode: seq<B> -> Decoded<R>)

  function Size<B, R>(f: Format<B, R>, s: seq<B>): int
    requires |s| >= HEADER_BYTES
  {
    f.size(s[..HEADER_BYTES])
  }

  // ---- the whole stream at once ----

  /** The requests in a stream, the bytes of the message still open, and whether a message was refused. */
  datatype Parsed<B, R> = Parsed(asked: seq<R>, rest: seq<B>, rejected: bool)

  function Before<B, R>(asked: seq<R>, t: Parsed<B, R>): Parsed<B, R> {
    t.(asked := asked + t.asked)
  }

  function Parse<B, R>(f: Format<B, R>, s: seq<B>): Parsed<B, R>
    decreases |s|
  {
    if |s| < HEADER_BYTES then Parsed([], s, false)
    else
      var n := Size(f, s);
      if n < HEADER_BYTES || n > MAX_PDU_BYTES then Parsed([], s, true)
      else if |s| < n then Parsed([], s, false)
      else
        match f.decode(s[..n])
        case TooShort => Parsed([], s, true)
        case Ignored => Parse(f, s[n..])
        case Ask(r) => Before([r], Parse(f, s[n..]))
  }

  lemma SizeOfPrefix<B, R>(f: Format<B, R>, a: seq<B>, b: seq<B>)
    requires |a| >= HEADER_BYTES
    ensures Size(f, a + b) == Size(f, a)
  {
    assert (a + b)[..HEADER_BYTES] == a[..HEADER_BYTES];
  }

  /** A complete message that says its own length. */
  predicate Whole<B, R>(f: Format<B, R>, pdu: seq<B>) {
    HEADER_BYTES <= |pdu| <= MAX_PDU_BYTES && Size(f, pdu) == |pdu|
  }

  lemma ParseWhole<B, R>(f: Format<B, R>, pdu: seq<B>, s: seq<B>)
    requires Whole(f, pdu)
    ensures f.decode(pdu).TooShort? ==> Parse(f, pdu + s) == Parsed([], pdu + s, true)
    ensures f.decode(pdu).Ignored? ==> Parse(f, pdu + s) == Parse(f, s)
    ensures f.decode(pdu).Ask? ==> Parse(f, pdu + s) == Before([f.decode(pdu).request], Parse(f, s))
  {
    SizeOfPrefix(f, pdu, s);
    assert (pdu + s)[..|pdu|] == pdu && (pdu + s)[|pdu|..] == s;
  }

  lemma BeforeBefore<B, R>(a: seq<R>, b: seq<R>, t: Parsed<B, R>)
    ensures Before(a, Before(b, t)) == Before(a + b, t)
  {
    assert a + (b + t.asked) == (a + b) + t.asked;
  }

  /** Parsing can stop anywhere and resume with the bytes left over. */
  lemma {:induction false} ParseAppend<B, R>(f: Format<B, R>, a: seq<B>, b: seq<B>)
    ensures !Parse(f, a).rejected ==> Parse(f, a + b) == Before(Parse(f, a).asked, Parse(f, Parse(f, a).rest + b))
    ensures Parse(f, a).rejected ==> Parse(f, a + b).rejected && Parse(f, a + b).asked == Parse(f, a).asked
    decreases |a|
  {
    if |a| >= HEADER_BYTES && HEADER_BYTES <= Size(f, a) <= MAX_PDU_BYTES && Size(f, a) <= |a| {
      var n := Size(f, a);
      var pdu, tail := a[..n], a[n..];
      assert a == pdu + tail;
      SizeOfPrefix(f, pdu, tail);
      assert a + b == pdu + (tail + b);
      ParseAppend(f, tail, b);
      ParseWhole(f, pdu, tail);
      ParseWhole(f, pdu, tail + b);
      if f.decode(pdu).Ask? && !Parse(f, tail).rejected {
        BeforeBefore([f.decode(pdu).request], Parse(f, tail).asked, Parse(f, Parse(f, tail).rest + b));
      }
    } else {
      if |a| >= HEADER_BYTES {
        SizeOfPrefix(f, a, b);
      }
      assert Before([], Parse(f, a + b)) == Parse(f, a + b);
    }
  }

  // ---- one receive at a time ----

  /** A message of which some bytes are still missing. */
  predicate Partial<B, R>(f: Format<B, R>, got: seq<B>) {
    || |got| < HEADER_BYTES
    || (HEADER_BYTES <= Size(f, got) <= MAX_PDU_BYTES && |got| < Size(f, got))
  }

  lemma PartialNotRejected<B, R>(f: Format<B, R>, got: seq<B>)
    requires Partial(f, got)
    ensures Parse(f, got) == Parsed([], got, false)
  {
  }

  /** The length at which the daemon looks at the message again. */
  function Target<B, R>(f: Format<B, R>, got: seq<B>): (n: nat)
    requires Partial(f, got)
    ensures |got| < n <= MAX_PDU_BYTES
  {
    if |got| < HEADER_BYTES then HEADER_BYTES else Size(f, got)
  }

  datatype Outcome<B> = Waiting(got: seq<B>) | Complete(pdu: seq<B>) | BadHeader

  /** The message so far, after another chunk. */
  function Deliver<B, R>(f: Format<B, R>, got: seq<B>, chunk: seq<B>): (o: Outcome<B>)
    requires Partial(f, got) && 1 <= |chunk| <= Target(f, got) - |got|
  {
    var all := got + chunk;
    if |all| < Target(f, got) then Waiting(all)
    else if |all| == HEADER_BYTES then
      var n := Size(f, all);
      if n < HEADER_BYTES || n > MAX_PDU_BYTES then BadHeader
      else if |all| < n then Waiting(all)
      else Complete(all)
    else Complete(all)
  }

  lemma DeliverKeepsPartial<B, R>(f: Format<B, R>, got: seq<B>, chunk: seq<B>)
    requires Partial(f, got) && 1 <= |chunk| <= Target(f, got) - |got|
    ensures var o := Deliver(f, got, chunk);
      && (o.Waiting? ==> o.got == got + chunk && Partial(f, o.got))
      && (o.Complete? ==> o.pdu == got + chunk && Whole(f, o.pdu))
  {
    if |got| >= HEADER_BYTES {
      SizeOfPrefix(f, got, chunk);
    }
  }

  /** What one receive makes the daemon do. */
  function Take<B, R>(f: Format<B, R>, got: seq<B>, chunk: seq<B>): (t: Parsed<B, R>)
    requires Partial(f, got) && 1 <= |chunk| <= Target(f, got) - |got|
    ensures !t.rejected ==> Partial(f, t.rest)
    ensures |t.asked| <= if t.rejected then 0 else 1
  {
    DeliverKeepsPartial(f, got, chunk);
    match Deliver(f, got, chunk)
    case Waiting(all) => Parsed([], all, false)
    case BadHeader => Parsed([], got + chunk, true)
    case Complete(pdu) =>
      match f.decode(pdu)
      case TooShort => Parsed([], got + chunk, true)
      case Ignored => Parsed([], [], false)
      case Ask(r) => Parsed([r], [], false)
  }

  lemma TakeIsParse<B, R>(f: Format<B, R>, got: seq<B>, chunk: seq<B>)
    requires Partial(f, got) && 1 <= |chunk| <= Target(f, got) - |got|
    ensures Take(f, got, chunk) == Parse(f, got + chunk)
  {
    var o := Deliver(f, got, chunk);
    DeliverKeepsPartial(f, got, chunk);
    if o.Waiting? {
      PartialNotRejected(f, o.got);
    } else if o.Complete? {
      ParseWhole(f, o.pdu, []);
      assert o.pdu + [] == o.pdu;
    }
  }

  // ---- any fragmentation ----

  /** The bytes the next recv returns: the socket offers some, the buffer asks for some, s are to come. */
  function Chunk<B, R>(f: Format<B, R>, got: seq<B>, s: seq<B>, offered: nat): (n: nat)
    requires Partial(f, got) && s != []
    ensures 1 <= n <= Target(f, got) - |got| && n <= |s|
  {
    var n := if offered + 1 < |s| then offered + 1 else |s|;
    if n < Target(f, got) - |got| then n else Target(f, got) - |got|
  }

  datatype Received<B, R> = Received(parsed: Parsed<B, R>, left: seq<B>)

  /** Receiving stream s in pieces, until it or the list of offers ends or the peer is rejected. */
  function Receive<B, R>(f: Format<B, R>, got: seq<B>, s: seq<B>, offers: seq<nat>): Received<B, R>
    requires Partial(f, got)
    decreases |offers|
  {
    if s == [] || offers == [] then Received(Parsed([], got, false), s)
    else
      var n := Chunk(f, got, s, offers[0]);
      var t := Take(f, got, s[..n]);
      if t.rejected then Received(t, s[n..])
      else
        var r := Receive(f, t.rest, s[n..], offers[1..]);
        r.(parsed := Before(t.asked, r.parsed))
  }

  lemma TakeThenParse<B, R>(f: Format<B, R>, got: seq<B>, chunk: seq<B>, more: seq<B>)
    requires Partial(f, got) && 1 <= |chunk| <= Target(f, got) - |got|
    requires !Take(f, got, chunk).rejected
    ensures Parse(f, got + (chunk + more))
      == Before(Take(f, got, chunk).asked, Parse(f, Take(f, got, chunk).rest + more))
  {
    TakeIsParse(f, got, chunk);
    assert got + (chunk + more) == (got + chunk) + more;
    ParseAppend(f, got + chunk, more);
  }

  /** What has been parsed of a stream grows by what one more receive makes of the open message. */
  lemma ParseThenTake<B, R>(f: Format<B, R>, heard: seq<B>, asked: seq<R>, got: seq<B>, chunk: seq<B>)
    requires Parse(f, heard) == Parsed(asked, got, false)
    requires Partial(f, got) && 1 <= |chunk| <= Target(f, got) - |got| && !Take(f, got, chunk).rejected
    ensures Parse(f, heard + chunk) == Parsed(asked + Take(f, got, chunk).asked, Take(f, got, chunk).rest, false)
  {
    TakeIsParse(f, got, chunk);
    ParseAppend(f, heard, chunk);
  }

  /** Any sequence of receives amounts to one parse of the bytes it read. */
  lemma {:induction false} ReceiveIsParse<B, R>(f: Format<B, R>, got: seq<B>, s: seq<B>, offers: seq<nat>)
    returns (read: seq<B>)
    requires Partial(f, got)
    ensures s == read + Receive(f, got, s, offers).left
    ensures Parse(f, got + read) == Receive(f, got, s, offers).parsed
    ensures |offers| >= |s| && !Receive(f, got, s, offers).parsed.rejected ==> read == s
    decreases |offers|
  {
    if s == [] || offers == [] {
      read := [];
      assert got + read == got;
      PartialNotRejected(f, got);
    } else {
      var n := Chunk(f, got, s, offers[0]);
      var chunk, tail := s[..n], s[n..];
      assert s == chunk + tail;
      var t := Take(f, got, chunk);
      if t.rejected {
        read := chunk;
        TakeIsParse(f, got, chunk);
      } else {
        var more := ReceiveIsParse(f, t.rest, tail, offers[1..]);
        read := chunk + more;
        assert s == read + Receive(f, t.rest, tail, offers[1..]).left;
        TakeThenParse(f, got, chunk, more);
      }
    }
  }

  /** A rejection comes with the very byte that makes it inevitable. */
  lemma {:induction false} RejectedAtOnce<B, R>(f: Format<B, R>, got: seq<B>, s: seq<B>, offers: seq<nat>,
    read: seq<B>, early: seq<B>)
    requires Partial(f, got)
    requires s == read + Receive(f, got, s, offers).left && early < read
    ensures !Parse(f, got + early).rejected
    decreases |offers|
  {
    if s != [] && offers != [] {
      var n := Chunk(f, got, s, offers[0]);
      var chunk, tail := s[..n], s[n..];
      if |early| < n {
        assert early < chunk;
        EarlyIsPartial(f, got, chunk, early);
      } else {
        var t := Take(f, got, chunk);
        if !t.rejected {
          assert early == chunk + early[n..];
          assert tail == read[n..] + Receive(f, t.rest, tail, offers[1..]).left;
          RejectedAtOnce(f, t.rest, tail, offers[1..], read[n..], early[n..]);
          TakeThenParse(f, got, chunk, early[n..]);
        }
      }
    }
  }

  lemma EarlyIsPartial<B, R>(f: Format<B, R>, got: seq<B>, chunk: seq<B>, early: seq<B>)
    requires Partial(f, got) && |chunk| <= Target(f, got) - |got| && early < chunk
    ensures !Parse(f, got + early).rejected
  {
    if |got| >= HEADER_BYTES {
      SizeOfPrefix(f, got, early);
    }
    PartialNotRejected(f, got + early);
  }

  /**
   However the stream of a client is cut by recv, the same requests come out, the same bytes are
   left of an open message, and a bad message is rejected at the same byte.
   */
  lemma FragmentationIndependent<B, R>(f: Format<B, R>, s: seq<B>, offers: seq<nat>, others: seq<nat>)
    requires |offers| >= |s| && |others| >= |s|
    ensures Receive(f, [], s, offers) == Receive(f, [], s, others)
    ensures Receive(f, [], s, offers).parsed.asked == Parse(f, s).asked
    ensures Receive(f, [], s, offers).parsed.rejected == Parse(f, s).rejected
    ensures !Parse(f, s).rejected ==> Receive(f, [], s, offers) == Received(Parse(f, s), [])
  {
    var a := ReceivedAll(f, s, offers);
    var b := ReceivedAll(f, s, others);
    assert a == s[..|a|] && b == s[..|b|];
    if |a| < |b| {
      SameCut(f, s, offers, others, a, b);
    } else if |b| < |a| {
      SameCut(f, s, others, offers, b, a);
    }
    assert a == b;
    SameSuffix(a, Receive(f, [], s, offers).left, Receive(f, [], s, others).left);
  }

  lemma SameCut<B, R>(f: Format<B, R>, s: seq<B>, offers: seq<nat>, others: seq<nat>, a: seq<B>, b: seq<B>)
    requires s == a + Receive(f, [], s, offers).left == b + Receive(f, [], s, others).left
    requires Parse(f, a).rejected
    ensures |a| >= |b|
  {
    if |a| < |b| {
      assert a == s[..|a|] && b == s[..|b|];
      assert [] + a == a;
      RejectedAtOnce(f, [], s, others, b, a);
    }
  }

  lemma SameSuffix<T>(r: seq<T>, a: seq<T>, b: seq<T>)
    requires r + a == r + b
    ensures a == b
  {
    assert (r + a)[|r|..] == a && (r + b)[|r|..] == b;
  }

  lemma ReceivedAll<B, R>(f: Format<B, R>, s: seq<B>, offers: seq<nat>) returns (read: seq<B>)
    requires |offers| >= |s|
    ensures s == read + Receive(f, [], s, offers).left
    ensures Receive(f, [], s, offers).parsed == Parse(f, read)
    ensures Parse(f, read).asked == Parse(f, s).asked && Parse(f, read).rejected == Parse(f, s).rejected
    ensures !Parse(f, s).rejected ==> read == s
  {
    read := ReceiveIsParse(f, [], s, offers);
    assert [] + read == read;
    ParseAppend(f, read, Receive(f, [], s, offers).left);
  }

  // ---- concatenation ----

  function Flatten<T>(ss: seq<seq<T>>): seq<T> {
    if ss == [] then [] else ss[0] + Flatten(ss[1..])
  }

  lemma {:induction false} FlattenConcat<T>(a: seq<seq<T>>, b: seq<seq<T>>)
    ensures Flatten(a + b) == Flatten(a) + Flatten(b)
    decreases |a|
  {
    if a == [] {
      assert a + b == b;
    } else {
      FlattenConcat(a[1..], b);
      assert (a + b)[1..] == a[1..] + b;
    }
  }
}
