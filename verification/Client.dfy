/**
 The client library: requests are encoded into a 1024-byte buffer and flushed when it is full; replies
 are drained until that of a given cookie.
 */
module Client {
  import opened Framing
  import opened Wire
  import opened Streams

  const BUFFER_BYTES := 1024

  // ---- draining replies ----

  datatype Option<T> = None | Some(value: T)

  /** The value found, if any, and the bytes of the socket not read. */
  datatype Drained = Drained(value: Option<Int32>, rest: seq<Byte>)

  /** Up to n bytes from the front; the rest. */
  function Left(s: seq<Byte>, n: nat): seq<Byte> {
    if |s| < n then [] else s[n..]
  }

  /** What dspmain_mult_result makes of the bytes on the socket. */
  function DrainMult(s: seq<Byte>, cookie: Int32): Drained
    decreases |s|
  {
    if |s| < 8 || Field(s, 0) != MULT || Field(s, 1) != 16 then Drained(None, Left(s, 8))
    else if |s| < 16 || Field(s, 2) > cookie then Drained(None, Left(s, 16))
    else if Field(s, 2) < cookie then DrainMult(s[16..], cookie)
    else Drained(Some(Field(s, 3)), s[16..])
  }

  /** What dspmain_crc32_result makes of them: it skips one reply and then looks for products. */
  function DrainCrc32(s: seq<Byte>, cookie: Int32): Drained {
    if |s| < 8 || Field(s, 0) != CRC32 || Field(s, 1) != 16 then Drained(None, Left(s, 8))
    else if |s| < 16 || Field(s, 2) > cookie then Drained(None, Left(s, 16))
    else if Field(s, 2) < cookie then DrainMult(s[16..], cookie)
    else Drained(Some(Field(s, 3)), s[16..])
  }

  function EncodeReplies(rs: seq<Reply>): seq<Byte> {
    if rs == [] then [] else EncodeReply(rs[0]) + EncodeReplies(rs[1..])
  }

  lemma FirstReply(rs: seq<Reply>, tail: seq<Byte>)
    requires rs != []
    ensures var s := EncodeReplies(rs) + tail;
      && |s| >= 16 && s[16..] == EncodeReplies(rs[1..]) + tail
      && Field(s, 0) == rs[0].code && Field(s, 1) == 16 && Field(s, 2) == rs[0].sequence && Field(s, 3) == rs[0].value
  {
    var vs, rest := [rs[0].code, 16, rs[0].sequence, rs[0].value], EncodeReplies(rs[1..]) + tail;
    assert EncodeReplies(rs) + tail == Fields(vs) + rest;
    FieldOfFields(vs, 0, rest);
    FieldOfFields(vs, 1, rest);
    FieldOfFields(vs, 2, rest);
    FieldOfFields(vs, 3, rest);
  }

  predicate AllCode(rs: seq<Reply>, code: Int32) {
    forall k :: 0 <= k < |rs| ==> rs[k].code == code
  }

  /** Reply i is the cookie's own; all before it are older; none up to it is anything but a product. */
  predicate Found(rs: seq<Reply>, cookie: Int32, i: nat) {
    && i < |rs| && rs[i].sequence == cookie
    && (forall k :: 0 <= k < i ==> rs[k].sequence < cookie)
    && (forall k :: 0 <= k <= i ==> rs[k].code == MULT)
  }

  /** Such a reply's value is returned and everything behind it, whole replies or not, stays unread. */
  lemma {:induction false} MultResultFound(rs: seq<Reply>, cookie: Int32, i: nat, tail: seq<Byte>)
    requires Found(rs, cookie, i)
    ensures DrainMult(EncodeReplies(rs) + tail, cookie) == Drained(Some(rs[i].value), EncodeReplies(rs[i + 1..]) + tail)
    decreases |rs|
  {
    FirstReply(rs, tail);
    if i > 0 {
      var later := rs[1..];
      assert forall k :: 0 <= k <= i - 1 ==> later[k] == rs[k + 1];
      MultResultFound(later, cookie, i - 1, tail);
      assert later[i..] == rs[i + 1..];
    }
  }

  /** There is no other way for the call to succeed. */
  lemma {:induction false} MultResultOnlyIf(rs: seq<Reply>, cookie: Int32) returns (i: nat)
    requires DrainMult(EncodeReplies(rs), cookie).value.Some?
    ensures Found(rs, cookie, i)
    decreases |rs|
  {
    if rs == [] {
      assert false;
    }
    FirstReply(rs, []);
    NoTail(rs);
    NoTail(rs[1..]);
    if rs[0].sequence == cookie {
      i := 0;
    } else {
      var j := MultResultOnlyIf(rs[1..], cookie);
      i := j + 1;
      assert forall k :: 1 <= k <= i ==> rs[k] == rs[1..][k - 1];
    }
  }

  lemma NoTail(rs: seq<Reply>)
    ensures EncodeReplies(rs) + [] == EncodeReplies(rs)
  {
  }

  /** The call succeeds exactly when there is such a reply. */
  lemma MultResultExact(rs: seq<Reply>, cookie: Int32)
    ensures DrainMult(EncodeReplies(rs), cookie).value.Some? <==> exists i :: Found(rs, cookie, i)
  {
    if DrainMult(EncodeReplies(rs), cookie).value.Some? {
      var i := MultResultOnlyIf(rs, cookie);
    } else if i :| Found(rs, cookie, i) {
      MultResultFound(rs, cookie, i, []);
      NoTail(rs);
    }
  }

  lemma {:induction false} EncodeRepliesAppend(rs: seq<Reply>, r: Reply)
    ensures EncodeReplies(rs + [r]) == EncodeReplies(rs) + EncodeReply(r)
    decreases |rs|
  {
    if rs == [] {
      assert [r][1..] == [] && [] + [r] == [r];
    } else {
      EncodeRepliesAppend(rs[1..], r);
      assert (rs + [r])[0] == rs[0] && (rs + [r])[1..] == rs[1..] + [r];
      Assoc(EncodeReply(rs[0]), EncodeReplies(rs[1..]), EncodeReply(r));
    }
  }

  lemma Assoc<T>(a: seq<T>, b: seq<T>, c: seq<T>)
    ensures (a + b) + c == a + (b + c)
  {
  }

  /**
   Asking for a checksum succeeds exactly when a checksum comes first, and either it is the cookie's
   own, or it is older and behind it dspmain_mult_result would succeed.
   */
  lemma Crc32ResultExact(rs: seq<Reply>, cookie: Int32)
    ensures DrainCrc32(EncodeReplies(rs), cookie).value.Some? <==>
      && rs != [] && rs[0].code == CRC32
      && (rs[0].sequence == cookie || (rs[0].sequence < cookie && exists i :: Found(rs[1..], cookie, i)))
    ensures rs != [] && rs[0].code == CRC32 && rs[0].sequence == cookie ==>
      DrainCrc32(EncodeReplies(rs), cookie) == Drained(Some(rs[0].value), EncodeReplies(rs[1..]))
  {
    if rs != [] {
      FirstReply(rs, []);
      NoTail(rs);
      NoTail(rs[1..]);
      MultResultExact(rs[1..], cookie);
    }
  }

  /** On checksums alone it works exactly when no older reply is waiting. */
  lemma Crc32AloneExact(rs: seq<Reply>, cookie: Int32)
    requires AllCode(rs, CRC32)
    ensures DrainCrc32(EncodeReplies(rs), cookie).value.Some? <==> rs != [] && rs[0].sequence == cookie
  {
    Crc32ResultExact(rs, cookie);
    if rs != [] {
      NoProducts(rs[1..], cookie);
    }
  }

  lemma NoProducts(rs: seq<Reply>, cookie: Int32)
    requires AllCode(rs, CRC32)
    ensures forall i :: !Found(rs, cookie, i)
  {
    forall i: nat
      ensures !Found(rs, cookie, i)
    {
      assert i < |rs| ==> rs[i].code == CRC32;
    }
  }

  /** Two checksums asked for in a row: the second cannot be had without taking the first. */
  lemma SecondChecksumMissed(a: Int32, b: Int32)
    ensures DrainCrc32(EncodeReplies([Reply(CRC32, 0, a), Reply(CRC32, 1, b)]), 1).value == None
    ensures DrainMult(EncodeReplies([Reply(MULT, 0, a), Reply(MULT, 1, b)]), 1).value == Some(b)
  {
    Crc32AloneExact([Reply(CRC32, 0, a), Reply(CRC32, 1, b)], 1);
    var rs := [Reply(MULT, 0, a), Reply(MULT, 1, b)];
    MultResultFound(rs, 1, 1, []);
    NoTail(rs);
  }

  /**
   What a failing call has read.  A reply of the other kind is left half read, so that the stream is out of
   step from then on; a reply to a later request is gone.
   */
  lemma FailedCallLeaves(rs: seq<Reply>, cookie: Int32, tail: seq<Byte>)
    requires rs != []
    ensures var s := EncodeReplies(rs) + tail;
      && (rs[0].code != 1 ==> DrainMult(s, cookie) == Drained(None, s[8..]))
      && (rs[0].code != 2 ==> DrainCrc32(s, cookie) == Drained(None, s[8..]))
    ensures var s, later := EncodeReplies(rs) + tail, EncodeReplies(rs[1..]) + tail;
      && (rs[0].code == 1 && rs[0].sequence > cookie ==> DrainMult(s, cookie) == Drained(None, later))
      && (rs[0].code == 2 && rs[0].sequence > cookie ==> DrainCrc32(s, cookie) == Drained(None, later))
  {
    FirstReply(rs, tail);
  }

  /** A call fails on less than a whole reply, on another kind of reply and on one of another size. */
  lemma RefusedReply(s: seq<Byte>, cookie: Int32)
    ensures |s| < 16 || Field(s, 1) != 16 ==> DrainMult(s, cookie).value == None && DrainCrc32(s, cookie).value == None
    ensures |s| < 16 || Field(s, 0) != 1 ==> DrainMult(s, cookie).value == None
    ensures |s| < 16 || Field(s, 0) != 2 ==> DrainCrc32(s, cookie).value == None
  {
  }

  // ---- one call after another ----

  datatype Call = ForMult(cookie: Int32) | ForCrc32(cookie: Int32)

  function Drain(s: seq<Byte>, c: Call): Drained {
    match c
    case ForMult(cookie) => DrainMult(s, cookie)
    case ForCrc32(cookie) => DrainCrc32(s, cookie)
  }

  /** What each of several calls returns, every one reading on where the one before stopped. */
  function DrainCalls(s: seq<Byte>, calls: seq<Call>): (values: seq<Option<Int32>>)
    ensures |values| == |calls|
    decreases |calls|
  {
    if calls == [] then []
    else
      var d := Drain(s, calls[0]);
      [d.value] + DrainCalls(d.rest, calls[1..])
  }

  function CallsForMult(cookies: seq<Int32>): (calls: seq<Call>)
    ensures |calls| == |cookies|
  {
    seq(|cookies|, j requires 0 <= j < |cookies| => ForMult(cookies[j]))
  }

  predicate Ascending(cookies: seq<Int32>) {
    forall j, k :: 0 <= j < k < |cookies| ==> cookies[j] < cookies[k]
  }

  predicate InOrderOfNumber(rs: seq<Reply>) {
    forall j, k :: 0 <= j < k < |rs| ==> rs[j].sequence < rs[k].sequence
  }

  /** Some reply carries the cookie. */
  predicate Has(rs: seq<Reply>, cookie: Int32) {
    exists i :: 0 <= i < |rs| && rs[i].sequence == cookie
  }

  /** Each value is that of the reply with the cookie. */
  predicate Served(rs: seq<Reply>, cookies: seq<Int32>, values: seq<Option<Int32>>) {
    && |values| == |cookies|
    && forall j, i :: 0 <= j < |cookies| && 0 <= i < |rs| && rs[i].sequence == cookies[j] ==>
      values[j] == Some(rs[i].value)
  }

  /**
   Among products numbered in ascending order, calls for any ascending cookies that are there, one
   after the other and with or without gaps, each return the cookie's own value.
   */
  lemma {:induction false} ProductsInTurn(rs: seq<Reply>, cookies: seq<Int32>, tail: seq<Byte>)
    requires AllCode(rs, MULT) && InOrderOfNumber(rs) && Ascending(cookies)
    requires forall j :: 0 <= j < |cookies| ==> Has(rs, cookies[j])
    ensures Served(rs, cookies, DrainCalls(EncodeReplies(rs) + tail, CallsForMult(cookies)))
    decreases |cookies|
  {
    if cookies != [] {
      assert Has(rs, cookies[0]);
      var n :| 0 <= n < |rs| && rs[n].sequence == cookies[0];
      MultResultFound(rs, cookies[0], n, tail);
      assert CallsForMult(cookies)[1..] == CallsForMult(cookies[1..]);
      LaterAreLeft(rs, n, cookies);
      ProductsInTurn(rs[n + 1..], cookies[1..], tail);
      ServedNext(rs, n, cookies, DrainCalls(EncodeReplies(rs[n + 1..]) + tail, CallsForMult(cookies[1..])));
    }
  }

  lemma LaterAreLeft(rs: seq<Reply>, n: nat, cookies: seq<Int32>)
    requires n < |rs| && InOrderOfNumber(rs) && Ascending(cookies) && cookies != [] && rs[n].sequence == cookies[0]
    requires forall j :: 0 <= j < |cookies| ==> Has(rs, cookies[j])
    ensures InOrderOfNumber(rs[n + 1..]) && Ascending(cookies[1..])
    ensures forall j :: 0 <= j < |cookies[1..]| ==> Has(rs[n + 1..], cookies[1..][j])
  {
    forall j | 0 <= j < |cookies[1..]|
      ensures Has(rs[n + 1..], cookies[1..][j])
    {
      LaterIsLeft(rs, n, cookies, j + 1);
    }
  }

  lemma ServedNext(rs: seq<Reply>, n: nat, cookies: seq<Int32>, rest: seq<Option<Int32>>)
    requires n < |rs| && InOrderOfNumber(rs) && Ascending(cookies) && cookies != [] && rs[n].sequence == cookies[0]
    requires Served(rs[n + 1..], cookies[1..], rest)
    ensures Served(rs, cookies, [Some(rs[n].value)] + rest)
  {
    forall j, i | 0 <= j < |cookies| && 0 <= i < |rs| && rs[i].sequence == cookies[j]
      ensures ([Some(rs[n].value)] + rest)[j] == Some(rs[i].value)
    {
      if j > 0 {
        assert i > n;
        assert cookies[1..][j - 1] == cookies[j] && rs[n + 1..][i - n - 1] == rs[i];
      }
    }
  }

  lemma LaterIsLeft(rs: seq<Reply>, n: nat, cookies: seq<Int32>, j: nat)
    requires n < |rs| && InOrderOfNumber(rs) && Ascending(cookies) && 0 < j < |cookies|
    requires rs[n].sequence == cookies[0] && Has(rs, cookies[j])
    ensures Has(rs[n + 1..], cookies[j])
  {
    var i :| 0 <= i < |rs| && rs[i].sequence == cookies[j];
    assert i > n;
    assert rs[n + 1..][i - n - 1] == rs[i];
  }

  /** The call that asks for a reply. */
  function CallFor(r: Reply): Call {
    if r.code == CRC32 then ForCrc32(r.sequence) else ForMult(r.sequence)
  }

  function CallsFor(rs: seq<Reply>): (calls: seq<Call>)
    ensures |calls| == |rs|
  {
    seq(|rs|, i requires 0 <= i < |rs| => CallFor(rs[i]))
  }

  /** Products and checksums taken in the order they arrive: every call returns its reply's value. */
  lemma {:induction false} AllInTurn(rs: seq<Reply>, tail: seq<Byte>)
    requires forall i :: 0 <= i < |rs| ==> rs[i].code == MULT || rs[i].code == CRC32
    ensures forall i :: 0 <= i < |rs| ==> DrainCalls(EncodeReplies(rs) + tail, CallsFor(rs))[i] == Some(rs[i].value)
    decreases |rs|
  {
    if rs != [] {
      FirstReply(rs, tail);
      var later := rs[1..];
      assert CallsFor(rs)[1..] == CallsFor(later);
      assert DrainCalls(EncodeReplies(rs) + tail, CallsFor(rs))
          == [Some(rs[0].value)] + DrainCalls(EncodeReplies(later) + tail, CallsFor(later));
      AllInTurn(later, tail);
    }
  }

  // ---- part of a stream of replies ----

  lemma {:induction false} EncodeRepliesSplit(rs: seq<Reply>, n: nat)
    requires n <= |rs|
    ensures |EncodeReplies(rs[..n])| == 16 * n
    ensures EncodeReplies(rs) == EncodeReplies(rs[..n]) + EncodeReplies(rs[n..])
    decreases n
  {
    if n > 0 {
      var later := rs[1..];
      EncodeRepliesSplit(later, n - 1);
      assert rs[..n][1..] == later[..n - 1] && later[n - 1..] == rs[n..];
      Assoc(EncodeReply(rs[0]), EncodeReplies(later[..n - 1]), EncodeReplies(rs[n..]));
    }
  }

  /** What has arrived of a stream of replies begins with its first n when it is long enough. */
  lemma ArrivedReplies(rs: seq<Reply>, inbox: seq<Byte>, n: nat)
    requires n <= |rs| && inbox <= EncodeReplies(rs) && |inbox| >= 16 * n
    ensures inbox == EncodeReplies(rs[..n]) + inbox[16 * n..]
  {
    EncodeRepliesSplit(rs, n);
    PrefixOfConcat(EncodeReplies(rs[..n]), EncodeReplies(rs[n..]), inbox);
  }

  /** When the first c replies have been taken, what has arrived behind them begins the rest. */
  lemma TakenReplies(rs: seq<Reply>, taken: seq<Byte>, inbox: seq<Byte>, c: nat)
    requires taken + inbox <= EncodeReplies(rs) && |taken| == 16 * c
    ensures c <= |rs| && inbox <= EncodeReplies(rs[c..])
  {
    EncodeRepliesSplit(rs, |rs|);
    assert rs[..|rs|] == rs;
    EncodeRepliesSplit(rs, c);
    BehindPrefix(EncodeReplies(rs[..c]), EncodeReplies(rs[c..]), taken, inbox);
  }

  lemma BehindPrefix<T>(a: seq<T>, b: seq<T>, taken: seq<T>, inbox: seq<T>)
    requires taken + inbox <= a + b && |taken| == |a|
    ensures inbox <= b
  {
    assert inbox == (taken + inbox)[|a|..] == (a + b)[|a|..|a| + |inbox|] == b[..|inbox|];
  }

  lemma PrefixOfConcat<T>(a: seq<T>, b: seq<T>, s: seq<T>)
    requires s <= a + b && |s| >= |a|
    ensures s == a + s[|a|..]
  {
    assert s[..|a|] == (a + b)[..|a|] == a;
  }

  // ---- the library ----

  predicate Products(rs: seq<Request>) {
    forall r :: r in rs ==> r.Mult?
  }

  /** Requests carry growing numbers. */
  predicate Numbered(rs: seq<Request>) {
    forall j, k :: 0 <= j < k < |rs| ==> rs[j].sequence < rs[k].sequence
  }

  /** Growing numbers below n. */
  predicate NumberedBelow(rs: seq<Request>, n: int) {
    Numbered(rs) && forall k :: 0 <= k < |rs| ==> rs[k].sequence < n
  }

  lemma NumberedPrefix(a: seq<Request>, b: seq<Request>, n: int)
    requires NumberedBelow(a + b, n)
    ensures NumberedBelow(a, n)
  {
    assert forall k :: 0 <= k < |a| ==> (a + b)[k] == a[k];
  }

  lemma NumberedNext(rs: seq<Request>, r: Request)
    requires NumberedBelow(rs, r.sequence)
    ensures NumberedBelow(rs + [r], r.sequence + 1)
  {
  }

  lemma {:induction false} FieldsAppend(vs: seq<Int32>, v: Int32)
    ensures Fields(vs + [v]) == Fields(vs) + Le32(v)
    decreases |vs|
  {
    if vs == [] {
      assert [v][1..] == [];
    } else {
      FieldsAppend(vs[1..], v);
      assert (vs + [v])[1..] == vs[1..] + [v];
    }
  }

  /** out_uint32_le of field k of a message that starts behind base. */
  method PutField(s: Stream, v: Int32, ghost base: seq<Byte>, ghost vs: seq<Int32>, ghost k: nat)
    requires s.p + 4 <= s.data.Length && k < |vs| && v == vs[k] && s.data[..s.p] == base + Fields(vs[..k])
    modifies s`p, s.data
    ensures s.p == old(s.p) + 4 && s.data[..s.p] == base + Fields(vs[..k + 1])
  {
    s.OutUint32(v);
    FieldsAppend(vs[..k], v);
    assert vs[..k] + [v] == vs[..k + 1];
    assert base + Fields(vs[..k]) + Le32(v) == base + (Fields(vs[..k]) + Le32(v));
  }

  /** The first three fields, the same for both requests. */
  method PutHeader(s: Stream, code: Int32, size: Int32, sequence: Int32, ghost base: seq<Byte>, ghost vs: seq<Int32>)
    requires s.p + 12 <= s.data.Length && |vs| >= 3 && vs[..3] == [code, size, sequence] && s.data[..s.p] == base
    modifies s`p, s.data
    ensures s.p == old(s.p) + 12 && s.data[..s.p] == base + Fields(vs[..3])
  {
    assert base + Fields(vs[..0]) == base;
    PutField(s, code, base, vs, 0);
    PutField(s, size, base, vs, 1);
    PutField(s, sequence, base, vs, 2);
  }

  /** The five fields that describe an image. */
  method PutImage(s: Stream, addr: Int32, format: Int32, width: Int32, height: Int32, strideBytes: Int32,
    ghost base: seq<Byte>, ghost vs: seq<Int32>)
    requires s.p + 20 <= s.data.Length && |vs| == 8 && s.data[..s.p] == base + Fields(vs[..3])
    requires vs[3] == addr && vs[4] == format && vs[5] == width && vs[6] == height && vs[7] == strideBytes
    modifies s`p, s.data
    ensures s.p == old(s.p) + 20 && s.data[..s.p] == base + Fields(vs[..8])
  {
    PutField(s, addr, base, vs, 3);
    PutField(s, format, base, vs, 4);
    PutField(s, width, base, vs, 5);
    PutField(s, height, base, vs, 6);
    PutField(s, strideBytes, base, vs, 7);
  }

  /**
   inbox: the bytes the socket has for us; wire: those it has taken.  made, written and pending are
   the requests made, flushed and still buffered; torn: a flush was cut short.
   */
  class Library {
    const outStream: Stream
    var sequence: Int32
    var inbox: seq<Byte>
    var wire: seq<Byte>
    ghost var written: seq<Request>
    ghost var pending: seq<Request>
    ghost var torn: bool

    constructor (inbox: seq<Byte>)
      ensures Valid() && InOrder() && wire == [] && Made() == [] && sequence == 0 && !torn && this.inbox == inbox
      ensures fresh(outStream) && fresh(outStream.data)
    {
      var s := new Stream(BUFFER_BYTES);
      outStream, sequence, this.inbox, wire := s, 0, inbox, [];
      written, pending, torn := [], [], false;
    }

    ghost function Made(): seq<Request>
      reads this
    {
      written + pending
    }

    /** The requests made carry growing numbers, all handed out. */
    ghost predicate InOrder()
      reads this
    {
      NumberedBelow(Made(), sequence)
    }

    /** The buffer holds whole requests; unless a flush was cut short the wire does too. */
    ghost predicate Valid()
      reads this, outStream, outStream.data
    {
      && outStream.data.Length == BUFFER_BYTES && outStream.p <= BUFFER_BYTES
      && outStream.data[..outStream.p] == EncodeAll(pending)
      && (!torn ==> wire == EncodeAll(written))
    }

    /**
     dspmain_flush: the socket takes up to room bytes; anything short of all is an error, and the rest
     is forgotten.
     */
    method Flush(room: nat) returns (error: int)
      requires Valid()
      modifies `wire, `written, `pending, `torn, outStream`p, outStream`end
      ensures Valid() && pending == [] && outStream.p == 0
      ensures error == 0 <==> |EncodeAll(old(pending))| <= room
      ensures error == 0 ==> written == old(written) + old(pending) && torn == old(torn)
      ensures error != 0 ==> written == old(written) && torn
      ensures var e := EncodeAll(old(pending)); wire == old(wire) + e[..if |e| <= room then |e| else room]
    {
      outStream.end := outStream.p;
      outStream.p := 0;
      var bytes := outStream.end;
      ghost var e := EncodeAll(pending);
      assert outStream.data[..bytes] == e;
      EncodeAllConcat(written, pending);
      assert e[..|e|] == e;
      assert outStream.data[..0] == [];
      if bytes == 0 {
        assert wire == wire + e;
        written, pending := written + pending, [];
        return 0;
      }
      var sent := if room < bytes then room else bytes;
      assert outStream.data[..sent] == e[..sent];
      wire := wire + outStream.data[..sent];
      if sent != bytes {
        pending, torn := [], true;
        return 1;
      }
      written, pending := written + pending, [];
      return 0;
    }

    method WriteMult(x: Int32, y: Int32)
      requires Valid() && outStream.p + 20 <= BUFFER_BYTES
      modifies `pending, outStream`p, outStream.data
      ensures Valid() && pending == old(pending) + [Mult(sequence, x, y)]
    {
      ghost var base, r := EncodeAll(pending), Mult(sequence, x, y);
      ghost var vs := RequestFields(r);
      PutHeader(outStream, MULT, 20, sequence, base, vs);
      PutField(outStream, x, base, vs, 3);
      PutField(outStream, y, base, vs, 4);
      assert vs[..5] == vs;
      AppendRequest(pending, r);
      pending := pending + [r];
    }

    method WriteCrc32(addr: Int32, format: Int32, width: Int32, height: Int32, strideBytes: Int32)
      requires Valid() && outStream.p + 32 <= BUFFER_BYTES
      modifies `pending, outStream`p, outStream.data
      ensures Valid() && pending == old(pending) + [Crc32(sequence, addr, format, width, height, strideBytes)]
    {
      ghost var base, r := EncodeAll(pending), Crc32(sequence, addr, format, width, height, strideBytes);
      ghost var vs := RequestFields(r);
      PutHeader(outStream, CRC32, 32, sequence, base, vs);
      PutImage(outStream, addr, format, width, height, strideBytes, base, vs);
      assert vs[..8] == vs;
      AppendRequest(pending, r);
      pending := pending + [r];
    }

    /** dspmain_mult */
    method RequestMult(x: Int32, y: Int32, room: nat) returns (error: int, cookie: Int32)
      requires Valid() && sequence < 0x7FFF_FFFF
      modifies `sequence, `wire, `written, `pending, `torn, outStream`p, outStream`end, outStream.data
      ensures Valid()
      ensures error == 0 ==> cookie == old(sequence) && sequence == cookie + 1 && torn == old(torn)
      ensures error == 0 ==> Made() == old(Made()) + [Mult(cookie, x, y)]
      ensures error != 0 ==> sequence == old(sequence) && pending == [] && Made() == old(written)
      ensures old(outStream.p) + 20 <= BUFFER_BYTES ==> error == 0 && wire == old(wire) && pending != []
      ensures old(wire) <= wire
      ensures old(InOrder()) ==> InOrder()
    {
      cookie := 0;
      ghost var before := Made();
      if NumberedBelow(before, sequence) {
        NumberedPrefix(written, pending, sequence);
      }
      if !outStream.CheckRemOut(20) {
        error := Flush(room);
        if error != 0 {
          assert Made() == old(written);
          return;
        }
        assert Made() == before;
      }
      assert Made() == before;
      WriteMult(x, y);
      if NumberedBelow(before, sequence) {
        NumberedNext(before, Mult(sequence, x, y));
      }
      cookie := sequence;
      sequence := sequence + 1;
      error := 0;
    }

    /** dspmain_crc32 */
    method RequestCrc32(addr: Int32, format: Int32, width: Int32, height: Int32, strideBytes: Int32, room: nat)
      returns (error: int, cookie: Int32)
      requires Valid() && sequence < 0x7FFF_FFFF
      modifies `sequence, `wire, `written, `pending, `torn, outStream`p, outStream`end, outStream.data
      ensures Valid()
      ensures error == 0 ==> cookie == old(sequence) && sequence == cookie + 1 && torn == old(torn)
      ensures error == 0 ==> Made() == old(Made()) + [Crc32(cookie, addr, format, width, height, strideBytes)]
      ensures error != 0 ==> sequence == old(sequence) && pending == [] && Made() == old(written)
      ensures old(outStream.p) + 32 <= BUFFER_BYTES ==> error == 0 && wire == old(wire) && pending != []
      ensures old(wire) <= wire
      ensures old(InOrder()) ==> InOrder()
    {
      cookie := 0;
      ghost var before := Made();
      if NumberedBelow(before, sequence) {
        NumberedPrefix(written, pending, sequence);
      }
      if !outStream.CheckRemOut(32) {
        error := Flush(room);
        if error != 0 {
          assert Made() == old(written);
          return;
        }
        assert Made() == before;
      }
      assert Made() == before;
      WriteCrc32(addr, format, width, height, strideBytes);
      if NumberedBelow(before, sequence) {
        NumberedNext(before, Crc32(sequence, addr, format, width, height, strideBytes));
      }
      cookie := sequence;
      sequence := sequence + 1;
      error := 0;
    }

    /** recv of n bytes; fewer come only when the socket has no more. */
    method Recv(n: nat) returns (got: seq<Byte>)
      modifies `inbox
      ensures got + inbox == old(inbox) && |got| == (if |old(inbox)| < n then |old(inbox)| else n)
      ensures inbox == Left(old(inbox), n)
    {
      var k := if |inbox| < n then |inbox| else n;
      got := inbox[..k];
      inbox := inbox[k..];
    }

    /** The receiving part common to both result calls: a reply with this code. */
    method RecvReply(code: Int32) returns (ok: bool, number: Int32, value: Int32)
      modifies `inbox
      ensures ok <==> |old(inbox)| >= 16 && Field(old(inbox), 0) == code && Field(old(inbox), 1) == 16
      ensures ok ==> number == Field(old(inbox), 2) && value == Field(old(inbox), 3) && inbox == old(inbox)[16..]
      ensures !ok ==> inbox == Left(old(inbox),
        if |old(inbox)| < 8 || Field(old(inbox), 0) != code || Field(old(inbox), 1) != 16 then 8 else 16)
    {
      ghost var all := inbox;
      ok, number, value := false, 0, 0;
      var head := Recv(8);
      if |head| != 8 {
        return;
      }
      assert head == all[..8] && head[0..4] == all[0..4] && head[4..8] == all[4..8];
      if Field(head, 0) != code || Field(head, 1) != 16 {
        return;
      }
      var body := Recv(8);
      if |body| != 8 {
        return;
      }
      assert body == all[8..16] && body[0..4] == all[8..12] && body[4..8] == all[12..16];
      ok, number, value := true, Field(body, 0), Field(body, 1);
    }

    /** dspmain_mult_result; it flushes first, and again before each older reply it skips. */
    method MultResult(cookie: Int32, room: nat) returns (error: int, z: Int32)
      requires Valid()
      modifies `inbox, `wire, `written, `pending, `torn, outStream`p, outStream`end
      ensures Valid() && pending == []
      ensures |EncodeAll(old(pending))| > room ==> error != 0 && inbox == old(inbox)
      ensures |EncodeAll(old(pending))| <= room ==>
        var d := DrainMult(old(inbox), cookie);
        && (error == 0 <==> d.value.Some?) && (error == 0 ==> z == d.value.value) && inbox == d.rest
        && Made() == old(Made()) && torn == old(torn)
      decreases |inbox|
    {
      z := 0;
      error := Flush(room);
      if error != 0 {
        return;
      }
      var ok, number, value := RecvReply(MULT);
      if !ok || number > cookie {
        error := 1;
      } else if number < cookie {
        error, z := MultResult(cookie, room);
      } else {
        z := value;
      }
    }

    /** dspmain_crc32_result, which skips an older reply with dspmain_mult_result. */
    method Crc32Result(cookie: Int32, room: nat) returns (error: int, crc: Int32)
      requires Valid()
      modifies `inbox, `wire, `written, `pending, `torn, outStream`p, outStream`end
      ensures Valid() && pending == []
      ensures |EncodeAll(old(pending))| > room ==> error != 0 && inbox == old(inbox)
      ensures |EncodeAll(old(pending))| <= room ==>
        var d := DrainCrc32(old(inbox), cookie);
        && (error == 0 <==> d.value.Some?) && (error == 0 ==> crc == d.value.value) && inbox == d.rest
        && Made() == old(Made()) && torn == old(torn)
    {
      crc := 0;
      error := Flush(room);
      if error != 0 {
        return;
      }
      var ok, number, value := RecvReply(CRC32);
      if !ok || number > cookie {
        error := 1;
      } else if number < cookie {
        error, crc := MultResult(cookie, room);
      } else {
        crc := value;
      }
    }

    /**
     As long as every flush was complete, what the socket has taken parses, however it is cut, into
     the requests flushed so far, and with the buffer it makes all requests made.
     */
    lemma DaemonSeesRequests(offers: seq<nat>)
      requires Valid() && !torn && |offers| >= |wire|
      ensures Receive(Requests(), [], wire, offers) == Received(Parsed(written, [], false), [])
      ensures wire + outStream.data[..outStream.p] == EncodeAll(Made())
    {
      ClientRequestsArrive(written, offers);
      EncodeAllConcat(written, pending);
    }
  }

  method TakeResult(lib: Library, call: Call, room: nat) returns (value: Option<Int32>)
    requires lib.Valid() && |EncodeAll(lib.pending)| <= room
    modifies lib`inbox, lib`wire, lib`written, lib`pending, lib`torn, lib.outStream`p, lib.outStream`end
    ensures lib.Valid() && lib.pending == []
    ensures Drained(value, lib.inbox) == Drain(old(lib.inbox), call)
    ensures lib.Made() == old(lib.Made()) && lib.torn == old(lib.torn)
  {
    var error, v;
    match call {
      case ForMult(cookie) => error, v := lib.MultResult(cookie, room);
      case ForCrc32(cookie) => error, v := lib.Crc32Result(cookie, room);
    }
    value := if error == 0 then Some(v) else None;
  }

  lemma OneMoreCall(before: seq<Option<Int32>>, d: Drained, s: seq<Byte>, calls: seq<Call>, n: nat)
    requires n < |calls| && d == Drain(s, calls[n])
    ensures before + DrainCalls(s, calls[n..]) == (before + [d.value]) + DrainCalls(d.rest, calls[n + 1..])
  {
    assert calls[n..][1..] == calls[n + 1..];
    Assoc(before, [d.value], DrainCalls(d.rest, calls[n + 1..]));
  }

  /** Result calls one after another, as a client makes them. */
  method TakeResults(lib: Library, calls: seq<Call>, room: nat) returns (values: seq<Option<Int32>>)
    requires lib.Valid() && |EncodeAll(lib.pending)| <= room
    modifies lib`inbox, lib`wire, lib`written, lib`pending, lib`torn, lib.outStream`p, lib.outStream`end
    ensures lib.Valid() && values == DrainCalls(old(lib.inbox), calls)
    ensures lib.Made() == old(lib.Made()) && lib.torn == old(lib.torn)
  {
    ghost var all := DrainCalls(lib.inbox, calls);
    assert calls[0..] == calls;
    values := [];
    var n := 0;
    while n < |calls|
      invariant 0 <= n <= |calls| && lib.Valid() && |EncodeAll(lib.pending)| <= room
      invariant all == values + DrainCalls(lib.inbox, calls[n..])
      invariant lib.Made() == old(lib.Made()) && lib.torn == old(lib.torn)
    {
      ghost var s := lib.inbox;
      var value := TakeResult(lib, calls[n], room);
      OneMoreCall(values, Drained(value, lib.inbox), s, calls, n);
      values := values + [value];
      n := n + 1;
    }
    assert values + [] == values;
  }

  lemma AppendRequest(rs: seq<Request>, r: Request)
    ensures EncodeAll(rs + [r]) == EncodeAll(rs) + Encode(r)
  {
    EncodeAllConcat(rs, [r]);
    assert Encodings([r]) == [Encode(r)];
    assert Flatten([Encode(r)]) == Encode(r) + Flatten([]);
  }
}
