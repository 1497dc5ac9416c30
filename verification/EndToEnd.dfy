/**
 From a client's call to its result: what the daemon puts on a client's socket is what the client
 library looks for.
 */
module EndToEnd {
  import opened Framing
  import opened Wire
  import opened Daemon
  import opened DspTask
  import opened ServiceLaws
  import opened Protocol
  import opened Guarantees
  import Client
  import CpuCrc
  import Pipeline
  import opened CrcService
  import opened Pixels

  predicate IsRequest(m: Message) {
    m.body.Product? || m.body.Checksum?
  }

  /** The replies queued to one peer. */
  function RepliesTo(ms: seq<Message>, id: int): seq<Reply> {
    if ms == [] then []
    else
      var m := ms[|ms| - 1];
      RepliesTo(ms[..|ms| - 1], id) + if m.owner == id && ReplyOf(m) != [] then [ReplyOf(m)[0]] else []
  }

  lemma {:induction false} AnswersAreReplies(ms: seq<Message>, id: int)
    ensures AnswersTo(ms, id) == Client.EncodeReplies(RepliesTo(ms, id))
    decreases |ms|
  {
    if ms != [] {
      var init, m := ms[..|ms| - 1], ms[|ms| - 1];
      AnswersAreReplies(init, id);
      if m.owner == id && ReplyOf(m) != [] {
        Client.EncodeRepliesAppend(RepliesTo(init, id), ReplyOf(m)[0]);
      } else {
        assert RepliesTo(init, id) + [] == RepliesTo(init, id);
        assert AnswersTo(init, id) + [] == AnswersTo(init, id);
      }
    }
  }

  /** The message behind reply i, and where it stands. */
  lemma {:induction false} ReplySource(ms: seq<Message>, id: int, i: nat) returns (k: nat)
    requires i < |RepliesTo(ms, id)|
    ensures k < |ms| && ms[k].owner == id && ReplyOf(ms[k]) == [RepliesTo(ms, id)[i]]
    ensures |RepliesTo(ms[..k], id)| == i
    decreases |ms|
  {
    var init := ms[..|ms| - 1];
    if i < |RepliesTo(init, id)| {
      k := ReplySource(init, id, i);
      assert init[..k] == ms[..k];
    } else {
      k := |ms| - 1;
    }
  }

  /** Messages in order give replies in the order of any number that grows with them. */
  lemma {:induction false} RepliesInOrder(ms: seq<Message>, id: int, i: nat, j: nat)
    requires i < j < |RepliesTo(ms, id)|
    requires forall a, b :: 0 <= a < b < |ms| && ms[a].owner == id && ms[b].owner == id ==> ms[a].cookie < ms[b].cookie
    ensures RepliesTo(ms, id)[i].sequence < RepliesTo(ms, id)[j].sequence
    decreases |ms|
  {
    var init, last := ms[..|ms| - 1], |ms| - 1;
    if j < |RepliesTo(init, id)| {
      RepliesInOrder(init, id, i, j);
    } else {
      var a := ReplySource(init, id, i);
      assert ms[a].cookie < ms[last].cookie;
    }
  }

  /** A peer that asks only for products, with growing sequence numbers, as the library numbers them. */
  predicate AsksProducts(s: System, id: int) {
    && (forall n :: 0 <= n < |s.asked| && s.asked[n].owner == id ==> s.asked[n].body.Product?)
    && (forall a, b :: 0 <= a < b < |s.asked| && s.asked[a].owner == id && s.asked[b].owner == id
         ==> s.asked[a].cookie < s.asked[b].cookie)
  }

  lemma CookiesGrow(run: seq<System>, steps: seq<Step>, k: nat, id: int, a: nat, b: nat)
    requires IsRun(run, steps) && k < |run| && AsksProducts(run[k], id)
    requires a < b < |run[k].replied| && run[k].replied[a].owner == id && run[k].replied[b].owner == id
    ensures run[k].replied[a].cookie < run[k].replied[b].cookie
  {
    var s := run[k];
    Reachable(run, steps, k);
    var trail := s.replied + Pipe(s);
    assert trail[a] == s.replied[a] && trail[b] == s.replied[b];
    assert trail[a] in trail && trail[b] in trail;
    assert InLog(s.asked, s.replied[a]) && InLog(s.asked, s.replied[b]);
  }

  /** The number request n is to be answered with, from what the DSP found when it worked on it. */
  function AnswerDue(s: System, n: nat): Int32
    requires n < |s.asked| && n in s.computed
  {
    RightAnswer(s.computed[n].at, s.asked[n].body)
  }

  function CodeOf(b: Body): Int32 {
    if b.Checksum? then CRC32 else MULT
  }

  /** Reply i to a peer answers a request of that peer's. */
  lemma ReplyIsDue(run: seq<System>, steps: seq<Step>, k: nat, id: int, i: nat) returns (at: nat)
    requires IsRun(run, steps) && k < |run| && i < |RepliesTo(run[k].replied, id)|
    ensures at < |run[k].replied| && |RepliesTo(run[k].replied[..at], id)| == i
    ensures var n := run[k].replied[at].sequence;
      && n < |run[k].asked| && n in run[k].computed && run[k].asked[n].owner == id && IsRequest(run[k].asked[n])
      && RepliesTo(run[k].replied, id)[i]
        == Reply(CodeOf(run[k].asked[n].body), run[k].asked[n].cookie, AnswerDue(run[k], n))
  {
    at := ReplySource(run[k].replied, id, i);
    RepliesAreComputed(run, steps, k, run[k].replied[at]);
  }

  /** The bytes a peer has been sent are the beginning of its encoded replies. */
  lemma SentIsReplies(run: seq<System>, steps: seq<Step>, k: nat, p: Peer)
    requires IsRun(run, steps) && k < |run| && p in run[k].d.peers
    ensures p.id in run[k].sent && run[k].sent[p.id] <= Client.EncodeReplies(RepliesTo(run[k].replied, p.id))
  {
    BytesAreReplies(run, steps, k, p);
    AnswersAreReplies(run[k].replied, p.id);
  }

  lemma ProductReplies(run: seq<System>, steps: seq<Step>, k: nat, id: int)
    requires IsRun(run, steps) && k < |run| && AsksProducts(run[k], id)
    ensures Client.AllCode(RepliesTo(run[k].replied, id), MULT) && Client.InOrderOfNumber(RepliesTo(run[k].replied, id))
  {
    var s := run[k];
    var rs := RepliesTo(s.replied, id);
    forall i | 0 <= i < |rs|
      ensures rs[i].code == MULT
    {
      var at := ReplyIsDue(run, steps, k, id, i);
    }
    forall a, b | 0 <= a < b < |s.replied| && s.replied[a].owner == id && s.replied[b].owner == id
      ensures s.replied[a].cookie < s.replied[b].cookie
    {
      CookiesGrow(run, steps, k, id, a, b);
    }
    forall i, j | 0 <= i < j < |rs|
      ensures rs[i].sequence < rs[j].sequence
    {
      RepliesInOrder(s.replied, id, i, j);
    }
  }

  /** Reply i carries the product of the request with its cookie. */
  lemma ProductReply(run: seq<System>, steps: seq<Step>, k: nat, id: int, i: nat, n: nat)
    requires IsRun(run, steps) && k < |run| && AsksProducts(run[k], id) && i < |RepliesTo(run[k].replied, id)|
    requires n < |run[k].asked| && run[k].asked[n].owner == id
    requires run[k].asked[n].cookie == RepliesTo(run[k].replied, id)[i].sequence
    ensures n in run[k].computed && RepliesTo(run[k].replied, id)[i].value == AnswerDue(run[k], n)
  {
    var at := ReplyIsDue(run, steps, k, id, i);
    var x := run[k].replied[at].sequence;
    assert !(x < n) && !(n < x);
  }

  /** Message n is the peer's request with this cookie. */
  predicate Asked(s: System, id: int, cookie: Int32, n: int) {
    0 <= n < |s.asked| && s.asked[n].owner == id && s.asked[n].cookie == cookie
  }

  /** The reply with this cookie is not among the first c, and has arrived. */
  predicate Waiting(rs: seq<Reply>, c: nat, inbox: seq<Byte>, cookie: Int32) {
    exists i :: c <= i < |rs| && rs[i].sequence == cookie && 16 * (i + 1 - c) <= |inbox|
  }

  /** A call has returned the low 32 bits of a product. */
  predicate ProductOf(value: Client.Option<Int32>, x: Int32, y: Int32) {
    value.Some? && LowBitsOf(value.value, x * y)
  }

  /**
   A client that has taken c replies, and whose socket holds more of what it was sent, asks for the
   results of some of its products in ascending order of cookie: every call returns the product of
   its own request's numbers, whatever else the daemon, the DSP and the other clients did.
   */
  lemma ClientGetsProducts(run: seq<System>, steps: seq<Step>, k: nat, p: Peer, taken: seq<Byte>, inbox: seq<Byte>,
    c: nat, cookies: seq<Int32>)
    requires IsRun(run, steps) && k < |run| && p in run[k].d.peers && AsksProducts(run[k], p.id)
    requires p.id in run[k].sent && taken + inbox <= run[k].sent[p.id] && |taken| == 16 * c
    requires Client.Ascending(cookies)
    requires forall j :: 0 <= j < |cookies| ==> Waiting(RepliesTo(run[k].replied, p.id), c, inbox, cookies[j])
    ensures forall j, n ::
      (0 <= j < |cookies| && Asked(run[k], p.id, cookies[j], n) ==>
        ProductOf(Client.DrainCalls(inbox, Client.CallsForMult(cookies))[j], run[k].asked[n].body.x,
          run[k].asked[n].body.y))
  {
    var s, id := run[k], p.id;
    var rs := RepliesTo(s.replied, id);
    SentIsReplies(run, steps, k, p);
    ProductReplies(run, steps, k, id);
    var values := ArrivedProducts(rs, taken, inbox, c, cookies);
    forall j, n | 0 <= j < |cookies| && Asked(s, id, cookies[j], n)
      ensures ProductOf(values[j], s.asked[n].body.x, s.asked[n].body.y)
    {
      assert Waiting(rs, c, inbox, cookies[j]);
      var i :| c <= i < |rs| && rs[i].sequence == cookies[j] && 16 * (i + 1 - c) <= |inbox|;
      ProductReply(run, steps, k, id, i, n);
      assert values[j] == Client.Some(AnswerDue(s, n));
      TruncatedExact(s.asked[n].body.x * s.asked[n].body.y, AnswerDue(s, n));
    }
  }

  lemma ArrivedProducts(rs: seq<Reply>, taken: seq<Byte>, inbox: seq<Byte>, c: nat, cookies: seq<Int32>)
    returns (values: seq<Client.Option<Int32>>)
    requires Client.AllCode(rs, MULT) && Client.InOrderOfNumber(rs) && Client.Ascending(cookies)
    requires taken + inbox <= Client.EncodeReplies(rs) && |taken| == 16 * c
    requires forall j :: 0 <= j < |cookies| ==> Waiting(rs, c, inbox, cookies[j])
    ensures values == Client.DrainCalls(inbox, Client.CallsForMult(cookies))
    ensures forall j, i ::
      (0 <= j < |cookies| && c <= i < |rs| && rs[i].sequence == cookies[j] && 16 * (i + 1 - c) <= |inbox| ==>
        values[j] == Client.Some(rs[i].value))
  {
    Client.TakenReplies(rs, taken, inbox, c);
    var n := |inbox| / 16;
    var left := ArrivedPart(rs[c..], inbox, n);
    forall j | 0 <= j < |cookies|
      ensures Client.Has(left, cookies[j])
    {
      var i := WaitingPlace(rs, c, inbox, cookies[j], n, left);
    }
    Client.ProductsInTurn(left, cookies, inbox[16 * n..]);
    values := Client.DrainCalls(inbox, Client.CallsForMult(cookies));
    ServedHere(rs, c, inbox, cookies, n, left, values);
  }

  /** The replies that have arrived whole. */
  lemma ArrivedPart(rs: seq<Reply>, inbox: seq<Byte>, n: nat) returns (left: seq<Reply>)
    requires inbox <= Client.EncodeReplies(rs) && n == |inbox| / 16
    ensures n <= |rs| && left == rs[..n] && inbox == Client.EncodeReplies(left) + inbox[16 * n..]
  {
    Client.EncodeRepliesSplit(rs, |rs|);
    assert rs[..|rs|] == rs;
    Client.ArrivedReplies(rs, inbox, n);
    left := rs[..n];
  }

  lemma WaitingPlace(rs: seq<Reply>, c: nat, inbox: seq<Byte>, cookie: Int32, n: nat, left: seq<Reply>) returns (i: nat)
    requires c <= |rs| && n == |inbox| / 16 <= |rs| - c && left == rs[c..][..n] && Waiting(rs, c, inbox, cookie)
    ensures i < |left| && left[i].sequence == cookie
  {
    var x :| c <= x < |rs| && rs[x].sequence == cookie && 16 * (x + 1 - c) <= |inbox|;
    i := x - c;
  }

  lemma ServedHere(rs: seq<Reply>, c: nat, inbox: seq<Byte>, cookies: seq<Int32>, n: nat, left: seq<Reply>,
    values: seq<Client.Option<Int32>>)
    requires c <= |rs| && n == |inbox| / 16 <= |rs| - c && left == rs[c..][..n]
    requires Client.Served(left, cookies, values)
    ensures forall j, i ::
      (0 <= j < |cookies| && c <= i < |rs| && rs[i].sequence == cookies[j] && 16 * (i + 1 - c) <= |inbox| ==>
        values[j] == Client.Some(rs[i].value))
  {
    forall j, i | 0 <= j < |cookies| && c <= i < |rs| && rs[i].sequence == cookies[j] && 16 * (i + 1 - c) <= |inbox|
      ensures values[j] == Client.Some(rs[i].value)
    {
      assert left[i - c] == rs[i];
    }
  }

  /** A reply comes behind the replies to the messages before its own. */
  lemma {:induction false} ReplyPlace(ms: seq<Message>, id: int, k: nat)
    requires k < |ms| && ms[k].owner == id && ReplyOf(ms[k]) != []
    ensures |RepliesTo(ms[..k], id)| < |RepliesTo(ms, id)|
    ensures RepliesTo(ms, id)[|RepliesTo(ms[..k], id)|] == ReplyOf(ms[k])[0]
    decreases |ms|
  {
    var init := ms[..|ms| - 1];
    if k < |init| {
      ReplyPlace(init, id, k);
      assert init[..k] == ms[..k];
    }
  }

  /**
   A client that has taken every reply before the one to its checksum request gets, with the cookie of
   that request, what process_CRC32MSGSUBID made of it in the memory it found.
   */
  lemma ClientGetsChecksum(run: seq<System>, steps: seq<Step>, k: nat, p: Peer, taken: seq<Byte>, inbox: seq<Byte>,
    at: nat)
    requires IsRun(run, steps) && k < |run| && p in run[k].d.peers
    requires at < |run[k].replied| && run[k].replied[at].owner == p.id && run[k].replied[at].body.Checksum?
    requires p.id in run[k].sent && taken + inbox <= run[k].sent[p.id] && |inbox| >= 16
    requires |taken| == 16 * |RepliesTo(run[k].replied[..at], p.id)|
    ensures var n := run[k].replied[at].sequence;
      && n < |run[k].asked| && n in run[k].computed && run[k].asked[n].body.Checksum?
      && var d := Client.DrainCrc32(inbox, run[k].asked[n].cookie);
      && d.rest == inbox[16..] && |RequestOf(run[k].asked[n])| == 1
      && AnswerIs(d.value, RequestOf(run[k].asked[n])[0], run[k].computed[n].at)
  {
    var s, id, m := run[k], p.id, run[k].replied[at];
    var rs, c := RepliesTo(s.replied, id), |RepliesTo(s.replied[..at], id)|;
    RepliesAreComputed(run, steps, k, m);
    SentIsReplies(run, steps, k, p);
    ReplyPlace(s.replied, id, at);
    Client.TakenReplies(rs, taken, inbox, c);
    Client.ArrivedReplies(rs[c..], inbox, 1);
    FirstChecksum(rs[c..][..1], inbox[16..]);
    RightIsAnswer(RequestOf(s.asked[m.sequence])[0], s.computed[m.sequence].at);
  }

  lemma FirstChecksum(rs: seq<Reply>, tail: seq<Byte>)
    requires |rs| == 1 && rs[0].code == CRC32
    ensures Client.DrainCrc32(Client.EncodeReplies(rs) + tail, rs[0].sequence)
      == Client.Drained(Client.Some(rs[0].value), tail)
  {
    Client.FirstReply(rs, tail);
    assert rs[1..] == [];
    assert Client.EncodeReplies([]) + tail == tail;
  }

  /**
   The test program's comparison: for its images, outside the scratch memory and streamed, every answer to
   the request is, read as unsigned, the number CpuCrc computes row by row on the host.
   */
  lemma TestProgramMatches(r: Request, at: Situation, v: Int32)
    requires r.Crc32? && at.streams && CpuCrc.OfTest(Named(r)) && Clear(Named(r)) && IsAnswer(r, at, v)
    ensures Unsigned(v) == FormatCrc(at.mem, Named(r)) as int
  {
    CpuCrc.TestShapesArePlain(Named(r));
    CpuCrc.UnsignedIsMod(v);
  }

  // ---- from the library's own requests ----

  /** Request a of the log is, among the requests of its owner, the one behind those logged before it. */
  lemma {:induction false} RequestPlace(asked: seq<Message>, id: int, a: nat)
    requires a < |asked| && asked[a].owner == id
    requires forall n :: 0 <= n < |asked| && asked[n].owner == id ==> IsRequest(asked[n])
    ensures |RequestsBy(asked[..a], id)| < |RequestsBy(asked, id)|
    ensures RequestOf(asked[a]) == [RequestsBy(asked, id)[|RequestsBy(asked[..a], id)|]]
    decreases |asked|
  {
    var init := asked[..|asked| - 1];
    if a < |init| {
      assert init[..a] == asked[..a];
      RequestPlace(init, id, a);
    }
  }

  /** A later request of the same owner has a later place. */
  lemma LaterPlace(asked: seq<Message>, id: int, a: nat, b: nat)
    requires a < b < |asked| && asked[a].owner == id
    requires forall n :: 0 <= n < |asked| && asked[n].owner == id ==> IsRequest(asked[n])
    ensures |RequestsBy(asked[..a], id)| < |RequestsBy(asked[..b], id)|
  {
    assert asked[..b][..a] == asked[..a];
    RequestPlace(asked[..b], id, a);
  }

  lemma ProductsAsked(s: System, id: int, made: seq<Request>)
    requires Inv(s) && id >= 1 && RequestsBy(s.asked, id) == made
    requires Client.Products(made) && Client.Numbered(made)
    ensures AsksProducts(s, id)
  {
    forall n | 0 <= n < |s.asked| && s.asked[n].owner == id
      ensures IsRequest(s.asked[n])
    {
      assert ReplyOf(s.asked[n]) != [];
    }
    forall n | 0 <= n < |s.asked| && s.asked[n].owner == id
      ensures s.asked[n].body.Product?
    {
      RequestPlace(s.asked, id, n);
      assert made[|RequestsBy(s.asked[..n], id)|] in made;
    }
    forall a, b | 0 <= a < b < |s.asked| && s.asked[a].owner == id && s.asked[b].owner == id
      ensures s.asked[a].cookie < s.asked[b].cookie
    {
      RequestPlace(s.asked, id, a);
      RequestPlace(s.asked, id, b);
      LaterPlace(s.asked, id, a, b);
    }
  }

  // ---- replies answer requests one for one ----

  /** The replies are all to requests in the log, in order. */
  predicate RepliesOf(log: seq<Message>, replied: seq<Message>) {
    && Pipeline.Ascending(replied)
    && forall x :: 0 <= x < |replied| ==> InLog(log, replied[x]) && ReplyOf(replied[x]) != []
  }

  /** The peer made only requests, and each has been replied to. */
  predicate AllReplied(log: seq<Message>, replied: seq<Message>, id: int) {
    forall n :: 0 <= n < |log| && log[n].owner == id ==> IsRequest(log[n]) && Known(replied, n)
  }

  /** A peer all of whose requests have been replied to has as many replies as requests. */
  lemma {:induction false} CountsAgree(log: seq<Message>, replied: seq<Message>, id: int)
    requires RepliesOf(log, replied) && AllReplied(log, replied, id)
    ensures |RequestsBy(log, id)| == |RepliesTo(replied, id)|
    decreases |log|
  {
    if log == [] {
      NothingToReplyTo(log, replied);
    } else {
      var init := log[..|log| - 1];
      if replied != [] && replied[|replied| - 1].sequence == |init| {
        BothGrow(log, replied, id, init, replied[..|replied| - 1]);
        CountsAgree(init, replied[..|replied| - 1], id);
      } else {
        NotReplied(log, replied, id, init);
        CountsAgree(init, replied, id);
      }
    }
  }

  lemma NothingToReplyTo(log: seq<Message>, replied: seq<Message>)
    requires log == []
    ensures replied != [] ==> !RepliesOf(log, replied)
  {
    if replied != [] {
      assert !InLog(log, replied[0]);
    }
  }

  /** The last reply is to the last request. */
  lemma BothGrow(log: seq<Message>, replied: seq<Message>, id: int, init: seq<Message>, before: seq<Message>)
    requires RepliesOf(log, replied) && AllReplied(log, replied, id)
    requires log != [] && replied != [] && replied[|replied| - 1].sequence == |log| - 1
    requires init == log[..|log| - 1] && before == replied[..|replied| - 1]
    ensures RepliesOf(init, before) && AllReplied(init, before, id)
    ensures |RequestsBy(log, id)| - |RequestsBy(init, id)| == |RepliesTo(replied, id)| - |RepliesTo(before, id)|
  {
    var last := replied[|replied| - 1];
    assert InLog(log, last);
    forall x | 0 <= x < |before|
      ensures InLog(init, before[x]) && ReplyOf(before[x]) != []
    {
      assert InLog(log, replied[x]) && replied[x].sequence < last.sequence;
    }
    forall n | 0 <= n < |init| && init[n].owner == id
      ensures IsRequest(init[n]) && Known(before, n)
    {
      StillThere(replied, before, n);
    }
  }

  lemma StillThere(replied: seq<Message>, before: seq<Message>, n: nat)
    requires replied != [] && before == replied[..|replied| - 1] && replied[|replied| - 1].sequence != n
    requires Known(replied, n)
    ensures Known(before, n)
  {
    var m :| m in replied && m.sequence == n;
    assert m in before;
  }

  /** The last message of the log has not been replied to, so it is not the peer's. */
  lemma NotReplied(log: seq<Message>, replied: seq<Message>, id: int, init: seq<Message>)
    requires RepliesOf(log, replied) && AllReplied(log, replied, id)
    requires log != [] && init == log[..|log| - 1]
    requires replied != [] ==> replied[|replied| - 1].sequence != |init|
    ensures RepliesOf(init, replied) && AllReplied(init, replied, id)
    ensures |RequestsBy(log, id)| == |RequestsBy(init, id)|
  {
    RepliesBefore(log, replied, init);
    assert log[|init|].owner == id ==> Known(replied, |init|);
    NotItsOwn(log, id, init);
  }

  lemma RepliesBefore(log: seq<Message>, replied: seq<Message>, init: seq<Message>)
    requires RepliesOf(log, replied) && log != [] && init == log[..|log| - 1]
    requires replied != [] ==> replied[|replied| - 1].sequence != |init|
    ensures RepliesOf(init, replied) && !Known(replied, |init|)
  {
    forall x | 0 <= x < |replied|
      ensures InLog(init, replied[x]) && replied[x].sequence != |init|
    {
      assert InLog(log, replied[x]);
      if x < |replied| - 1 {
        assert InLog(log, replied[|replied| - 1]);
        assert replied[x].sequence < replied[|replied| - 1].sequence;
      }
    }
  }

  lemma NotItsOwn(log: seq<Message>, id: int, init: seq<Message>)
    requires log != [] && init == log[..|log| - 1] && log[|init|].owner != id
    ensures RequestsBy(log, id) == RequestsBy(init, id)
  {
    assert RequestsBy(init, id) + [] == RequestsBy(init, id);
  }

  /** The DSP lost no answer to the peer. */
  predicate NoneLost(s: System, id: int) {
    forall n :: 0 <= n < |s.asked| && s.asked[n].owner == id ==> n !in s.lost
  }

  lemma OwnRequests(run: seq<System>, steps: seq<Step>, k: nat, p: Peer)
    requires IsRun(run, steps) && k < |run| && p in run[k].d.peers
    ensures forall n :: 0 <= n < |run[k].asked| && run[k].asked[n].owner == p.id ==> IsRequest(run[k].asked[n])
  {
    var s := run[k];
    Reachable(run, steps, k);
    forall n | 0 <= n < |s.asked| && s.asked[n].owner == p.id
      ensures IsRequest(s.asked[n])
    {
      assert ReplyOf(s.asked[n]) != [];
    }
  }

  lemma RepliedInLog(run: seq<System>, steps: seq<Step>, k: nat)
    requires IsRun(run, steps) && k < |run|
    ensures RepliesOf(run[k].asked, run[k].replied)
  {
    var s := run[k];
    Reachable(run, steps, k);
    var trail := s.replied + Pipe(s);
    forall x | 0 <= x < |s.replied|
      ensures trail[x] == s.replied[x] && InLog(s.asked, s.replied[x])
    {
      assert s.replied[x] in trail;
    }
  }

  /** The replies before reply `at` answer exactly the peer's requests before its own. */
  lemma EarlierReplied(log: seq<Message>, replied: seq<Message>, id: int, at: nat)
    requires RepliesOf(log, replied) && at < |replied| && replied[at].sequence <= |log|
    requires forall e :: 0 <= e < replied[at].sequence && log[e].owner == id ==> IsRequest(log[e]) && Known(replied, e)
    ensures RepliesOf(log[..replied[at].sequence], replied[..at])
    ensures AllReplied(log[..replied[at].sequence], replied[..at], id)
  {
    var n := replied[at].sequence;
    forall x | 0 <= x < at
      ensures InLog(log[..n], replied[x])
    {
      assert InLog(log, replied[x]) && replied[x].sequence < n;
    }
    forall e | 0 <= e < n && log[e].owner == id
      ensures Known(replied[..at], e)
    {
      var m :| m in replied && m.sequence == e;
      var x :| 0 <= x < |replied| && replied[x] == m;
      assert x < at;
      assert replied[..at][x] == m;
    }
  }

  /** When none of its answers is lost, reply i to a connected peer is the answer to its request i. */
  lemma ReplyAnswersRequest(run: seq<System>, steps: seq<Step>, k: nat, p: Peer, i: nat) returns (n: nat)
    requires IsRun(run, steps) && k < |run| && p in run[k].d.peers && NoneLost(run[k], p.id)
    requires i < |RepliesTo(run[k].replied, p.id)|
    ensures i < |RequestsBy(run[k].asked, p.id)|
    ensures n < |run[k].asked| && n in run[k].computed && run[k].asked[n].owner == p.id
    ensures RequestOf(run[k].asked[n]) == [RequestsBy(run[k].asked, p.id)[i]]
    ensures RepliesTo(run[k].replied, p.id)[i]
         == Reply(CodeOf(run[k].asked[n].body), run[k].asked[n].cookie, AnswerDue(run[k], n))
  {
    var s, id := run[k], p.id;
    var at := ReplyIsDue(run, steps, k, id, i);
    n := s.replied[at].sequence;
    OwnRequests(run, steps, k, p);
    RepliedInLog(run, steps, k);
    forall e | 0 <= e < n && s.asked[e].owner == id
      ensures Known(s.replied, e)
    {
      NoReplySkipped(run, steps, k, p, e, s.replied[at]);
    }
    EarlierReplied(s.asked, s.replied, id, at);
    CountsAgree(s.asked[..n], s.replied[..at], id);
    RequestPlace(s.asked, id, n);
  }

  // ---- what the library returns ----

  /** What the client is to get for a request that was worked on in a given situation. */
  function AnswerTo(r: Request, at: Situation): Int32 {
    RightAnswer(at, BodyOf(r))
  }

  function ReplyTo(r: Request, at: Situation): Reply {
    Reply(if r.Mult? then MULT else CRC32, r.sequence, AnswerTo(r, at))
  }

  function CallFor(r: Request): Client.Call {
    if r.Mult? then Client.ForMult(r.sequence) else Client.ForCrc32(r.sequence)
  }

  function CallsForRequests(rs: seq<Request>): (calls: seq<Client.Call>)
    ensures |calls| == |rs|
  {
    seq(|rs|, i requires 0 <= i < |rs| => CallFor(rs[i]))
  }

  /** What the daemon has heard of a client's bytes are the first of the requests the client made. */
  lemma HeardArePrefix(run: seq<System>, steps: seq<Step>, k: nat, p: Peer, made: seq<Request>)
    requires IsRun(run, steps) && k < |run| && p in run[k].d.peers
    requires p.id in run[k].heard && run[k].heard[p.id] <= EncodeAll(made)
    ensures RequestsBy(run[k].asked, p.id) <= made
  {
    var heard := run[k].heard[p.id];
    RequestsAreHeard(run, steps, k, p);
    ParseOfEncodeAll(made);
    assert EncodeAll(made) == heard + EncodeAll(made)[|heard|..];
    ParseAppend(Requests(), heard, EncodeAll(made)[|heard|..]);
  }

  /** Message n is request r of the peer's, and the DSP has worked on it. */
  predicate WorkedOn(s: System, id: int, r: Request, n: nat) {
    n < |s.asked| && n in s.computed && s.asked[n].owner == id && RequestOf(s.asked[n]) == [r]
  }

  /** The same for one reply, in terms of the request as the client made it. */
  lemma ReplyForRequest(run: seq<System>, steps: seq<Step>, k: nat, p: Peer, made: seq<Request>, i: nat)
    returns (n: nat)
    requires IsRun(run, steps) && k < |run| && p in run[k].d.peers && NoneLost(run[k], p.id)
    requires RequestsBy(run[k].asked, p.id) <= made && i < |RepliesTo(run[k].replied, p.id)|
    ensures i < |made| && WorkedOn(run[k], p.id, made[i], n)
    ensures RepliesTo(run[k].replied, p.id)[i] == ReplyTo(made[i], run[k].computed[n].at)
  {
    var s := run[k];
    n := ReplyAnswersRequest(run, steps, k, p, i);
    Reachable(run, steps, k);
    var m := s.asked[n];
    assert made[i] == RequestsBy(s.asked, p.id)[i] && RequestOf(m) == [made[i]];
    assert Blank(m.body);
  }

  /** A call has returned an answer to the request. */
  predicate AnswerIs(value: Client.Option<Int32>, r: Request, at: Situation) {
    value.Some? && IsAnswer(r, at, value.value)
  }

  /**
   A library whose bytes reach the daemon as it wrote them, none of whose answers is lost, and that
   takes its results in the order of its requests: from wherever it has got to, every call returns the
   answer to its own request, be it a product or the checksum of the image in memory when the DSP
   worked on that request.
   */
  lemma LibraryGetsAnswers(run: seq<System>, steps: seq<Step>, k: nat, p: Peer, lib: Client.Library,
                           taken: seq<Byte>, c: nat, n: nat) returns (ns: seq<nat>)
    requires IsRun(run, steps) && k < |run| && p in run[k].d.peers && NoneLost(run[k], p.id)
    requires lib.Valid() && !lib.torn && p.id in run[k].heard && run[k].heard[p.id] <= lib.wire
    requires p.id in run[k].sent && taken + lib.inbox <= run[k].sent[p.id] && |taken| == 16 * c && |lib.inbox| >= 16 * n
    ensures c + n <= |lib.Made()| && |ns| == n
    ensures forall i :: 0 <= i < n ==>
      && WorkedOn(run[k], p.id, lib.Made()[c + i], ns[i])
      && AnswerIs(Client.DrainCalls(lib.inbox, CallsForRequests(lib.Made()[c..c + n]))[i],
                  lib.Made()[c + i], run[k].computed[ns[i]].at)
  {
    var rs, made := RepliesTo(run[k].replied, p.id), lib.Made();
    EncodeAllConcat(lib.written, lib.pending);
    HeardArePrefix(run, steps, k, p, made);
    SentIsReplies(run, steps, k, p);
    var all := Sources(run, steps, k, p, made, |rs|);
    InboxIsReplies(rs, taken, lib.inbox, c, n);
    SameCalls(run[k], p.id, rs, made, all, c, n);
    var next := rs[c..c + n];
    ArrivedInTurn(rs, taken, lib.inbox, c, n, next);
    ns := all[c..c + n];
    forall i | 0 <= i < n
      ensures WorkedOn(run[k], p.id, made[c + i], ns[i])
      ensures IsAnswer(made[c + i], run[k].computed[ns[i]].at, next[i].value)
    {
      RightIsAnswer(made[c + i], run[k].computed[ns[i]].at);
      assert Answers(run[k], p.id, rs[c + i], made[c + i], all[c + i]);
    }
  }

  predicate Answers(s: System, id: int, r: Reply, asked: Request, n: nat) {
    WorkedOn(s, id, asked, n) && r == ReplyTo(asked, s.computed[n].at)
  }

  /** The messages the first m replies answer. */
  lemma {:induction false} Sources(run: seq<System>, steps: seq<Step>, k: nat, p: Peer, made: seq<Request>, m: nat)
    returns (all: seq<nat>)
    requires IsRun(run, steps) && k < |run| && p in run[k].d.peers && NoneLost(run[k], p.id)
    requires RequestsBy(run[k].asked, p.id) <= made && m <= |RepliesTo(run[k].replied, p.id)|
    ensures |all| == m <= |made|
    ensures forall i :: 0 <= i < m ==> Answers(run[k], p.id, RepliesTo(run[k].replied, p.id)[i], made[i], all[i])
    decreases m
  {
    if m == 0 {
      all := [];
    } else {
      var before := Sources(run, steps, k, p, made, m - 1);
      var n := ReplyForRequest(run, steps, k, p, made, m - 1);
      all := before + [n];
    }
  }

  lemma InboxIsReplies(rs: seq<Reply>, taken: seq<Byte>, inbox: seq<Byte>, c: nat, n: nat)
    requires taken + inbox <= Client.EncodeReplies(rs) && |taken| == 16 * c && |inbox| >= 16 * n
    ensures c + n <= |rs|
  {
    Client.EncodeRepliesSplit(rs, |rs|);
    assert rs[..|rs|] == rs;
  }

  lemma SameCalls(s: System, id: int, rs: seq<Reply>, made: seq<Request>, all: seq<nat>, c: nat, n: nat)
    requires c + n <= |rs| == |all| <= |made|
    requires forall i :: 0 <= i < |all| ==> Answers(s, id, rs[i], made[i], all[i])
    ensures forall i :: 0 <= i < |rs| ==> rs[i].code == MULT || rs[i].code == CRC32
    ensures Client.CallsFor(rs[c..c + n]) == CallsForRequests(made[c..c + n])
  {
    forall i | 0 <= i < |rs|
      ensures rs[i].code == MULT || rs[i].code == CRC32
      ensures Client.CallFor(rs[i]) == CallFor(made[i])
    {
      assert Answers(s, id, rs[i], made[i], all[i]);
    }
  }

  lemma ArrivedInTurn(rs: seq<Reply>, taken: seq<Byte>, inbox: seq<Byte>, c: nat, n: nat, next: seq<Reply>)
    requires forall i :: 0 <= i < |rs| ==> rs[i].code == MULT || rs[i].code == CRC32
    requires taken + inbox <= Client.EncodeReplies(rs) && |taken| == 16 * c && |inbox| >= 16 * n
    requires c + n <= |rs| && next == rs[c..c + n]
    ensures forall i :: 0 <= i < n ==> Client.DrainCalls(inbox, Client.CallsFor(next))[i] == Client.Some(next[i].value)
  {
    var left := rs[c..];
    Client.TakenReplies(rs, taken, inbox, c);
    Client.ArrivedReplies(left, inbox, n);
    assert left[..n] == next;
    assert forall i :: 0 <= i < n ==> next[i] == rs[c + i];
    Client.AllInTurn(next, inbox[16 * n..]);
  }

  /**
   The same library when it makes only products: it may leave out any results, and answers to others
   may be lost; each call for an ascending list of cookies returns the product of its own two numbers.
   */
  lemma LibraryGetsProducts(run: seq<System>, steps: seq<Step>, k: nat, p: Peer, lib: Client.Library,
                            taken: seq<Byte>, c: nat, cookies: seq<Int32>)
    requires IsRun(run, steps) && k < |run| && p in run[k].d.peers
    requires lib.Valid() && lib.InOrder() && !lib.torn && Client.Products(lib.Made())
    requires p.id in run[k].heard && run[k].heard[p.id] <= lib.wire
    requires p.id in run[k].sent && taken + lib.inbox <= run[k].sent[p.id] && |taken| == 16 * c
    requires Client.Ascending(cookies)
    requires forall j :: 0 <= j < |cookies| ==> Waiting(RepliesTo(run[k].replied, p.id), c, lib.inbox, cookies[j])
    ensures forall j, i :: (0 <= j < |cookies| && 0 <= i < |lib.Made()| && lib.Made()[i].sequence == cookies[j] ==>
      ProductOf(Client.DrainCalls(lib.inbox, Client.CallsForMult(cookies))[j], lib.Made()[i].x, lib.Made()[i].y))
  {
    EncodeAllConcat(lib.written, lib.pending);
    HeardArePrefix(run, steps, k, p, lib.Made());
    MadeProducts(run, steps, k, p, lib.Made(), taken, lib.inbox, c, cookies);
  }

  lemma MadeProducts(run: seq<System>, steps: seq<Step>, k: nat, p: Peer, made: seq<Request>,
                     taken: seq<Byte>, inbox: seq<Byte>, c: nat, cookies: seq<Int32>)
    requires IsRun(run, steps) && k < |run| && p in run[k].d.peers
    requires Client.Numbered(made) && Client.Products(made) && RequestsBy(run[k].asked, p.id) <= made
    requires p.id in run[k].sent && taken + inbox <= run[k].sent[p.id] && |taken| == 16 * c
    requires Client.Ascending(cookies)
    requires forall j :: 0 <= j < |cookies| ==> Waiting(RepliesTo(run[k].replied, p.id), c, inbox, cookies[j])
    ensures forall j, i :: (0 <= j < |cookies| && 0 <= i < |made| && made[i].sequence == cookies[j] ==>
      ProductOf(Client.DrainCalls(inbox, Client.CallsForMult(cookies))[j], made[i].x, made[i].y))
  {
    var s, id := run[k], p.id;
    OnlyProducts(run, steps, k, p, made);
    ClientGetsProducts(run, steps, k, p, taken, inbox, c, cookies);
    var values := Client.DrainCalls(inbox, Client.CallsForMult(cookies));
    forall j, i | 0 <= j < |cookies| && 0 <= i < |made| && made[i].sequence == cookies[j]
      ensures ProductOf(values[j], made[i].x, made[i].y)
    {
      assert Waiting(RepliesTo(s.replied, id), c, inbox, cookies[j]);
      assert Client.Has(RepliesTo(s.replied, id), made[i].sequence);
      var n := MadeSource(run, steps, k, p, made, i);
      assert Asked(s, id, cookies[j], n);
      assert ProductOf(values[j], s.asked[n].body.x, s.asked[n].body.y);
    }
  }

  lemma OnlyProducts(run: seq<System>, steps: seq<Step>, k: nat, p: Peer, made: seq<Request>)
    requires IsRun(run, steps) && k < |run| && p in run[k].d.peers
    requires Client.Numbered(made) && Client.Products(made) && RequestsBy(run[k].asked, p.id) <= made
    ensures AsksProducts(run[k], p.id)
  {
    Reachable(run, steps, k);
    PrefixOfProducts(RequestsBy(run[k].asked, p.id), made);
    ProductsAsked(run[k], p.id, RequestsBy(run[k].asked, p.id));
  }

  lemma PrefixOfProducts(some: seq<Request>, made: seq<Request>)
    requires some <= made && Client.Products(made) && Client.Numbered(made)
    ensures Client.Products(some) && Client.Numbered(some)
  {
    assert forall i :: 0 <= i < |some| ==> some[i] == made[i];
  }

  /** The message behind a request that has been replied to. */
  lemma MadeSource(run: seq<System>, steps: seq<Step>, k: nat, p: Peer, made: seq<Request>, i: nat) returns (n: nat)
    requires IsRun(run, steps) && k < |run| && p in run[k].d.peers
    requires RequestsBy(run[k].asked, p.id) <= made && Client.Numbered(made) && i < |made|
    requires Client.Has(RepliesTo(run[k].replied, p.id), made[i].sequence)
    ensures n < |run[k].asked| && run[k].asked[n].owner == p.id && RequestOf(run[k].asked[n]) == [made[i]]
  {
    var s, id := run[k], p.id;
    var r :| 0 <= r < |RepliesTo(s.replied, id)| && RepliesTo(s.replied, id)[r].sequence == made[i].sequence;
    var at := ReplyIsDue(run, steps, k, id, r);
    n := s.replied[at].sequence;
    OwnRequests(run, steps, k, p);
    RequestPlace(s.asked, id, n);
    var x := |RequestsBy(s.asked[..n], id)|;
    assert RequestsBy(s.asked, id)[x] == made[x];
    assert made[x].sequence == made[i].sequence;
    assert !(x < i) && !(i < x);
  }
}
