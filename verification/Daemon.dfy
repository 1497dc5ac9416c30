/**
 The daemon as a value: its peers, the messages it exchanges with the DSP and what each of its
 functions does to them.  The heap version in Dspmain refines these functions.
 */
module Daemon {
  import opened Framing
  import opened Wire

  // ---- messages on the DSP queues ----

  datatype Body =
    | Locate
    | Product(x: Int32, y: Int32, z: Int32)
    | Checksum(addr: Int32, format: Int32, width: Int32, height: Int32, strideBytes: Int32, crc: Int32)
    | Shutdown

  /** owner and cookie are user[0] and user[1]: the peer's id and its own sequence number. */
  datatype Message = Message(sequence: nat, replyMsgq: int, owner: int, cookie: Int32, body: Body)

  function BodyOf(r: Request): Body {
    match r
    case Mult(_, x, y) => Product(x, y, 0)
    case Crc32(_, addr, format, width, height, strideBytes) => Checksum(addr, format, width, height, strideBytes, 0)
  }

  // ---- state ----

  /** got: the bytes of the open request; out: the unsent bytes of each queued reply. */
  datatype Peer = Peer(id: int, sck: int, got: seq<Byte>, out: seq<seq<Byte>>)

  /** The DSP side of the daemon's state; toDsp is the queue the DSP reads. */
  datatype Link = Link(sequence: nat, replyMsgq: int, processingCount: int, toDsp: seq<Message>)

  datatype State = State(peers: seq<Peer>, uniqueId: nat, link: Link)

  predicate ValidPeer(p: Peer) {
    Partial(Requests(), p.got) && forall k :: 0 <= k < |p.out| ==> p.out[k] != []
  }

  predicate ValidPeers(peers: seq<Peer>) {
    forall p :: p in peers ==> ValidPeer(p)
  }

  /** Ids grow along the list and were all handed out. */
  predicate Valid(d: State) {
    && ValidPeers(d.peers)
    && (forall i :: 0 <= i < |d.peers| ==> 1 <= d.peers[i].id <= d.uniqueId)
    && (forall i, j :: 0 <= i < j < |d.peers| ==> d.peers[i].id < d.peers[j].id)
  }

  // ---- talking to the DSP ----

  /** Allocate, fill and put one message; when the put fails the message is freed again. */
  function Send(l: Link, owner: int, cookie: Int32, replyMsgq: int, body: Body, counted: bool, putOk: bool): Link {
    l.(sequence := l.sequence + 1,
       processingCount := l.processingCount + if putOk && counted then 1 else 0,
       toDsp := l.toDsp + if putOk then [Message(l.sequence, replyMsgq, owner, cookie, body)] else [])
  }

  function SendRequest(l: Link, owner: int, r: Request, putOk: bool): Link {
    Send(l, owner, r.sequence, l.replyMsgq, BodyOf(r), true, putOk)
  }

  /** The reply to a client that a message from the DSP carries. */
  function ReplyOf(m: Message): seq<Reply> {
    match m.body
    case Product(_, _, z) => [Reply(MULT, m.cookie, z)]
    case Checksum(_, _, _, _, _, crc) => [Reply(CRC32, m.cookie, crc)]
    case _ => []
  }

  /** The first peer with this id, or |peers|. */
  function Find(peers: seq<Peer>, id: int): (i: nat)
    ensures i <= |peers|
    ensures i < |peers| ==> peers[i].id == id
    ensures forall k :: 0 <= k < i ==> peers[k].id != id
  {
    if peers == [] || peers[0].id == id then 0 else 1 + Find(peers[1..], id)
  }

  /** Those properties determine the place. */
  lemma FindIs(peers: seq<Peer>, id: int, i: nat)
    requires i <= |peers| && (i < |peers| ==> peers[i].id == id)
    requires forall k :: 0 <= k < i ==> peers[k].id != id
    ensures Find(peers, id) == i
  {
  }

  /** The reply goes to whoever asked, if still there. */
  function WithReply(peers: seq<Peer>, m: Message): seq<Peer> {
    var i := Find(peers, m.owner);
    if i == |peers| || ReplyOf(m) == [] then peers
    else peers[i := Enqueued(peers[i], EncodeReply(ReplyOf(m)[0]))]
  }

  /** A message taken from the queue: the handshake answer or a reply. */
  function Process(d: State, m: Message): State {
    var l := d.link.(processingCount := d.link.processingCount - 1);
    if m.body == Locate then d.(link := l.(replyMsgq := m.replyMsgq))
    else d.(link := l, peers := WithReply(d.peers, m))
  }

  function Enqueued(p: Peer, reply: seq<Byte>): Peer {
    p.(out := p.out + [reply])
  }

  // ---- serving the sockets ----

  function Accept(d: State, sck: int): State {
    d.(uniqueId := d.uniqueId + 1, peers := d.peers + [Peer(d.uniqueId + 1, sck, [], [])])
  }

  /**
   What select, recv, send and MSGQ_put do while one peer is visited: whether the socket is
   readable and what it has to read, whether a put succeeds, whether it is writable and how many
   bytes it takes.  Nothing to read and no room stand for the error returns.
   */
  datatype Event = Event(readable: bool, arrived: seq<Byte>, putOk: bool, writable: bool, room: nat)

  /** The peer afterwards, unless it was removed, and the request it got as far as sending. */
  datatype Visited = Visited(kept: seq<Peer>, attempted: seq<Request>)

  /** What recv returns when asked for want bytes. */
  function Got(arrived: seq<Byte>, want: nat): seq<Byte> {
    if |arrived| < want then arrived else arrived[..want]
  }

  /** What recv and the messages it completes amount to; nothing received counts as a rejection. */
  function Reading(got: seq<Byte>, arrived: seq<Byte>): (t: Parsed<Byte, Request>)
    requires Partial(Requests(), got)
    ensures !t.rejected ==> Partial(Requests(), t.rest)
    ensures |t.asked| <= if t.rejected then 0 else 1
  {
    var chunk := Got(arrived, Target(Requests(), got) - |got|);
    if chunk == [] then Parsed([], got, true) else Take(Requests(), got, chunk)
  }

  function ReadPhase(p: Peer, ev: Event): (v: Visited)
    requires ValidPeer(p)
    ensures |v.kept| <= 1 && |v.attempted| <= 1
    ensures v.kept != [] ==> ValidPeer(v.kept[0]) && v.kept[0].id == p.id && v.kept[0].sck == p.sck
    ensures v.kept != [] ==> v.kept[0].out == p.out
  {
    if !ev.readable then Visited([p], [])
    else
      var t := Reading(p.got, ev.arrived);
      if t.rejected || (t.asked != [] && !ev.putOk) then Visited([], t.asked)
      else Visited([p.(got := t.rest)], t.asked)
  }

  /** How many bytes of the first reply go out when send takes up to room. */
  function SentBytes(out: seq<seq<Byte>>, room: nat): (n: nat)
    ensures out != [] ==> n <= |out[0]|
  {
    if out == [] then 0 else if room < |out[0]| then room else |out[0]|
  }

  /** The queue after send took up to room bytes of its first reply. */
  function Remaining(out: seq<seq<Byte>>, room: nat): seq<seq<Byte>> {
    var n := SentBytes(out, room);
    if n == 0 then out
    else if n == |out[0]| then out[1..]
    else out[0 := out[0][n..]]
  }

  /** Partial sends neither lose nor reorder bytes. */
  lemma SentThenRemaining(out: seq<seq<Byte>>, room: nat)
    ensures out != [] ==> out[0][..SentBytes(out, room)] + Flatten(Remaining(out, room)) == Flatten(out)
  {
    if out != [] {
      var n, rest := SentBytes(out, room), Remaining(out, room);
      assert out[0][..n] + out[0][n..] == out[0];
      if 0 < n < |out[0]| {
        assert rest[1..] == out[1..];
        assert out[0][..n] + (out[0][n..] + Flatten(out[1..])) == out[0] + Flatten(out[1..]);
      }
    }
  }

  function WritePhase(p: Peer, ev: Event): (kept: seq<Peer>)
    requires ValidPeer(p)
    ensures |kept| <= 1
    ensures kept != [] ==> ValidPeer(kept[0]) && kept[0].id == p.id && kept[0].sck == p.sck && kept[0].got == p.got
  {
    if !ev.writable then [p]
    else if p.out != [] && ev.room == 0 then []
    else [p.(out := Remaining(p.out, ev.room))]
  }

  function VisitPeer(p: Peer, ev: Event): (v: Visited)
    requires ValidPeer(p)
    ensures |v.kept| <= 1 && |v.attempted| <= 1
    ensures v.kept != [] ==> ValidPeer(v.kept[0]) && v.kept[0].id == p.id && v.kept[0].sck == p.sck
  {
    var v := ReadPhase(p, ev);
    if v.kept == [] then v else v.(kept := WritePhase(v.kept[0], ev))
  }

  function Keep(p: Peer, ev: Event): (kept: seq<Peer>)
    ensures |kept| <= 1
  {
    if ValidPeer(p) then VisitPeer(p, ev).kept else []
  }

  function Forward(l: Link, p: Peer, ev: Event): Link {
    if ValidPeer(p) && VisitPeer(p, ev).attempted != [] then
      SendRequest(l, p.id, VisitPeer(p, ev).attempted[0], ev.putOk)
    else l
  }

  /** peers when peer i is changed or removed. */
  function Edited(peers: seq<Peer>, i: nat, kept: seq<Peer>): seq<Peer>
    requires i < |peers|
  {
    if kept == [] then peers[..i] + peers[i + 1..] else peers[i := kept[0]]
  }

  /** One iteration of the traversal, at peer i. */
  function Serve(d: State, i: nat, ev: Event): State
    requires i < |d.peers|
  {
    State(d.peers[..i] + Keep(d.peers[i], ev) + d.peers[i + 1..], d.uniqueId, Forward(d.link, d.peers[i], ev))
  }

  /** Each peer afterwards is one that was there, the visited one in its new form. */
  lemma ServeOrigin(d: State, i: nat, ev: Event, k: nat) returns (j: nat)
    requires i < |d.peers| && k < |Serve(d, i, ev).peers|
    ensures j < |d.peers|
    ensures j == i ==> Keep(d.peers[i], ev) == [Serve(d, i, ev).peers[k]]
    ensures j != i ==> Serve(d, i, ev).peers[k] == d.peers[j]
  {
    j := if k < i + |Keep(d.peers[i], ev)| then k else k + 1 - |Keep(d.peers[i], ev)|;
  }

  lemma ServeKeepsPeersValid(d: State, i: nat, ev: Event)
    requires ValidPeers(d.peers) && i < |d.peers|
    ensures ValidPeers(Serve(d, i, ev).peers)
  {
    forall p | p in Serve(d, i, ev).peers
      ensures p in d.peers || p in Keep(d.peers[i], ev)
    {
    }
  }

  lemma ServeKeepsValid(d: State, i: nat, ev: Event)
    requires Valid(d) && i < |d.peers|
    ensures Valid(Serve(d, i, ev))
  {
    var kept, e := Keep(d.peers[i], ev), Serve(d, i, ev);
    ServeKeepsPeersValid(d, i, ev);
    forall j | 0 <= j < |e.peers|
      ensures e.peers[j].id == d.peers[if j < i + |kept| then j else j + 1 - |kept|].id
    {
    }
  }

  /** The traversal from peer i on, when the events before k have been used up. */
  function PassFrom(d: State, i: nat, evs: seq<Event>, k: nat): State
    requires k <= |evs| && i + |evs| - k == |d.peers|
    decreases |evs| - k
  {
    if k == |evs| then d else PassFrom(Serve(d, i, evs[k]), i + |Keep(d.peers[i], evs[k])|, evs, k + 1)
  }

  function CheckFds(d: State, evs: seq<Event>): State
    requires |evs| == |d.peers|
  {
    PassFrom(d, 0, evs, 0)
  }

  lemma PassStep(d: State, i: nat, evs: seq<Event>, k: nat, e: State)
    requires k < |evs| && i + |evs| - k == |d.peers| && ValidPeers(d.peers)
    requires e.uniqueId == d.uniqueId && e.link == Forward(d.link, d.peers[i], evs[k])
    requires e.peers == Edited(d.peers, i, Keep(d.peers[i], evs[k]))
    ensures var j := i + |Keep(d.peers[i], evs[k])|;
      && j + |evs| - k - 1 == |e.peers| && ValidPeers(e.peers)
      && PassFrom(e, j, evs, k + 1) == PassFrom(d, i, evs, k)
  {
    assert e.peers == Serve(d, i, evs[k]).peers;
    ServeKeepsPeersValid(d, i, evs[k]);
  }

  /** What is left of the peers when each is visited on its own, from place n on. */
  function Survivors(peers: seq<Peer>, evs: seq<Event>, n: nat): seq<Peer>
    requires |peers| == |evs| && n <= |evs|
    decreases |evs| - n
  {
    if n == |evs| then [] else Keep(peers[n], evs[n]) + Survivors(peers, evs, n + 1)
  }

  /** What forwarding the requests of each peer in turn makes of the link. */
  function Forwarded(l: Link, peers: seq<Peer>, evs: seq<Event>, n: nat): Link
    requires |peers| == |evs| && n <= |evs|
    decreases |evs| - n
  {
    if n == |evs| then l else Forwarded(Forward(l, peers[n], evs[n]), peers, evs, n + 1)
  }

  /**
   What p says of the state, the place in the list and the number of visits made holds before each visit
   and after it.
   */
  ghost predicate Kept(p: (State, nat, nat) -> bool, evs: seq<Event>) {
    && (forall d: State, i: nat, k: nat :: p(d, i, k) && k < |evs| ==> i < |d.peers|)
    && (forall d: State, i: nat, k: nat {:trigger Serve(d, i, evs[k])} ::
          k < |evs| && i < |d.peers| && p(d, i, k) ==> p(Serve(d, i, evs[k]), i + |Keep(d.peers[i], evs[k])|, k + 1))
  }

  lemma PassKept(p: (State, nat, nat) -> bool, evs: seq<Event>, goal: State)
    requires forall d: State, i: nat, k: nat ::
      p(d, i, k) <==> k <= |evs| && i + |evs| - k == |d.peers| && PassFrom(d, i, evs, k) == goal
    ensures Kept(p, evs)
  {
    forall d: State, i: nat, k: nat | k < |evs| && i < |d.peers| && p(d, i, k)
      ensures p(Serve(d, i, evs[k]), i + |Keep(d.peers[i], evs[k])|, k + 1)
    {
      PassFromKept(d, i, evs, k, goal);
    }
  }

  lemma PassFromKept(d: State, i: nat, evs: seq<Event>, k: nat, goal: State)
    requires k < |evs| && i + |evs| - k == |d.peers| && goal == PassFrom(d, i, evs, k)
    ensures i + |Keep(d.peers[i], evs[k])| + |evs| - (k + 1) == |Serve(d, i, evs[k]).peers|
    ensures goal == PassFrom(Serve(d, i, evs[k]), i + |Keep(d.peers[i], evs[k])|, evs, k + 1)
  {
  }

  /**
   Editing the list while walking it visits every original peer exactly once, in order: what is
   left and what was sent are what visiting each peer on its own would give.
   */
  lemma CheckFdsVisitsEachOnce(d: State, evs: seq<Event>)
    requires |evs| == |d.peers|
    ensures CheckFds(d, evs) == State(Survivors(d.peers, evs, 0), d.uniqueId, Forwarded(d.link, d.peers, evs, 0))
  {
    var goal := CheckFds(d, evs);
    var p := (e: State, i: nat, k: nat) => k <= |evs| && i + |evs| - k == |e.peers| && PassFrom(e, i, evs, k) == goal;
    PassKept(p, evs, goal);
    var end := PassEnds(d, evs, p);
    PassOver(p, evs, goal, end);
  }

  /** A pass keeps what p says up to the state of separate visits. */
  lemma PassEnds(d: State, evs: seq<Event>, p: (State, nat, nat) -> bool) returns (end: State)
    requires |evs| == |d.peers| && Kept(p, evs) && p(d, 0, 0)
    ensures end == State(Survivors(d.peers, evs, 0), d.uniqueId, Forwarded(d.link, d.peers, evs, 0))
    ensures p(end, |end.peers|, |evs|)
  {
    var left, link := Survivors(d.peers, evs, 0), Forwarded(d.link, d.peers, evs, 0);
    assert d.peers == [] + d.peers[0..];
    RestOfPass(d, [], d.peers, evs, 0, p, left, link);
    assert [] + left == left;
    end := State(left, d.uniqueId, link);
  }

  lemma PassOver(p: (State, nat, nat) -> bool, evs: seq<Event>, goal: State, end: State)
    requires forall d: State, i: nat, k: nat ::
      p(d, i, k) <==> k <= |evs| && i + |evs| - k == |d.peers| && PassFrom(d, i, evs, k) == goal
    requires p(end, |end.peers|, |evs|)
    ensures end == goal
  {
  }

  /** With the survivors so far in done, the rest of the original list is still to come. */
  lemma {:induction false} RestOfPass(d: State, done: seq<Peer>, peers: seq<Peer>, evs: seq<Event>, n: nat,
    p: (State, nat, nat) -> bool, left: seq<Peer>, link: Link)
    requires |peers| == |evs| && n <= |evs| && d.peers == done + peers[n..] && Kept(p, evs) && p(d, |done|, n)
    requires left == Survivors(peers, evs, n) && link == Forwarded(d.link, peers, evs, n)
    ensures p(State(done + left, d.uniqueId, link), |done + left|, |evs|)
    decreases |evs| - n
  {
    if n == |evs| {
      assert done + [] == done;
      assert d == State(done, d.uniqueId, d.link);
    } else {
      var e, kept := OneVisit(d, done, peers, evs, n, p);
      var later := Survivors(peers, evs, n + 1);
      RestOfPass(e, done + kept, peers, evs, n + 1, p, later, link);
      Assoc(done, kept, later);
    }
  }

  /** The visit of one peer, seen from the state after it. */
  lemma OneVisit(d: State, done: seq<Peer>, peers: seq<Peer>, evs: seq<Event>, n: nat, p: (State, nat, nat) -> bool)
    returns (e: State, kept: seq<Peer>)
    requires |peers| == |evs| && n < |evs| && d.peers == done + peers[n..] && Kept(p, evs) && p(d, |done|, n)
    ensures e.peers == (done + kept) + peers[n + 1..] && e.uniqueId == d.uniqueId
    ensures kept == Keep(peers[n], evs[n]) && e.link == Forward(d.link, peers[n], evs[n])
    ensures p(e, |done + kept|, n + 1)
  {
    assert d.peers[|done|] == peers[n];
    e, kept := Serve(d, |done|, evs[n]), Keep(peers[n], evs[n]);
    MoveOver(done, peers, n, kept);
  }

  lemma Assoc<T>(a: seq<T>, b: seq<T>, c: seq<T>)
    ensures (a + b) + c == a + (b + c)
  {
  }

  lemma MoveOver<T>(done: seq<T>, list: seq<T>, n: nat, kept: seq<T>)
    requires n < |list|
    ensures var all := done + list[n..];
      && all[|done|] == list[n]
      && all[..|done|] + kept + all[|done| + 1..] == (done + kept) + list[n + 1..]
  {
    var all := done + list[n..];
    assert all[..|done|] == done && all[|done| + 1..] == list[n + 1..];
  }

  // ---- the main loop ----

  /** The three branches of dspmain_loop. */
  datatype Turn = ServeSockets | AwaitMessage | SleepInSelect

  function ChooseTurn(ready: bool, processingCount: int): Turn {
    if ready then ServeSockets else if processingCount > 0 then AwaitMessage else SleepInSelect
  }

  function ProcessAll(d: State, ms: seq<Message>): State
    decreases |ms|
  {
    if ms == [] then d else ProcessAll(Process(d, ms[0]), ms[1..])
  }

  function AcceptAny(d: State, accepted: seq<int>): State {
    if accepted == [] then d else Accept(d, accepted[0])
  }

  /**
   One turn: sockets are served and all messages waiting are taken, or one message is waited for, or
   nothing happens before a socket is ready.
   */
  function AfterTurn(d: State, turn: Turn, accepted: seq<int>, evs: seq<Event>, ms: seq<Message>): State
    requires turn.ServeSockets? ==> |evs| == |AcceptAny(d, accepted).peers|
  {
    match turn
    case ServeSockets => ProcessAll(CheckFds(AcceptAny(d, accepted), evs), ms)
    case AwaitMessage => if ms == [] then d else Process(d, ms[0])
    case SleepInSelect => d
  }

  // ---- the other steps keep the list in order too ----

  lemma AcceptKeepsValid(d: State, sck: int)
    requires Valid(d)
    ensures Valid(Accept(d, sck))
  {
  }

  lemma ProcessKeepsValid(d: State, m: Message)
    requires Valid(d)
    ensures Valid(Process(d, m))
  {
    var e := Process(d, m);
    forall p | p in e.peers
      ensures ValidPeer(p)
    {
      var k :| 0 <= k < |e.peers| && e.peers[k] == p;
      assert d.peers[k] in d.peers;
    }
  }

  /** At most one peer has an id, so the traversal in process_mymsg finds the peer or there is none. */
  lemma FindIsUnique(d: State, i: nat)
    requires Valid(d) && i < |d.peers|
    ensures Find(d.peers, d.peers[i].id) == i
  {
  }
}
