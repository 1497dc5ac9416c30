/**
 The whole service as a transition system: clients on sockets, the daemon, the two message queues and
 the DSP task.  Every step is one thing one party does; the parties interleave freely.  The fields
 after stopped are history: what a step does never depends on them.
 */
module Protocol {
  import opened Framing
  import opened Wire
  import opened Daemon
  import opened Pipeline
  import opened DspTask

  /** Before the handshake, during it, in the main loop, and after it. */
  datatype Phase = Booting | Handshaking | Looping | Stopped

  /**
   held: the message the DSP task works on; parked: the handshake request while the DSP looks for the
   reply queue; asked: every message allocated, by sequence number; freed: the sequence numbers given
   back to the pool; lost: those the DSP failed to put; replied: the answers queued to a peer; sent and
   heard: the bytes each peer has been sent and has been heard to say; computed: what the DSP came to,
   by sequence number, and the situation it was in.
   */
  datatype System = System(
    d: State, phase: Phase, held: seq<Message>, parked: seq<Message>, toGpp: seq<Message>, stopped: bool,
    asked: seq<Message>, freed: multiset<int>, lost: seq<int>, replied: seq<Message>,
    sent: map<int, seq<Byte>>, heard: map<int, seq<Byte>>, computed: map<int, Computation>)

  datatype Computation = Computation(crc: Int32, at: Situation)

  const START :=
    System(State([], 0, Link(0, 0, 0, [])), Booting, [], [], [], false, [], multiset{}, [], [], map[], map[], map[])

  datatype Step =
    | Boot(bootOk: bool)
    | Get
    | Connect(sck: int)
    | Service(i: nat, ev: Event)
    | Terminate(stopOk: bool)
    | DspGet
    | DspFinish(at: Situation, finishOk: bool)
    | Located(handle: int, locateOk: bool)

  predicate Enabled(s: System, step: Step) {
    match step
    case Boot(_) => s.phase == Booting
    case Get => (s.phase == Handshaking || s.phase == Looping) && s.toGpp != []
    case Connect(_) => s.phase == Looping
    case Service(i, _) => s.phase == Looping && i < |s.d.peers|
    case Terminate(_) => s.phase == Looping
    case DspGet => !s.stopped && s.held == [] && s.d.link.toDsp != []
    case DspFinish(_, _) => s.held != []
    case Located(handle, _) => !s.stopped && s.held == [] && s.parked != [] && handle != 0
  }

  // ---- the DSP ----

  /** What the DSP comes to in a given situation. */
  function Compute(at: Situation, m: Message): Computation {
    Computation(ComputedCrc(at, m.body), at)
  }

  /** MSGQ_put of an answer: it is on its way, or freed and lost. */
  function Put(s: System, m: Message, putOk: bool): System {
    if putOk then s.(toGpp := s.toGpp + [m])
    else s.(freed := s.freed + multiset{m.sequence}, lost := s.lost + [m.sequence])
  }

  /** process_MSGQ_MYMSGID */
  function Finish(s: System, m: Message, c: Computation, putOk: bool): System {
    var t := s.(held := []);
    match m.body
    case Locate => t.(parked := t.parked + [m])
    case Shutdown => t.(stopped := true, freed := t.freed + multiset{m.sequence})
    case _ => Put(t.(computed := t.computed[m.sequence := c]), Answer(m, c.crc), putOk && m.replyMsgq != 0)
  }

  // ---- the daemon ----

  /** A message allocated by the daemon, put on the queue or freed at once. */
  function Issue(s: System, m: Message, counted: bool, putOk: bool): System
    requires m.sequence == s.d.link.sequence
  {
    s.(d := s.d.(link := Send(s.d.link, m.owner, m.cookie, m.replyMsgq, m.body, counted, putOk)),
       asked := s.asked + [m],
       freed := if putOk then s.freed else s.freed + multiset{m.sequence})
  }

  function RequestMessage(l: Link, owner: int, r: Request): Message {
    Message(l.sequence, l.replyMsgq, owner, r.sequence, BodyOf(r))
  }

  /** Whether the answer m goes to a peer that is still there. */
  predicate Routed(d: State, m: Message) {
    ReplyOf(m) != [] && Find(d.peers, m.owner) < |d.peers|
  }

  /** MSGQ_get and process_mymsg. */
  function Taken(s: System, m: Message, rest: seq<Message>): System {
    var d := Process(s.d, m);
    s.(d := d, toGpp := rest, freed := s.freed + multiset{m.sequence},
       phase := if s.phase == Handshaking && d.link.replyMsgq != 0 then Looping else s.phase,
       replied := if Routed(s.d, m) then s.replied + [m] else s.replied)
  }

  /** The bytes that go out while p is visited. */
  function Outgoing(p: Peer, ev: Event): seq<Byte> {
    if !ValidPeer(p) || ReadPhase(p, ev).kept == [] || !ev.writable || p.out == [] then []
    else p.out[0][..SentBytes(p.out, ev.room)]
  }

  /** The bytes that come in. */
  function Incoming(p: Peer, ev: Event): seq<Byte> {
    if ValidPeer(p) && ev.readable then Got(ev.arrived, Target(Requests(), p.got) - |p.got|) else []
  }

  function Extended(history: map<int, seq<Byte>>, id: int, more: seq<Byte>): map<int, seq<Byte>> {
    if id in history then history[id := history[id] + more] else history
  }

  function Attempted(p: Peer, ev: Event): seq<Request> {
    if ValidPeer(p) then VisitPeer(p, ev).attempted else []
  }

  function AfterRequests(s: System, p: Peer, attempted: seq<Request>, putOk: bool): System {
    if attempted == [] then s else Issue(s, RequestMessage(s.d.link, p.id, attempted[0]), true, putOk)
  }

  function AfterVisit(s: System, i: nat, ev: Event): System
    requires i < |s.d.peers|
  {
    var p := s.d.peers[i];
    var t := AfterRequests(s, p, Attempted(p, ev), ev.putOk);
    t.(d := t.d.(peers := Serve(s.d, i, ev).peers),
       sent := Extended(s.sent, p.id, Outgoing(p, ev)),
       heard := Extended(s.heard, p.id, Incoming(p, ev)))
  }

  /** The daemon's part of the step is the traversal's. */
  lemma VisitedIsServe(s: System, i: nat, ev: Event)
    requires i < |s.d.peers|
    ensures AfterVisit(s, i, ev).d == Serve(s.d, i, ev)
  {
  }

  function Next(s: System, step: Step): System
    requires Enabled(s, step)
  {
    match step
    case Boot(ok) =>
      Issue(s, Message(s.d.link.sequence, 0, 0, 0, Locate), true, ok).(phase := if ok then Handshaking else Stopped)
    case Get => Taken(s, s.toGpp[0], s.toGpp[1..])
    case Connect(sck) =>
      s.(d := Accept(s.d, sck), sent := s.sent[s.d.uniqueId + 1 := []], heard := s.heard[s.d.uniqueId + 1 := []])
    case Service(i, ev) => AfterVisit(s, i, ev)
    case Terminate(ok) =>
      Issue(s, Message(s.d.link.sequence, s.d.link.replyMsgq, 0, 0, Shutdown), false, ok).(phase := Stopped)
    case DspGet =>
      s.(held := [s.d.link.toDsp[0]], d := s.d.(link := s.d.link.(toDsp := s.d.link.toDsp[1..])))
    case DspFinish(at, ok) => Finish(s, s.held[0], Compute(at, s.held[0]), ok)
    case Located(handle, ok) => Put(s.(parked := []), s.parked[0].(replyMsgq := handle), ok)
  }

  // ---- the messages of a state ----

  /** The messages in use, oldest first. */
  function Pipe(s: System): seq<Message> {
    s.toGpp + s.held + s.parked + s.d.link.toDsp
  }

  // ---- accounts: the counter, the pool and the order of messages ----

  predicate Accounts(s: System) {
    && Balanced(s.d.link.processingCount, Pipe(s), |s.lost|, s.freed, s.d.link.sequence, s.replied)
    && |s.asked| == s.d.link.sequence
  }

  lemma IssueKeepsAccounts(s: System, m: Message, counted: bool, putOk: bool)
    requires Accounts(s) && m.sequence == s.d.link.sequence && (counted <==> m.body != Shutdown)
    ensures Accounts(Issue(s, m, counted, putOk))
    ensures Pipe(Issue(s, m, counted, putOk)) == Pipe(s) + if putOk then [m] else []
  {
    IssuePipe(s, m, counted, putOk);
    IssuedAccounts(s, Issue(s, m, counted, putOk), m, putOk);
  }

  lemma IssuedAccounts(s: System, t: System, m: Message, putOk: bool)
    requires Accounts(s) && m.sequence == s.d.link.sequence
    requires Pipe(t) == Pipe(s) + if putOk then [m] else []
    requires t.d.link.processingCount == s.d.link.processingCount + if putOk && m.body != Shutdown then 1 else 0
    requires t.d.link.sequence == s.d.link.sequence + 1 && t.asked == s.asked + [m]
    requires t.lost == s.lost && t.replied == s.replied
    requires t.freed == if putOk then s.freed else s.freed + multiset{m.sequence}
    ensures Accounts(t)
  {
    BalancedIssue(s.d.link.processingCount, Pipe(s), |s.lost|, s.freed, s.d.link.sequence, s.replied, m, putOk);
    assert Pipe(s) + [] == Pipe(s);
  }

  lemma IssuePipe(s: System, m: Message, counted: bool, putOk: bool)
    requires m.sequence == s.d.link.sequence
    ensures Pipe(Issue(s, m, counted, putOk)) == Pipe(s) + if putOk then [m] else []
  {
    assert Message(s.d.link.sequence, m.replyMsgq, m.owner, m.cookie, m.body) == m;
  }

  /** The DSP replaces the message it works on by its answer, or loses it. */
  lemma PutKeepsAccounts(s: System, t: System, m: Message, answer: Message, rest: seq<Message>, putOk: bool)
    requires Accounts(s) && Pipe(s) == s.toGpp + [m] + rest
    requires t.d == s.d && t.toGpp == s.toGpp && t.freed == s.freed && t.lost == s.lost
    requires t.replied == s.replied && t.asked == s.asked
    requires t.held + t.parked + s.d.link.toDsp == rest
    requires answer.sequence == m.sequence && answer.body != Shutdown && m.body != Shutdown
    ensures Accounts(Put(t, answer, putOk))
    ensures Pipe(Put(t, answer, putOk)) == if putOk then s.toGpp + [answer] + rest else s.toGpp + rest
  {
    BalancedAnswer(s.d.link.processingCount, s.toGpp, m, answer, rest, |s.lost|, s.freed, s.d.link.sequence, s.replied);
    PutPipe(t, answer, rest, putOk);
  }

  lemma PutPipe(t: System, answer: Message, rest: seq<Message>, putOk: bool)
    requires t.held + t.parked + t.d.link.toDsp == rest
    ensures Pipe(Put(t, answer, putOk)) == if putOk then t.toGpp + [answer] + rest else t.toGpp + rest
  {
    var u := Put(t, answer, putOk);
    assert Pipe(u) == u.toGpp + rest;
  }

  lemma TakenKeepsAccounts(s: System, m: Message, rest: seq<Message>)
    requires Accounts(s) && s.toGpp == [m] + rest && m.body != Shutdown
    ensures Accounts(Taken(s, m, rest))
    ensures Pipe(s) == [m] + Pipe(Taken(s, m, rest))
  {
    TakenPipe(s, m, rest);
    BalancedTake(s.d.link.processingCount, m, Pipe(Taken(s, m, rest)), |s.lost|, s.freed, s.d.link.sequence, s.replied);
  }

  lemma TakenPipe(s: System, m: Message, rest: seq<Message>)
    requires s.toGpp == [m] + rest
    ensures Pipe(s) == [m] + Pipe(Taken(s, m, rest))
  {
    var t := Taken(s, m, rest);
    assert t.held == s.held && t.parked == s.parked && t.d.link.toDsp == s.d.link.toDsp;
  }

  /** Nothing about the messages changes. */
  lemma SamePipeKeepsAccounts(s: System, t: System)
    requires Accounts(s) && Pipe(t) == Pipe(s) && t.lost == s.lost && t.freed == s.freed
    requires t.replied == s.replied && t.asked == s.asked
    requires t.d.link.processingCount == s.d.link.processingCount && t.d.link.sequence == s.d.link.sequence
    ensures Accounts(t)
  {
  }

  // ---- phases: nothing but the handshake before the reply queue is known ----

  predicate Handshake(ms: seq<Message>) {
    |ms| <= 1 && forall m :: m in ms ==> m.body == Locate
  }

  predicate Working(ms: seq<Message>) {
    forall m :: m in ms ==> m.body != Locate && m.replyMsgq != 0
  }

  predicate NoShutdown(ms: seq<Message>) {
    forall m :: m in ms ==> m.body != Shutdown
  }

  predicate Phases(s: System) {
    && |s.held| <= 1 && |s.parked| <= 1
    && (forall m :: m in s.toGpp ==> m.replyMsgq != 0 && m.body != Shutdown)
    && (s.phase == Booting ==>
          Pipe(s) == [] && s.asked == [] && s.d.peers == [] && !s.stopped && s.d.link.replyMsgq == 0)
    && (s.phase == Handshaking ==> Handshake(Pipe(s)) && s.d.peers == [] && !s.stopped && s.d.link.replyMsgq == 0)
    && (s.phase == Looping || s.phase == Stopped ==> s.parked == [] && Working(Pipe(s)))
    && (s.phase == Looping ==> NoShutdown(Pipe(s)) && !s.stopped && s.d.link.replyMsgq != 0)
  }

  /** Where the message the DSP works on, or looks up a queue for, stands among the others. */
  lemma HeldPlace(s: System)
    requires Phases(s)
    ensures s.held != [] ==> Pipe(s) == s.toGpp + [s.held[0]] + (s.parked + s.d.link.toDsp)
    ensures s.held == [] && s.parked != [] ==> Pipe(s) == s.toGpp + [s.parked[0]] + s.d.link.toDsp
  {
    if s.held != [] {
      assert s.held == [s.held[0]];
      assert Pipe(s) == s.toGpp + [s.held[0]] + (s.parked + s.d.link.toDsp);
    } else if s.parked != [] {
      assert s.parked == [s.parked[0]];
    }
  }

  /** Only one handshake request exists, and nothing else does before it is answered. */
  lemma HandshakeAlone(s: System)
    requires Phases(s)
    ensures s.held != [] && s.held[0].body == Locate ==>
      s.toGpp == [] && s.parked == [] && s.d.link.toDsp == [] && s.phase == Handshaking
    ensures s.parked != [] ==> s.toGpp == [] && s.held == [] && s.d.link.toDsp == [] && s.phase == Handshaking
    ensures s.phase == Handshaking && s.toGpp != [] ==>
      s.toGpp[0].body == Locate && s.held == [] && s.d.link.toDsp == []
  {
    if s.held != [] && s.held[0].body == Locate {
      assert s.held[0] in Pipe(s);
    }
    if s.phase == Handshaking && s.toGpp != [] {
      assert s.toGpp[0] in Pipe(s);
    }
  }

  lemma DspGetPipe(s: System)
    requires Phases(s) && Enabled(s, DspGet)
    ensures Pipe(Next(s, DspGet)) == Pipe(s)
  {
    HandshakeAlone(s);
    var q := s.d.link.toDsp;
    assert q == [q[0]] + q[1..];
  }

  /** What is left of a message when the DSP is done with it. */
  function Remains(m: Message, c: Computation, putOk: bool): seq<Message> {
    if m.body == Locate then [m]
    else if m.body == Shutdown || !putOk || m.replyMsgq == 0 then []
    else [Answer(m, c.crc)]
  }

  lemma FinishLocate(s: System, c: Computation, putOk: bool)
    requires Accounts(s) && Phases(s) && s.held != [] && s.held[0].body == Locate
    ensures Accounts(Finish(s, s.held[0], c, putOk))
    ensures Pipe(Finish(s, s.held[0], c, putOk)) == Pipe(s)
  {
    HandshakeAlone(s);
    assert s.held == [s.held[0]] && s.parked == [];
    assert s.parked + s.held == s.held;
    SamePipeKeepsAccounts(s, Finish(s, s.held[0], c, putOk));
  }

  lemma FinishShutdown(s: System, c: Computation, putOk: bool)
    requires Accounts(s) && s.held != [] && s.held[0].body == Shutdown
    requires Pipe(s) == s.toGpp + [s.held[0]] + (s.parked + s.d.link.toDsp)
    ensures Accounts(Finish(s, s.held[0], c, putOk))
    ensures Pipe(Finish(s, s.held[0], c, putOk)) == s.toGpp + [] + (s.parked + s.d.link.toDsp)
  {
    var m, rest := s.held[0], s.parked + s.d.link.toDsp;
    BalancedShutdown(s.d.link.processingCount, s.toGpp, m, rest, |s.lost|, s.freed, s.d.link.sequence, s.replied);
    assert Pipe(Finish(s, m, c, putOk)) == s.toGpp + rest;
    assert s.toGpp + [] + rest == s.toGpp + rest;
  }

  lemma FinishKeepsAccounts(s: System, c: Computation, putOk: bool)
    requires Accounts(s) && Phases(s) && s.held != []
    ensures Accounts(Finish(s, s.held[0], c, putOk))
    ensures var rest := s.parked + s.d.link.toDsp;
      && Pipe(s) == s.toGpp + [s.held[0]] + rest
      && Pipe(Finish(s, s.held[0], c, putOk)) == s.toGpp + Remains(s.held[0], c, putOk) + rest
  {
    HeldPlace(s);
    var m, rest := s.held[0], s.parked + s.d.link.toDsp;
    if m.body == Locate {
      FinishLocate(s, c, putOk);
    } else if m.body == Shutdown {
      FinishShutdown(s, c, putOk);
    } else {
      assert s.toGpp + [] + rest == s.toGpp + rest;
      var t := s.(held := [], computed := s.computed[m.sequence := c]);
      PutKeepsAccounts(s, t, m, Answer(m, c.crc), rest, putOk && m.replyMsgq != 0);
    }
  }

  lemma LocatedKeepsAccounts(s: System, handle: int, putOk: bool)
    requires Accounts(s) && Phases(s) && s.held == [] && s.parked != []
    ensures var m := s.parked[0].(replyMsgq := handle);
      var t := Put(s.(parked := []), m, putOk);
      && Accounts(t) && Pipe(t) == if putOk then [m] else []
  {
    HeldPlace(s);
    HandshakeAlone(s);
    assert s.parked[0] in Pipe(s);
    PutKeepsAccounts(s, s.(parked := []), s.parked[0], s.parked[0].(replyMsgq := handle), [], putOk);
  }

  lemma RequestsKeepAccounts(s: System, p: Peer, attempted: seq<Request>, putOk: bool)
    requires Accounts(s)
    ensures Accounts(AfterRequests(s, p, attempted, putOk))
    ensures Pipe(AfterRequests(s, p, attempted, putOk))
         == Pipe(s) + if attempted != [] && putOk then [RequestMessage(s.d.link, p.id, attempted[0])] else []
  {
    if attempted != [] {
      IssueKeepsAccounts(s, RequestMessage(s.d.link, p.id, attempted[0]), true, putOk);
    } else {
      assert Pipe(s) + [] == Pipe(s);
    }
  }

  lemma StepKeepsAccounts(s: System, step: Step)
    requires Accounts(s) && Phases(s) && Enabled(s, step)
    ensures Accounts(Next(s, step))
  {
    match step
    case Boot(ok) =>
      IssueKeepsAccounts(s, Message(s.d.link.sequence, 0, 0, 0, Locate), true, ok);
    case Get =>
      assert s.toGpp == [s.toGpp[0]] + s.toGpp[1..];
      TakenKeepsAccounts(s, s.toGpp[0], s.toGpp[1..]);
    case Connect(sck) =>
      SamePipeKeepsAccounts(s, Next(s, step));
    case Service(i, ev) =>
        RequestsKeepAccounts(s, s.d.peers[i], Attempted(s.d.peers[i], ev), ev.putOk);
      SamePipeKeepsAccounts(AfterRequests(s, s.d.peers[i], Attempted(s.d.peers[i], ev), ev.putOk), Next(s, step));
    case Terminate(ok) =>
      IssueKeepsAccounts(s, Message(s.d.link.sequence, s.d.link.replyMsgq, 0, 0, Shutdown), false, ok);
    case DspGet =>
      DspGetPipe(s);
      SamePipeKeepsAccounts(s, Next(s, step));
    case DspFinish(at, ok) =>
      FinishKeepsAccounts(s, Compute(at, s.held[0]), ok);
    case Located(handle, ok) =>
      LocatedKeepsAccounts(s, handle, ok);
  }

  predicate OfDsp(step: Step) {
    step.DspGet? || step.DspFinish? || step.Located?
  }

  /** Messages that stay, and answers, keep a running or stopped service as it should be. */
  lemma WorkingBy(was: seq<Message>, now: seq<Message>, extra: seq<Message>)
    requires Working(was) && forall m :: m in now ==> m in was || m in extra
    requires Working(extra) && NoShutdown(extra)
    ensures Working(now) && (NoShutdown(was) ==> NoShutdown(now))
  {
  }

  lemma FinishWorkKeepsPhases(s: System, c: Computation, ok: bool)
    requires Accounts(s) && Phases(s) && s.held != [] && s.held[0].body != Locate
    ensures Phases(Finish(s, s.held[0], c, ok))
  {
    var m, t := s.held[0], Finish(s, s.held[0], c, ok);
    assert m in Pipe(s);
    assert s.phase == Looping || s.phase == Stopped;
    FinishKeepsAccounts(s, c, ok);
    WorkingBy(Pipe(s), Pipe(t), if m.body == Shutdown then [] else [Answer(m, c.crc)]);
  }

  lemma FinishKeepsPhases(s: System, c: Computation, ok: bool)
    requires Accounts(s) && Phases(s) && s.held != []
    ensures Phases(Finish(s, s.held[0], c, ok))
  {
    if s.held[0].body == Locate {
      HandshakeAlone(s);
      FinishKeepsAccounts(s, c, ok);
    } else {
      FinishWorkKeepsPhases(s, c, ok);
    }
  }

  lemma LocatedKeepsPhases(s: System, handle: int, ok: bool)
    requires Accounts(s) && Phases(s) && Enabled(s, Located(handle, ok))
    ensures Phases(Next(s, Located(handle, ok)))
  {
    HandshakeAlone(s);
    LocatedKeepsAccounts(s, handle, ok);
  }

  lemma DspKeepsPhases(s: System, step: Step)
    requires Accounts(s) && Phases(s) && Enabled(s, step) && OfDsp(step)
    ensures Phases(Next(s, step))
  {
    match step
    case DspGet =>
      HandshakeAlone(s);
      DspGetPipe(s);
    case DspFinish(at, ok) => FinishKeepsPhases(s, Compute(at, s.held[0]), ok);
    case Located(handle, ok) => LocatedKeepsPhases(s, handle, ok);
  }

  lemma BootKeepsPhases(s: System, ok: bool)
    requires Accounts(s) && Phases(s) && Enabled(s, Boot(ok))
    ensures Phases(Next(s, Boot(ok)))
  {
    IssuePipe(s, Message(s.d.link.sequence, 0, 0, 0, Locate), true, ok);
  }

  lemma GetKeepsPhases(s: System)
    requires Accounts(s) && Phases(s) && Enabled(s, Get)
    ensures Phases(Next(s, Get))
  {
    HandshakeAlone(s);
    assert s.toGpp == [s.toGpp[0]] + s.toGpp[1..];
    TakenPipe(s, s.toGpp[0], s.toGpp[1..]);
    if s.phase == Handshaking {
      assert Pipe(Next(s, Get)) == [];
    } else {
      assert s.toGpp[0] in Pipe(s);
    }
  }

  lemma ServiceKeepsPhases(s: System, i: nat, ev: Event)
    requires Accounts(s) && Phases(s) && Enabled(s, Service(i, ev))
    ensures Phases(Next(s, Service(i, ev)))
  {
    RequestsKeepAccounts(s, s.d.peers[i], Attempted(s.d.peers[i], ev), ev.putOk);
  }

  lemma TerminateKeepsPhases(s: System, ok: bool)
    requires Accounts(s) && Phases(s) && Enabled(s, Terminate(ok))
    ensures Phases(Next(s, Terminate(ok)))
  {
    IssuePipe(s, Message(s.d.link.sequence, s.d.link.replyMsgq, 0, 0, Shutdown), false, ok);
  }

  lemma DaemonKeepsPhases(s: System, step: Step)
    requires Accounts(s) && Phases(s) && Enabled(s, step) && !OfDsp(step)
    ensures Phases(Next(s, step))
  {
    match step
    case Boot(ok) => BootKeepsPhases(s, ok);
    case Get => GetKeepsPhases(s);
    case Connect(sck) => assert Pipe(Next(s, step)) == Pipe(s);
    case Service(i, ev) => ServiceKeepsPhases(s, i, ev);
    case Terminate(ok) => TerminateKeepsPhases(s, ok);
  }

  lemma StepKeepsPhases(s: System, step: Step)
    requires Accounts(s) && Phases(s) && Enabled(s, step)
    ensures Phases(Next(s, step))
  {
    if OfDsp(step) {
      DspKeepsPhases(s, step);
    } else {
      DaemonKeepsPhases(s, step);
    }
  }

  // ---- routing: answers go to whoever asked, unchanged and in order ----

  /** m is the message that was sent, perhaps with its answer filled in. */
  predicate Same(sent: Message, m: Message) {
    && sent.sequence == m.sequence && sent.owner == m.owner && sent.cookie == m.cookie
    && match sent.body
       case Product(x, y, _) => m.body.Product? && m.body.x == x && m.body.y == y
       case Checksum(addr, format, width, height, strideBytes, _) =>
         && m.body.Checksum? && m.body.addr == addr && m.body.format == format
         && m.body.width == width && m.body.height == height && m.body.strideBytes == strideBytes
       case _ => m.body == sent.body
  }

  /** A product is that of its factors, a checksum the one the DSP came to. */
  predicate Answered(computed: map<int, Computation>, m: Message) {
    && (ReplyOf(m) != [] ==> m.sequence in computed)
    && (m.body.Product? ==> m.body.z == Truncated(m.body.x * m.body.y))
    && (m.body.Checksum? ==> computed[m.sequence].crc == m.body.crc)
  }

  predicate InLog(asked: seq<Message>, m: Message) {
    m.sequence < |asked| && Same(asked[m.sequence], m)
  }

  /** Every message in use or replied to is the one logged under its number; answers are answers. */
  predicate Faithful(s: System) {
    && (forall m :: m in s.replied + Pipe(s) ==> InLog(s.asked, m))
    && (forall m :: m in s.replied + s.toGpp ==> Answered(s.computed, m))
    && (forall m :: m in s.replied ==> ReplyOf(m) != [])
    && (forall k :: 0 <= k < |s.asked| ==> s.asked[k].sequence == k && s.asked[k].owner <= s.d.uniqueId)
    && (forall k :: 0 <= k < |s.asked| && ReplyOf(s.asked[k]) == [] ==> s.asked[k].owner == 0)
  }

  lemma LogGrows(asked: seq<Message>, m: Message, ms: seq<Message>)
    requires forall x :: x in ms ==> InLog(asked, x)
    requires m.sequence == |asked|
    ensures forall x :: x in ms + [m] ==> InLog(asked + [m], x)
  {
    forall x | x in ms + [m]
      ensures InLog(asked + [m], x)
    {
      if x in ms {
        assert InLog(asked, x);
      }
    }
  }

  lemma IssueKeepsFaithful(s: System, m: Message, counted: bool, putOk: bool)
    requires Accounts(s) && Faithful(s) && m.sequence == s.d.link.sequence && m.owner <= s.d.uniqueId
    requires ReplyOf(m) == [] ==> m.owner == 0
    ensures Faithful(Issue(s, m, counted, putOk))
  {
    var t := Issue(s, m, counted, putOk);
    IssuePipe(s, m, counted, putOk);
    LogGrows(s.asked, m, s.replied + Pipe(s));
    forall x | x in t.replied + Pipe(t)
      ensures x in (s.replied + Pipe(s)) + [m]
    {
    }
  }

  /** Messages that stay, and answers to messages that were there, keep the log right. */
  lemma FaithfulBy(s: System, t: System, extra: seq<Message>)
    requires Faithful(s) && t.asked == s.asked && t.d.uniqueId >= s.d.uniqueId
    requires forall m :: m in Pipe(t) ==> m in Pipe(s) || m in extra
    requires forall m :: m in t.toGpp ==> m in s.toGpp || m in extra
    requires forall m :: m in t.replied ==> m in s.replied || (m in s.toGpp && ReplyOf(m) != [])
    requires forall m :: m in extra ==> InLog(s.asked, m) && Answered(t.computed, m)
    requires forall m :: m in s.replied + s.toGpp ==> Answered(t.computed, m)
    ensures Faithful(t)
  {
  }

  lemma AnswerInLog(asked: seq<Message>, m: Message, c: Computation)
    requires InLog(asked, m)
    ensures InLog(asked, Answer(m, c.crc)) && Answered(map[m.sequence := c], Answer(m, c.crc))
  {
  }

  /** Answers on their way or delivered are older than the message the DSP works on. */
  lemma AnswersAreOlder(s: System, x: Message)
    requires Accounts(s) && Phases(s) && s.held != [] && x in s.replied + s.toGpp
    ensures x.sequence < s.held[0].sequence
  {
    var trail, k := s.replied + Pipe(s), |s.replied + s.toGpp|;
    var i :| 0 <= i < k && (s.replied + s.toGpp)[i] == x;
    assert trail[i] == x && trail[k] == s.held[0];
  }

  lemma OldAnswersStand(s: System, c: Computation)
    requires Accounts(s) && Phases(s) && Faithful(s) && s.held != []
    ensures forall x :: x in s.replied + s.toGpp ==> Answered(s.computed[s.held[0].sequence := c], x)
  {
    forall x | x in s.replied + s.toGpp
      ensures Answered(s.computed[s.held[0].sequence := c], x)
    {
      AnswersAreOlder(s, x);
    }
  }

  lemma Among<T>(a: seq<T>, c: seq<T>, m: T, b: seq<T>)
    ensures forall x :: x in a + c + b ==> x in a + [m] + b || x in c
  {
  }

  lemma HeldInLog(s: System, c: Computation)
    requires Phases(s) && Faithful(s) && s.held != []
    ensures InLog(s.asked, s.held[0]) && InLog(s.asked, Answer(s.held[0], c.crc))
  {
    assert s.held[0] in Pipe(s);
    AnswerInLog(s.asked, s.held[0], c);
  }

  /** The messages in use after the DSP is done with one are those before, or its answer. */
  lemma FinishAmong(s: System, c: Computation, ok: bool)
    requires Accounts(s) && Phases(s) && s.held != [] && ReplyOf(s.held[0]) != []
    ensures forall x :: x in Pipe(Finish(s, s.held[0], c, ok)) ==> x in Pipe(s) || x in [Answer(s.held[0], c.crc)]
  {
    FinishKeepsAccounts(s, c, ok);
    Among(s.toGpp, Remains(s.held[0], c, ok), s.held[0], s.parked + s.d.link.toDsp);
  }

  lemma WorkKeepsFaithful(s: System, c: Computation, ok: bool)
    requires Accounts(s) && Phases(s) && Faithful(s) && s.held != [] && ReplyOf(s.held[0]) != []
    ensures Faithful(Finish(s, s.held[0], c, ok))
  {
    HeldInLog(s, c);
    OldAnswersStand(s, c);
    FinishAmong(s, c, ok);
    FaithfulBy(s, Finish(s, s.held[0], c, ok), [Answer(s.held[0], c.crc)]);
  }

  lemma FinishKeepsFaithful(s: System, c: Computation, ok: bool)
    requires Accounts(s) && Phases(s) && Faithful(s) && s.held != []
    ensures Faithful(Finish(s, s.held[0], c, ok))
  {
    if ReplyOf(s.held[0]) != [] {
      WorkKeepsFaithful(s, c, ok);
    } else {
      FinishKeepsAccounts(s, c, ok);
      assert s.held[0] in Pipe(s);
      FaithfulBy(s, Finish(s, s.held[0], c, ok), []);
    }
  }

  lemma ParkedInLog(s: System, handle: int)
    requires Phases(s) && Faithful(s) && s.held == [] && s.parked != []
    ensures var m := s.parked[0].(replyMsgq := handle); InLog(s.asked, m) && m.body == Locate
  {
    HeldPlace(s);
    HandshakeAlone(s);
    assert s.parked[0] in Pipe(s);
    assert InLog(s.asked, s.parked[0]);
  }

  /** The messages in use after the handshake request is answered are its answer, if it was put. */
  lemma LocatedAmong(s: System, m: Message, t: System, handle: int, ok: bool)
    requires Accounts(s) && Phases(s) && s.held == [] && s.parked != []
    requires m == s.parked[0].(replyMsgq := handle) && t == Put(s.(parked := []), m, ok)
    ensures forall x :: x in Pipe(t) ==> x in [m]
    ensures forall x :: x in t.toGpp ==> x in [m]
  {
    LocatedKeepsAccounts(s, handle, ok);
    HandshakeAlone(s);
  }

  lemma LocatedKeepsFaithful(s: System, handle: int, ok: bool)
    requires Accounts(s) && Phases(s) && Faithful(s) && s.held == [] && s.parked != []
    ensures Faithful(Put(s.(parked := []), s.parked[0].(replyMsgq := handle), ok))
  {
    var m := s.parked[0].(replyMsgq := handle);
    var t := Put(s.(parked := []), m, ok);
    LocatedAmong(s, m, t, handle, ok);
    ParkedInLog(s, handle);
    FaithfulAfterPut(s, m, t);
  }

  lemma FaithfulAfterPut(s: System, m: Message, t: System)
    requires Faithful(s) && InLog(s.asked, m) && m.body == Locate
    requires t.asked == s.asked && t.d == s.d && t.replied == s.replied && t.computed == s.computed
    requires forall x :: x in Pipe(t) ==> x in [m]
    requires forall x :: x in t.toGpp ==> x in [m]
    ensures Faithful(t)
  {
    FaithfulBy(s, t, [m]);
  }

  lemma GetKeepsFaithful(s: System)
    requires Accounts(s) && Phases(s) && Faithful(s) && Valid(s.d) && Enabled(s, Get)
    ensures Faithful(Next(s, Get))
  {
    assert s.toGpp == [s.toGpp[0]] + s.toGpp[1..];
    TakenPipe(s, s.toGpp[0], s.toGpp[1..]);
    FaithfulBy(s, Next(s, Get), []);
  }

  lemma ServiceKeepsFaithful(s: System, i: nat, ev: Event)
    requires Accounts(s) && Phases(s) && Faithful(s) && Valid(s.d) && Enabled(s, Service(i, ev))
    ensures Faithful(Next(s, Service(i, ev)))
  {
    var p := s.d.peers[i];
    assert p in s.d.peers;
    var attempted := Attempted(p, ev);
    if attempted != [] {
      IssueKeepsFaithful(s, RequestMessage(s.d.link, p.id, attempted[0]), true, ev.putOk);
    }
    var t := AfterRequests(s, p, attempted, ev.putOk);
    assert Pipe(Next(s, Service(i, ev))) == Pipe(t);
  }

  lemma DspKeepsFaithful(s: System, step: Step)
    requires Accounts(s) && Phases(s) && Faithful(s) && Enabled(s, step) && OfDsp(step)
    ensures Faithful(Next(s, step))
  {
    match step
    case DspGet =>
      DspGetPipe(s);
      FaithfulBy(s, Next(s, step), []);
    case DspFinish(at, ok) => FinishKeepsFaithful(s, Compute(at, s.held[0]), ok);
    case Located(handle, ok) => LocatedKeepsFaithful(s, handle, ok);
  }

  lemma DaemonKeepsFaithful(s: System, step: Step)
    requires Accounts(s) && Phases(s) && Faithful(s) && Valid(s.d) && Enabled(s, step) && !OfDsp(step)
    ensures Faithful(Next(s, step))
  {
    match step
    case Boot(ok) => IssueKeepsFaithful(s, Message(s.d.link.sequence, 0, 0, 0, Locate), true, ok);
    case Get => GetKeepsFaithful(s);
    case Connect(sck) => FaithfulBy(s, Next(s, step), []);
    case Service(i, ev) => ServiceKeepsFaithful(s, i, ev);
    case Terminate(ok) =>
      IssueKeepsFaithful(s, Message(s.d.link.sequence, s.d.link.replyMsgq, 0, 0, Shutdown), false, ok);
  }

  lemma StepKeepsFaithful(s: System, step: Step)
    requires Accounts(s) && Phases(s) && Faithful(s) && Valid(s.d) && Enabled(s, step)
    ensures Faithful(Next(s, step))
  {
    if OfDsp(step) {
      DspKeepsFaithful(s, step);
    } else {
      DaemonKeepsFaithful(s, step);
    }
  }

  // ---- streams: the bytes each peer has been sent and still has queued ----

  /** The encoded replies to one peer, in the order they were queued. */
  function AnswersTo(ms: seq<Message>, id: int): seq<Byte> {
    if ms == [] then []
    else
      var m := ms[|ms| - 1];
      AnswersTo(ms[..|ms| - 1], id) + if m.owner == id && ReplyOf(m) != [] then EncodeReply(ReplyOf(m)[0]) else []
  }

  lemma AnswersToAppend(ms: seq<Message>, m: Message, id: int)
    ensures AnswersTo(ms + [m], id)
         == AnswersTo(ms, id) + if m.owner == id && ReplyOf(m) != [] then EncodeReply(ReplyOf(m)[0]) else []
  {
    assert (ms + [m])[..|ms|] == ms;
  }

  lemma {:induction false} AnswersToNobody(ms: seq<Message>, id: int)
    requires forall m :: m in ms ==> m.owner != id
    ensures AnswersTo(ms, id) == []
    decreases |ms|
  {
    if ms != [] {
      AnswersToNobody(ms[..|ms| - 1], id);
      assert ms[|ms| - 1] in ms;
    }
  }

  predicate Streaming(sent: map<int, seq<Byte>>, replied: seq<Message>, p: Peer) {
    p.id in sent && sent[p.id] + Flatten(p.out) == AnswersTo(replied, p.id)
  }

  predicate Streams(s: System) {
    forall p :: p in s.d.peers ==> Streaming(s.sent, s.replied, p)
  }

  lemma StreamingOwn(sent: map<int, seq<Byte>>, replied: seq<Message>, p: Peer, m: Message)
    requires Streaming(sent, replied, p) && m.owner == p.id && ReplyOf(m) != []
    ensures Streaming(sent, replied + [m], Enqueued(p, EncodeReply(ReplyOf(m)[0])))
  {
    AnswersToAppend(replied, m, p.id);
    GrowStream(sent[p.id], p.out, EncodeReply(ReplyOf(m)[0]));
  }

  lemma GrowStream<T>(sent: seq<T>, out: seq<seq<T>>, e: seq<T>)
    ensures sent + Flatten(out + [e]) == (sent + Flatten(out)) + e
  {
    FlattenConcat(out, [e]);
    assert Flatten([e]) == e;
    assert sent + (Flatten(out) + e) == (sent + Flatten(out)) + e;
  }

  lemma StreamingOther(sent: map<int, seq<Byte>>, replied: seq<Message>, p: Peer, m: Message)
    requires Streaming(sent, replied, p) && m.owner != p.id
    ensures Streaming(sent, replied + [m], p)
  {
    AnswersToAppend(replied, m, p.id);
    assert AnswersTo(replied, p.id) + [] == AnswersTo(replied, p.id);
  }

  /** What a delivery does to each peer. */
  lemma DeliveryAt(d: State, m: Message, k: nat)
    requires Valid(d) && k < |d.peers|
    ensures |Process(d, m).peers| == |d.peers|
    ensures !Routed(d, m) ==> Process(d, m).peers == d.peers
    ensures Routed(d, m) && d.peers[k].id == m.owner ==>
      Process(d, m).peers[k] == Enqueued(d.peers[k], EncodeReply(ReplyOf(m)[0]))
    ensures Routed(d, m) && d.peers[k].id != m.owner ==> Process(d, m).peers[k] == d.peers[k]
  {
    var i := Find(d.peers, m.owner);
  }

  lemma GetKeepsStreams(s: System)
    requires Valid(s.d) && Streams(s) && Enabled(s, Get)
    ensures Streams(Next(s, Get))
  {
    var m, t := s.toGpp[0], Next(s, Get);
    forall k | 0 <= k < |t.d.peers|
      ensures Streaming(t.sent, t.replied, t.d.peers[k])
    {
      DeliveryLength(s.d, m);
      DeliveryAt(s.d, m, k);
      assert s.d.peers[k] in s.d.peers;
      if Routed(s.d, m) {
        if s.d.peers[k].id == m.owner {
          StreamingOwn(s.sent, s.replied, s.d.peers[k], m);
        } else {
          StreamingOther(s.sent, s.replied, s.d.peers[k], m);
        }
      }
    }
  }

  lemma DeliveryLength(d: State, m: Message)
    ensures |Process(d, m).peers| == |d.peers|
  {
  }

  lemma ConnectKeepsStreams(s: System, sck: int)
    requires Valid(s.d) && Streams(s) && Faithful(s) && Enabled(s, Connect(sck))
    ensures Streams(Next(s, Connect(sck)))
  {
    var t, id := Next(s, Connect(sck)), s.d.uniqueId + 1;
    forall m | m in s.replied
      ensures m.owner != id
    {
      assert m in s.replied + Pipe(s);
      assert InLog(s.asked, m);
    }
    AnswersToNobody(s.replied, id);
    forall k | 0 <= k < |t.d.peers|
      ensures Streaming(t.sent, t.replied, t.d.peers[k])
    {
      if k < |s.d.peers| {
        assert s.d.peers[k] in s.d.peers;
      }
    }
  }

  /** A visit sends exactly what it takes out of the queue. */
  lemma VisitSends(p: Peer, ev: Event)
    requires ValidPeer(p) && Keep(p, ev) != []
    ensures Keep(p, ev)[0].id == p.id
    ensures Outgoing(p, ev) + Flatten(Keep(p, ev)[0].out) == Flatten(p.out)
  {
    SentThenRemaining(p.out, ev.room);
  }

  lemma ServiceKeepsStreams(s: System, i: nat, ev: Event)
    requires Valid(s.d) && Streams(s) && Enabled(s, Service(i, ev))
    ensures Streams(Next(s, Service(i, ev)))
  {
    var t, p := Next(s, Service(i, ev)), s.d.peers[i];
    assert p in s.d.peers;
    VisitedIsServe(s, i, ev);
    forall k | 0 <= k < |t.d.peers|
      ensures Streaming(t.sent, t.replied, t.d.peers[k])
    {
      var j := ServeOrigin(s.d, i, ev, k);
      assert s.d.peers[j] in s.d.peers;
      if j == i {
        VisitSends(p, ev);
        StreamingBy(s.sent, s.replied, p, t.d.peers[k], Outgoing(p, ev));
      }
    }
  }

  lemma StreamingBy(sent: map<int, seq<Byte>>, replied: seq<Message>, p: Peer, q: Peer, chunk: seq<Byte>)
    requires Streaming(sent, replied, p) && q.id == p.id && chunk + Flatten(q.out) == Flatten(p.out)
    ensures Streaming(Extended(sent, p.id, chunk), replied, q)
  {
    assert (sent[p.id] + chunk) + Flatten(q.out) == sent[p.id] + (chunk + Flatten(q.out));
  }

  lemma StepKeepsStreams(s: System, step: Step)
    requires Valid(s.d) && Streams(s) && Faithful(s) && Enabled(s, step)
    ensures Streams(Next(s, step))
  {
    match step
    case Boot(ok) =>
    case Get => GetKeepsStreams(s);
    case Connect(sck) => ConnectKeepsStreams(s, sck);
    case Service(i, ev) => ServiceKeepsStreams(s, i, ev);
    case Terminate(ok) =>
    case DspGet =>
    case DspFinish(at, ok) =>
    case Located(handle, ok) =>
  }

  // ---- hearing: the requests of a peer are those its bytes spell ----

  function RequestOf(m: Message): seq<Request> {
    match m.body
    case Product(x, y, _) => [Mult(m.cookie, x, y)]
    case Checksum(addr, format, width, height, strideBytes, _) =>
      [Crc32(m.cookie, addr, format, width, height, strideBytes)]
    case _ => []
  }

  /** The requests one peer has made, in order. */
  function RequestsBy(asked: seq<Message>, id: int): seq<Request> {
    if asked == [] then []
    else
      var m := asked[|asked| - 1];
      RequestsBy(asked[..|asked| - 1], id) + if m.owner == id then RequestOf(m) else []
  }

  lemma RequestsByAppend(asked: seq<Message>, m: Message, id: int)
    ensures RequestsBy(asked + [m], id) == RequestsBy(asked, id) + if m.owner == id then RequestOf(m) else []
  {
    assert (asked + [m])[..|asked|] == asked;
  }

  lemma {:induction false} RequestsByNobody(asked: seq<Message>, id: int)
    requires forall m :: m in asked ==> m.owner != id
    ensures RequestsBy(asked, id) == []
    decreases |asked|
  {
    if asked != [] {
      RequestsByNobody(asked[..|asked| - 1], id);
      assert asked[|asked| - 1] in asked;
    }
  }

  predicate Spells(heard: seq<Byte>, requests: seq<Request>, got: seq<Byte>) {
    Parse(Requests(), heard) == Parsed(requests, got, false)
  }

  /** What p has said so far parses into its requests and the message it is in the middle of. */
  predicate Hearing(heard: map<int, seq<Byte>>, asked: seq<Message>, p: Peer) {
    p.id in heard && Spells(heard[p.id], RequestsBy(asked, p.id), p.got)
  }

  predicate Hears(s: System) {
    forall p :: p in s.d.peers ==> Hearing(s.heard, s.asked, p)
  }

  /** Writing does not touch what was read. */
  lemma VisitReads(p: Peer, ev: Event)
    requires ValidPeer(p) && Keep(p, ev) != []
    ensures ReadPhase(p, ev).kept != [] && Keep(p, ev)[0].got == ReadPhase(p, ev).kept[0].got
    ensures Attempted(p, ev) == ReadPhase(p, ev).attempted
  {
  }

  lemma ReadHears(p: Peer, ev: Event, heard: seq<Byte>, requests: seq<Request>)
    requires ValidPeer(p) && ev.readable && ReadPhase(p, ev).kept != [] && Spells(heard, requests, p.got)
    ensures Spells(heard + Incoming(p, ev), requests + ReadPhase(p, ev).attempted, ReadPhase(p, ev).kept[0].got)
  {
    ParseThenTake(Requests(), heard, requests, p.got, Incoming(p, ev));
  }

  /** One visit: the bytes read add exactly the requests sent on. */
  lemma VisitHears(p: Peer, ev: Event, heard: seq<Byte>, requests: seq<Request>)
    requires ValidPeer(p) && Keep(p, ev) != [] && Spells(heard, requests, p.got)
    ensures Spells(heard + Incoming(p, ev), requests + Attempted(p, ev), Keep(p, ev)[0].got)
  {
    VisitReads(p, ev);
    if ev.readable {
      ReadHears(p, ev, heard, requests);
    } else {
      assert heard + [] == heard && requests + [] == requests;
    }
  }

  lemma HearingIssue(heard: map<int, seq<Byte>>, asked: seq<Message>, p: Peer, m: Message)
    requires Hearing(heard, asked, p) && m.owner != p.id
    ensures Hearing(heard, asked + [m], p)
  {
    RequestsByAppend(asked, m, p.id);
    assert RequestsBy(asked, p.id) + [] == RequestsBy(asked, p.id);
  }

  lemma HearingVisit(s: System, p: Peer, q: Peer, ev: Event)
    requires Hearing(s.heard, s.asked, p) && ValidPeer(p) && Keep(p, ev) == [q] && q.id == p.id
    ensures Hearing(Extended(s.heard, p.id, Incoming(p, ev)), AfterRequests(s, p, Attempted(p, ev), ev.putOk).asked, q)
  {
    VisitHears(p, ev, s.heard[p.id], RequestsBy(s.asked, p.id));
    AttemptLogged(s, p, Attempted(p, ev), ev.putOk);
  }

  lemma AttemptLogged(s: System, p: Peer, attempted: seq<Request>, putOk: bool)
    requires |attempted| <= 1
    ensures RequestsBy(AfterRequests(s, p, attempted, putOk).asked, p.id) == RequestsBy(s.asked, p.id) + attempted
  {
    if attempted == [] {
      assert RequestsBy(s.asked, p.id) + [] == RequestsBy(s.asked, p.id);
    } else {
      var m := RequestMessage(s.d.link, p.id, attempted[0]);
      RequestsByAppend(s.asked, m, p.id);
      assert RequestOf(m) == attempted;
    }
  }

  lemma HearingOther(s: System, p: Peer, x: Peer, attempted: seq<Request>, putOk: bool)
    requires Hearing(s.heard, s.asked, x) && x.id != p.id
    ensures Hearing(s.heard, AfterRequests(s, p, attempted, putOk).asked, x)
  {
    if attempted != [] {
      HearingIssue(s.heard, s.asked, x, RequestMessage(s.d.link, p.id, attempted[0]));
    }
  }

  lemma ServiceKeepsHears(s: System, i: nat, ev: Event)
    requires Valid(s.d) && Hears(s) && Enabled(s, Service(i, ev))
    ensures Hears(Next(s, Service(i, ev)))
  {
    var t, p := Next(s, Service(i, ev)), s.d.peers[i];
    assert p in s.d.peers;
    VisitedIsServe(s, i, ev);
    forall k | 0 <= k < |t.d.peers|
      ensures Hearing(t.heard, t.asked, t.d.peers[k])
    {
      var j := ServeOrigin(s.d, i, ev, k);
      assert s.d.peers[j] in s.d.peers;
      if j == i {
        HearingVisit(s, p, t.d.peers[k], ev);
      } else {
        HearingOther(s, p, s.d.peers[j], Attempted(p, ev), ev.putOk);
      }
    }
  }

  lemma ConnectKeepsHears(s: System, sck: int)
    requires Valid(s.d) && Hears(s) && Faithful(s) && Enabled(s, Connect(sck))
    ensures Hears(Next(s, Connect(sck)))
  {
    var t, id := Next(s, Connect(sck)), s.d.uniqueId + 1;
    forall m | m in s.asked
      ensures m.owner != id
    {
      var k :| 0 <= k < |s.asked| && s.asked[k] == m;
    }
    RequestsByNobody(s.asked, id);
    forall k | 0 <= k < |t.d.peers|
      ensures Hearing(t.heard, t.asked, t.d.peers[k])
    {
      if k < |s.d.peers| {
        assert s.d.peers[k] in s.d.peers;
      }
    }
  }

  lemma GetKeepsHears(s: System)
    requires Hears(s) && Enabled(s, Get)
    ensures Hears(Next(s, Get))
  {
    var t := Next(s, Get);
    forall k | 0 <= k < |t.d.peers|
      ensures Hearing(t.heard, t.asked, t.d.peers[k])
    {
      assert s.d.peers[k] in s.d.peers;
    }
  }

  lemma TerminateKeepsHears(s: System, ok: bool)
    requires Valid(s.d) && Hears(s) && Enabled(s, Terminate(ok))
    ensures Hears(Next(s, Terminate(ok)))
  {
    forall p | p in s.d.peers
      ensures Hearing(s.heard, Next(s, Terminate(ok)).asked, p)
    {
      HearingIssue(s.heard, s.asked, p, Message(s.d.link.sequence, s.d.link.replyMsgq, 0, 0, Shutdown));
    }
  }

  lemma StepKeepsHears(s: System, step: Step)
    requires Valid(s.d) && Phases(s) && Hears(s) && Faithful(s) && Enabled(s, step)
    ensures Hears(Next(s, step))
  {
    match step
    case Boot(ok) =>
    case Get => GetKeepsHears(s);
    case Connect(sck) => ConnectKeepsHears(s, sck);
    case Service(i, ev) => ServiceKeepsHears(s, i, ev);
    case Terminate(ok) => TerminateKeepsHears(s, ok);
    case DspGet =>
    case DspFinish(at, ok) =>
    case Located(handle, ok) =>
  }

  // ---- checksums: each is that of the image its own request names, in the memory of that moment ----

  /** The messages the DSP has still to answer. */
  function Unanswered(s: System): seq<Message> {
    s.held + s.parked + s.d.link.toDsp
  }

  predicate Verbatim(asked: seq<Message>, m: Message) {
    m.sequence < |asked| && m.body == asked[m.sequence].body
  }

  predicate Right(asked: seq<Message>, k: int, c: Computation) {
    0 <= k < |asked| && c.crc == ComputedCrc(c.at, asked[k].body)
  }

  predicate Blank(b: Body) {
    b.Checksum? ==> b.crc == 0
  }

  predicate AllVerbatim(asked: seq<Message>, ms: seq<Message>) {
    forall m :: m in ms ==> Verbatim(asked, m)
  }

  predicate AllRight(asked: seq<Message>, computed: map<int, Computation>) {
    forall k :: k in computed ==> Right(asked, k, computed[k])
  }

  predicate AllBlank(asked: seq<Message>) {
    forall k :: 0 <= k < |asked| ==> Blank(asked[k].body)
  }

  /** Unanswered messages are as they were sent, checksum field 0; what was computed is right for its request. */
  predicate Computes(s: System) {
    AllVerbatim(s.asked, Unanswered(s)) && AllRight(s.asked, s.computed) && AllBlank(s.asked)
  }

  /** Nothing is computed, and no message is new to the DSP. */
  lemma ComputesBy(s: System, t: System)
    requires Computes(s) && t.asked == s.asked && t.computed == s.computed
    requires forall m :: m in Unanswered(t) ==> m in Unanswered(s)
    ensures Computes(t)
  {
  }

  lemma VerbatimIssue(asked: seq<Message>, ms: seq<Message>, now: seq<Message>, m: Message)
    requires AllVerbatim(asked, ms) && m.sequence == |asked|
    requires forall x :: x in now ==> x in ms || x == m
    ensures AllVerbatim(asked + [m], now)
  {
    forall x | x in now
      ensures Verbatim(asked + [m], x)
    {
      if x in ms {
        assert Verbatim(asked, x);
      }
    }
  }

  lemma RightIssue(asked: seq<Message>, computed: map<int, Computation>, m: Message)
    requires AllRight(asked, computed)
    ensures AllRight(asked + [m], computed)
  {
    forall k | k in computed
      ensures Right(asked + [m], k, computed[k])
    {
      assert Right(asked, k, computed[k]);
    }
  }

  lemma IssueKeepsComputes(s: System, m: Message, counted: bool, putOk: bool)
    requires Computes(s) && |s.asked| == s.d.link.sequence == m.sequence && Blank(m.body)
    ensures Computes(Issue(s, m, counted, putOk))
  {
    var t := Issue(s, m, counted, putOk);
    assert Message(s.d.link.sequence, m.replyMsgq, m.owner, m.cookie, m.body) == m;
    VerbatimIssue(s.asked, Unanswered(s), Unanswered(t), m);
    RightIssue(s.asked, s.computed, m);
  }

  lemma ServiceKeepsComputes(s: System, i: nat, ev: Event)
    requires Computes(s) && |s.asked| == s.d.link.sequence && Enabled(s, Service(i, ev))
    ensures Computes(Next(s, Service(i, ev)))
  {
    var p := s.d.peers[i];
    var attempted := Attempted(p, ev);
    if attempted != [] {
      IssueKeepsComputes(s, RequestMessage(s.d.link, p.id, attempted[0]), true, ev.putOk);
    }
    var t, u := Next(s, Service(i, ev)), AfterRequests(s, p, attempted, ev.putOk);
    assert Unanswered(t) == Unanswered(u);
    ComputesBy(u, t);
  }

  lemma RightFinish(asked: seq<Message>, computed: map<int, Computation>, k: int, c: Computation)
    requires AllRight(asked, computed) && Right(asked, k, c)
    ensures AllRight(asked, computed[k := c])
  {
  }

  lemma ComputeIsRight(s: System, at: Situation)
    requires Computes(s) && s.held != []
    ensures Right(s.asked, s.held[0].sequence, Compute(at, s.held[0]))
  {
    assert s.held[0] in Unanswered(s);
    assert Verbatim(s.asked, s.held[0]);
  }

  lemma FinishKeepsComputes(s: System, c: Computation, ok: bool)
    requires Computes(s) && s.held != [] && Right(s.asked, s.held[0].sequence, c)
    ensures Computes(Finish(s, s.held[0], c, ok))
  {
    var m, t := s.held[0], Finish(s, s.held[0], c, ok);
    RightFinish(s.asked, s.computed, m.sequence, c);
    StillUnanswered(s, c, ok);
    assert AllVerbatim(s.asked, Unanswered(t));
  }

  lemma StillUnanswered(s: System, c: Computation, ok: bool)
    requires s.held != []
    ensures forall x :: x in Unanswered(Finish(s, s.held[0], c, ok)) ==> x in Unanswered(s)
  {
    var m := s.held[0];
    if m.body == Locate {
      assert Unanswered(Finish(s, m, c, ok)) == [] + (s.parked + [m]) + s.d.link.toDsp;
    } else {
      assert Unanswered(Finish(s, m, c, ok)) == [] + s.parked + s.d.link.toDsp;
    }
  }

  lemma StepKeepsComputes(s: System, step: Step)
    requires Accounts(s) && Computes(s) && Enabled(s, step)
    ensures Computes(Next(s, step))
  {
    match step
    case Boot(ok) => IssueKeepsComputes(s, Message(s.d.link.sequence, 0, 0, 0, Locate), true, ok);
    case Get => ComputesBy(s, Next(s, step));
    case Connect(sck) => ComputesBy(s, Next(s, step));
    case Service(i, ev) => ServiceKeepsComputes(s, i, ev);
    case Terminate(ok) =>
      IssueKeepsComputes(s, Message(s.d.link.sequence, s.d.link.replyMsgq, 0, 0, Shutdown), false, ok);
    case DspGet => ComputesBy(s, Next(s, step));
    case DspFinish(at, ok) =>
      ComputeIsRight(s, at);
      FinishKeepsComputes(s, Compute(at, s.held[0]), ok);
    case Located(handle, ok) => ComputesBy(s, Next(s, step));
  }

  // ---- completeness: no request is forgotten ----

  predicate Known(ms: seq<Message>, k: int) {
    exists m :: m in ms && m.sequence == k
  }

  predicate Accounted(ids: set<int>, asked: seq<Message>, trail: seq<Message>, lost: seq<int>) {
    forall k :: 0 <= k < |asked| && asked[k].owner in ids ==> Known(trail, k) || k in lost
  }

  function Ids(peers: seq<Peer>): set<int> {
    set p | p in peers :: p.id
  }

  /** Every request of a connected peer has been replied to, is being worked on, or was lost by the DSP. */
  predicate Complete(s: System) {
    Accounted(Ids(s.d.peers), s.asked, s.replied + Pipe(s), s.lost)
  }

  lemma AccountedIssue(ids: set<int>, asked: seq<Message>, trail: seq<Message>, lost: seq<int>, m: Message, putOk: bool)
    requires Accounted(ids, asked, trail, lost) && m.sequence == |asked|
    requires putOk || m.owner !in ids
    ensures Accounted(ids, asked + [m], trail + if putOk then [m] else [], lost)
  {
    var now := trail + if putOk then [m] else [];
    forall k | 0 <= k < |asked + [m]| && (asked + [m])[k].owner in ids
      ensures Known(now, k) || k in lost
    {
      if k == |asked| {
        assert m in now;
      } else if k !in lost {
        var x :| x in trail && x.sequence == k;
        assert x in now;
      }
    }
  }

  /** Messages may disappear if they are lost or nobody is left who asked for them. */
  lemma AccountedBy(ids: set<int>, fewer: set<int>, asked: seq<Message>, trail: seq<Message>, now: seq<Message>,
    lost: seq<int>, more: seq<int>)
    requires Accounted(ids, asked, trail, lost)
    requires forall id :: id in fewer ==> id in ids
    requires forall k :: k in lost ==> k in more
    requires forall m ::
      (m in trail && m.sequence < |asked| && asked[m.sequence].owner in fewer ==>
        Known(now, m.sequence) || m.sequence in more)
    ensures Accounted(fewer, asked, now, more)
  {
  }

  lemma IssueKeepsComplete(s: System, m: Message, counted: bool, putOk: bool, ids: set<int>)
    requires Accounts(s) && m.sequence == s.d.link.sequence
    requires Accounted(ids, s.asked, s.replied + Pipe(s), s.lost) && (putOk || m.owner !in ids)
    ensures var t := Issue(s, m, counted, putOk); Accounted(ids, t.asked, t.replied + Pipe(t), t.lost)
  {
    var t := Issue(s, m, counted, putOk);
    IssuePipe(s, m, counted, putOk);
    AccountedIssue(ids, s.asked, s.replied + Pipe(s), s.lost, m, putOk);
    assert t.replied + Pipe(t) == (s.replied + Pipe(s)) + if putOk then [m] else [];
  }

  lemma ServiceKeepsComplete(s: System, i: nat, ev: Event)
    requires Accounts(s) && Valid(s.d) && Complete(s) && Enabled(s, Service(i, ev))
    ensures Complete(Next(s, Service(i, ev)))
  {
    var t, p := Next(s, Service(i, ev)), s.d.peers[i];
    var ids := Ids(t.d.peers);
    assert p in s.d.peers;
    VisitedIsServe(s, i, ev);
    forall k | 0 <= k < |t.d.peers|
      ensures t.d.peers[k].id in Ids(s.d.peers)
      ensures Keep(p, ev) == [] ==> t.d.peers[k].id != p.id
    {
      var j := ServeOrigin(s.d, i, ev, k);
      assert s.d.peers[j] in s.d.peers;
    }
    AccountedBy(Ids(s.d.peers), ids, s.asked, s.replied + Pipe(s), s.replied + Pipe(s), s.lost, s.lost);
    if Attempted(p, ev) != [] {
      IssueKeepsComplete(s, RequestMessage(s.d.link, p.id, Attempted(p, ev)[0]), true, ev.putOk, ids);
    }
    assert Pipe(t) == Pipe(AfterRequests(s, p, Attempted(p, ev), ev.putOk));
  }

  lemma RoutedKeepsComplete(s: System)
    requires Complete(s) && Enabled(s, Get) && Routed(s.d, s.toGpp[0])
    ensures Complete(Next(s, Get))
  {
    var m, t := s.toGpp[0], Next(s, Get);
    assert s.toGpp == [m] + s.toGpp[1..];
    TakenPipe(s, m, s.toGpp[1..]);
    SameIds(s.d, m);
    assert t.replied + Pipe(t) == s.replied + Pipe(s);
  }

  lemma DroppedKeepsComplete(s: System)
    requires Faithful(s) && Valid(s.d) && Complete(s) && Enabled(s, Get) && !Routed(s.d, s.toGpp[0])
    ensures Complete(Next(s, Get))
  {
    var m, t := s.toGpp[0], Next(s, Get);
    assert s.toGpp == [m] + s.toGpp[1..];
    TakenPipe(s, m, s.toGpp[1..]);
    SameIds(s.d, m);
    assert m in s.replied + Pipe(s);
    UnroutedHasNoPeer(s, m);
    assert s.replied + Pipe(s) == s.replied + [m] + Pipe(t);
    StillKnown(s.replied, m, Pipe(t));
    AccountedBy(Ids(s.d.peers), Ids(t.d.peers), s.asked, s.replied + Pipe(s), t.replied + Pipe(t), s.lost, s.lost);
  }

  /** Taking one message away leaves the others known; replacing it by its answer leaves all of them known. */
  lemma StillKnown(a: seq<Message>, m: Message, b: seq<Message>)
    ensures forall x :: (x in a + [m] + b && x != m ==> Known(a + b, x.sequence))
  {
    forall x | x in a + [m] + b && x != m
      ensures Known(a + b, x.sequence)
    {
      assert x in a + b;
    }
  }

  lemma AnswerKnown(a: seq<Message>, m: Message, other: Message, b: seq<Message>)
    requires other.sequence == m.sequence
    ensures forall x :: (x in a + [m] + b ==> Known(a + [other] + b, x.sequence))
  {
    forall x | x in a + [m] + b
      ensures Known(a + [other] + b, x.sequence)
    {
      if x == m {
        assert other in a + [other] + b;
      } else {
        assert x in a + [other] + b;
      }
    }
  }

  lemma GetKeepsComplete(s: System)
    requires Faithful(s) && Valid(s.d) && Complete(s) && Enabled(s, Get)
    ensures Complete(Next(s, Get))
  {
    if Routed(s.d, s.toGpp[0]) {
      RoutedKeepsComplete(s);
    } else {
      DroppedKeepsComplete(s);
    }
  }

  lemma SameIds(d: State, m: Message)
    ensures Ids(Process(d, m).peers) == Ids(d.peers)
  {
    var e := Process(d, m);
    assert |e.peers| == |d.peers| && forall k :: 0 <= k < |d.peers| ==> e.peers[k].id == d.peers[k].id;
    forall k | 0 <= k < |d.peers|
      ensures d.peers[k].id in Ids(e.peers) && e.peers[k].id in Ids(d.peers)
    {
      assert e.peers[k] in e.peers && d.peers[k] in d.peers;
    }
  }

  lemma UnroutedHasNoPeer(s: System, m: Message)
    requires Faithful(s) && Valid(s.d) && m in s.replied + Pipe(s) && !Routed(s.d, m)
    ensures InLog(s.asked, m) && s.asked[m.sequence].owner !in Ids(s.d.peers)
  {
    assert InLog(s.asked, m);
    forall p | p in s.d.peers
      ensures p.id != m.owner
    {
      var k :| 0 <= k < |s.d.peers| && s.d.peers[k] == p;
      if ReplyOf(m) == [] {
        assert m.owner == 0;
      }
    }
  }

  lemma Regroup<T>(r: seq<T>, a: seq<T>, m: seq<T>, b: seq<T>)
    ensures r + (a + m + b) == (r + a) + m + b
  {
  }

  /** The messages replied to and in use before and after the DSP finishes one. */
  lemma FinishTrail(s: System, c: Computation, ok: bool) returns (a: seq<Message>, b: seq<Message>)
    requires Accounts(s) && Phases(s) && s.held != []
    ensures s.replied + Pipe(s) == a + [s.held[0]] + b
    ensures s.replied + Pipe(Finish(s, s.held[0], c, ok)) == a + Remains(s.held[0], c, ok) + b
  {
    FinishKeepsAccounts(s, c, ok);
    a, b := s.replied + s.toGpp, s.parked + s.d.link.toDsp;
    Regroup(s.replied, s.toGpp, [s.held[0]], b);
    Regroup(s.replied, s.toGpp, Remains(s.held[0], c, ok), b);
  }

  lemma AnswerKeepsComplete(s: System, c: Computation)
    requires Accounts(s) && Phases(s) && Complete(s) && s.held != [] && ReplyOf(s.held[0]) != []
    requires s.held[0].replyMsgq != 0
    ensures Complete(Finish(s, s.held[0], c, true))
  {
    var m, t := s.held[0], Finish(s, s.held[0], c, true);
    var a, b := FinishTrail(s, c, true);
    AnswerKnown(a, m, Answer(m, c.crc), b);
    AccountedBy(Ids(s.d.peers), Ids(s.d.peers), s.asked, a + [m] + b, a + [Answer(m, c.crc)] + b, s.lost, t.lost);
  }

  lemma DropKeepsComplete(s: System, c: Computation, ok: bool)
    requires Accounts(s) && Phases(s) && Faithful(s) && Valid(s.d) && Complete(s) && s.held != []
    requires Remains(s.held[0], c, ok) == []
    ensures Complete(Finish(s, s.held[0], c, ok))
  {
    var m, t := s.held[0], Finish(s, s.held[0], c, ok);
    var a, b := FinishTrail(s, c, ok);
    assert m in s.replied + Pipe(s);
    if m.body == Shutdown {
      UnroutedHasNoPeer(s, m);
    } else {
      assert t.lost == s.lost + [m.sequence];
    }
    DroppedAccounted(Ids(s.d.peers), s.asked, a, m, b, s.lost, t.lost);
  }

  lemma DroppedAccounted(ids: set<int>, asked: seq<Message>, a: seq<Message>, m: Message, b: seq<Message>,
    lost: seq<int>, more: seq<int>)
    requires Accounted(ids, asked, a + [m] + b, lost)
    requires forall k :: k in lost ==> k in more
    requires m.sequence in more || (m.sequence < |asked| && asked[m.sequence].owner !in ids)
    ensures Accounted(ids, asked, a + [] + b, more)
  {
    StillKnown(a, m, b);
    assert a + [] + b == a + b;
    AccountedBy(ids, ids, asked, a + [m] + b, a + b, lost, more);
  }

  lemma FinishKeepsComplete(s: System, c: Computation, ok: bool)
    requires Accounts(s) && Phases(s) && Faithful(s) && Valid(s.d) && Complete(s) && s.held != []
    ensures Complete(Finish(s, s.held[0], c, ok))
  {
    var m := s.held[0];
    if m.body == Locate {
      FinishKeepsAccounts(s, c, ok);
    } else if Remains(m, c, ok) == [] {
      DropKeepsComplete(s, c, ok);
    } else {
      AnswerKeepsComplete(s, c);
    }
  }

  lemma LocatedKeepsComplete(s: System, handle: int, ok: bool)
    requires Accounts(s) && Phases(s) && Complete(s) && s.held == [] && s.parked != []
    ensures Complete(Put(s.(parked := []), s.parked[0].(replyMsgq := handle), ok))
  {
    HandshakeAlone(s);
    assert Ids(s.d.peers) == {};
  }

  lemma ConnectKeepsComplete(s: System, sck: int)
    requires Faithful(s) && Complete(s) && Enabled(s, Connect(sck))
    ensures Complete(Next(s, Connect(sck)))
  {
    var t := Next(s, Connect(sck));
    assert Ids(t.d.peers) == Ids(s.d.peers) + {s.d.uniqueId + 1};
    assert Pipe(t) == Pipe(s);
  }

  lemma StepKeepsComplete(s: System, step: Step)
    requires Accounts(s) && Phases(s) && Faithful(s) && Valid(s.d) && Complete(s) && Enabled(s, step)
    ensures Complete(Next(s, step))
  {
    match step
    case Boot(ok) =>
      assert Ids(s.d.peers) == {};
    case Get => GetKeepsComplete(s);
    case Connect(sck) => ConnectKeepsComplete(s, sck);
    case Service(i, ev) => ServiceKeepsComplete(s, i, ev);
    case Terminate(ok) =>
      assert 0 !in Ids(s.d.peers);
      IssueKeepsComplete(s, Message(s.d.link.sequence, s.d.link.replyMsgq, 0, 0, Shutdown), false, ok, Ids(s.d.peers));
    case DspGet =>
      DspGetPipe(s);
    case DspFinish(at, ok) => FinishKeepsComplete(s, Compute(at, s.held[0]), ok);
    case Located(handle, ok) => LocatedKeepsComplete(s, handle, ok);
  }

  // ---- every reachable state ----

  predicate Inv(s: System) {
    Valid(s.d) && Accounts(s) && Phases(s) && Faithful(s) && Streams(s) && Hears(s) && Computes(s) && Complete(s)
  }

  lemma StartInv()
    ensures Inv(START)
  {
    assert Pipe(START) == [];
  }

  lemma StepKeepsValid(s: System, step: Step)
    requires Valid(s.d) && Enabled(s, step)
    ensures Valid(Next(s, step).d)
  {
    match step
    case Boot(ok) =>
    case Get => ProcessKeepsValid(s.d, s.toGpp[0]);
    case Connect(sck) => AcceptKeepsValid(s.d, sck);
    case Service(i, ev) =>
      VisitedIsServe(s, i, ev);
      ServeKeepsValid(s.d, i, ev);
    case Terminate(ok) =>
    case DspGet =>
    case DspFinish(at, ok) =>
    case Located(handle, ok) =>
  }

  lemma StepKeepsInv(s: System, step: Step)
    requires Inv(s) && Enabled(s, step)
    ensures Inv(Next(s, step))
  {
    StepKeepsValid(s, step);
    StepKeepsAccounts(s, step);
    StepKeepsPhases(s, step);
    StepKeepsFaithful(s, step);
    StepKeepsStreams(s, step);
    StepKeepsHears(s, step);
    StepKeepsComputes(s, step);
    StepKeepsComplete(s, step);
  }

  /** The states of a run, from the start. */
  predicate IsRun(run: seq<System>, steps: seq<Step>) {
    && |run| == |steps| + 1 && run[0] == START
    && forall k :: 0 <= k < |steps| ==> Enabled(run[k], steps[k]) && run[k + 1] == Next(run[k], steps[k])
  }

  lemma {:induction false} Reachable(run: seq<System>, steps: seq<Step>, k: nat)
    requires IsRun(run, steps) && k < |run|
    ensures Inv(run[k])
    decreases k
  {
    if k == 0 {
      StartInv();
    } else {
      Reachable(run, steps, k - 1);
      StepKeepsInv(run[k - 1], steps[k - 1]);
    }
  }
}
