/**
 What the invariants of the protocol mean to a client and to the daemon's main loop.
 */
module Guarantees {
  import opened Framing
  import opened Wire
  import opened Daemon
  import opened Pipeline
  import opened DspTask
  import opened ServiceLaws
  import opened PeerLaws
  import opened Protocol

  // ---- ownership ----

  /**
   Every message number ever handed out is, at any moment, held by exactly one queue or party and not
   freed, or has been freed exactly once and is nowhere else.
   */
  lemma OneOwner(run: seq<System>, steps: seq<Step>, k: nat, n: nat)
    requires IsRun(run, steps) && k < |run|
    ensures (run[k].freed + Numbers(Pipe(run[k])))[n] == if n < run[k].d.link.sequence then 1 else 0
    ensures Numbers(Pipe(run[k]))
      == Numbers(run[k].toGpp) + Numbers(run[k].held) + Numbers(run[k].parked) + Numbers(run[k].d.link.toDsp)
  {
    var s := run[k];
    Reachable(run, steps, k);
    RangeOnce(s.d.link.sequence, n);
    NumbersConcat(s.toGpp + s.held + s.parked, s.d.link.toDsp);
    NumbersConcat(s.toGpp + s.held, s.parked);
    NumbersConcat(s.toGpp, s.held);
  }

  lemma {:induction false} RangeOnce(n: nat, k: nat)
    ensures Range(n)[k] == if k < n then 1 else 0
    decreases n
  {
    if n > 0 {
      RangeOnce(n - 1, k);
    }
  }

  /** No request reaches the DSP before its reply queue is known: all carry a queue to answer to. */
  lemma RequestsCarryReplyQueue(run: seq<System>, steps: seq<Step>, k: nat, m: Message)
    requires IsRun(run, steps) && k < |run| && m in run[k].held + run[k].d.link.toDsp && ReplyOf(m) != []
    ensures m.replyMsgq != 0
  {
    var s := run[k];
    Reachable(run, steps, k);
    assert m in Pipe(s);
  }

  // ---- the counter and blocking for ever ----

  lemma {:induction false} CountedIsLength(ms: seq<Message>)
    requires NoShutdown(ms)
    ensures Counted(ms) == |ms|
    decreases |ms|
  {
    if ms != [] {
      assert ms[|ms| - 1] in ms;
      CountedIsLength(ms[..|ms| - 1]);
    }
  }

  /** In the handshake and in the main loop the counter is the number of messages in use and of answers lost. */
  lemma CounterMeaning(s: System)
    requires Accounts(s) && Phases(s) && (s.phase == Handshaking || s.phase == Looping)
    ensures s.d.link.processingCount == |s.toGpp| + |s.held| + |s.parked| + |s.d.link.toDsp| + |s.lost|
  {
    CountedIsLength(Pipe(s));
  }

  /** The steps of the DSP that bring a message to the daemon when one is in use. */
  function Plan(s: System, at: Situation): seq<Step> {
    if s.toGpp != [] then []
    else if s.parked != [] then [Located(1, true)]
    else if s.held != [] then DspWork(s.held[0], at)
    else [DspGet] + if s.d.link.toDsp == [] then [] else DspWork(s.d.link.toDsp[0], at)
  }

  function DspWork(m: Message, at: Situation): seq<Step> {
    if m.body == Locate then [DspFinish(at, true), Located(1, true)] else [DspFinish(at, true)]
  }

  /** Where a list of steps leads, if each can be taken in its turn. */
  datatype Followed = Blocked | Reached(state: System)

  function Follow(s: System, steps: seq<Step>): Followed
    decreases |steps|
  {
    if steps == [] then Reached(s)
    else if Enabled(s, steps[0]) then Follow(Next(s, steps[0]), steps[1..])
    else Blocked
  }

  /** The steps can be taken, and leave a message for the daemon. */
  predicate Delivers(s: System, steps: seq<Step>) {
    Follow(s, steps).Reached? && Follow(s, steps).state.toGpp != []
  }

  lemma OneStep(s: System, step: Step)
    requires Enabled(s, step)
    ensures Follow(s, [step]) == Reached(Next(s, step))
  {
    assert [step][1..] == [];
  }

  lemma FirstThen(s: System, step: Step, t: System, rest: seq<Step>)
    requires Enabled(s, step) && t == Next(s, step)
    ensures Follow(s, [step] + rest) == Follow(t, rest)
  {
    assert ([step] + rest)[1..] == rest;
  }

  lemma LocateDelivers(s: System, at: Situation)
    requires Inv(s) && (s.phase == Handshaking || s.phase == Looping) && s.held != [] && s.held[0].body == Locate
    ensures Delivers(s, DspWork(s.held[0], at))
  {
    var t := Next(s, DspFinish(at, true));
    HandshakeAlone(s);
    assert t.parked != [] && t.held == [] && !t.stopped;
    OneStep(t, Located(1, true));
    FirstThen(s, DspFinish(at, true), t, [Located(1, true)]);
    assert [DspFinish(at, true)] + [Located(1, true)] == DspWork(s.held[0], at);
  }

  lemma WorkDelivers(s: System, at: Situation)
    requires Inv(s) && (s.phase == Handshaking || s.phase == Looping) && s.held != []
    ensures Delivers(s, DspWork(s.held[0], at))
  {
    assert s.held[0] in Pipe(s);
    if s.held[0].body == Locate {
      LocateDelivers(s, at);
    } else {
      OneStep(s, DspFinish(at, true));
    }
  }

  lemma PlanDelivers(s: System, at: Situation)
    requires Inv(s) && (s.phase == Handshaking || s.phase == Looping) && Pipe(s) != []
    ensures Delivers(s, Plan(s, at))
  {
    HandshakeAlone(s);
    if s.toGpp != [] {
    } else if s.parked != [] {
      OneStep(s, Located(1, true));
    } else if s.held != [] {
      WorkDelivers(s, at);
    } else {
      GetDelivers(s, at);
    }
  }

  lemma GetDelivers(s: System, at: Situation)
    requires Inv(s) && (s.phase == Handshaking || s.phase == Looping) && Enabled(s, DspGet)
    ensures Delivers(s, [DspGet] + DspWork(s.d.link.toDsp[0], at))
  {
    var t := Next(s, DspGet);
    StepKeepsInv(s, DspGet);
    WorkDelivers(t, at);
    FirstThen(s, DspGet, t, DspWork(t.held[0], at));
  }

  /** The DSP can do nothing, and there is nothing to get. */
  ghost predicate Stuck(s: System) {
    forall step :: Enabled(s, step) ==> !OfDsp(step) && step != Get
  }

  /**
   The daemon blocks in MSGQ_get without a timeout when its counter is positive.  That is right, in
   the sense that the DSP alone can still bring a message, exactly when the counter exceeds the
   answers lost; otherwise nothing will ever come.
   */
  lemma WaitForeverExact(run: seq<System>, steps: seq<Step>, k: nat, at: Situation)
    requires IsRun(run, steps) && k < |run|
    requires (run[k].phase == Handshaking || run[k].phase == Looping) && run[k].d.link.processingCount > 0
    ensures run[k].d.link.processingCount > |run[k].lost| ==> Delivers(run[k], Plan(run[k], at))
    ensures run[k].d.link.processingCount <= |run[k].lost| ==> Stuck(run[k])
  {
    var s := run[k];
    Reachable(run, steps, k);
    CountedIsLength(Pipe(s));
    if s.d.link.processingCount > |s.lost| {
      PlanDelivers(s, at);
    } else {
      assert Pipe(s) == [];
      forall step | Enabled(s, step)
        ensures !OfDsp(step) && step != Get
      {
      }
    }
  }

  /**
   A turn of the main loop blocks for a message only when no socket is ready and the counter is
   positive; then either the DSP alone can still bring one, or nothing will ever come.
   */
  lemma BlockingTurn(run: seq<System>, steps: seq<Step>, k: nat, ready: bool, at: Situation)
    requires IsRun(run, steps) && k < |run| && run[k].phase == Looping
    ensures ready <==> ChooseTurn(ready, run[k].d.link.processingCount) == ServeSockets
    ensures ChooseTurn(ready, run[k].d.link.processingCount) == AwaitMessage ==> !ready
    ensures ChooseTurn(ready, run[k].d.link.processingCount) == AwaitMessage ==>
      (if run[k].d.link.processingCount > |run[k].lost| then Delivers(run[k], Plan(run[k], at)) else Stuck(run[k]))
  {
    if !ready && run[k].d.link.processingCount > 0 {
      WaitForeverExact(run, steps, k, at);
    }
  }

  /**
   The daemon sleeps in select without a timeout, nothing being ready, exactly when no message is in
   either queue, held or parked, and none was lost: no reply can be waiting for it to wake up.
   */
  lemma SleepExact(run: seq<System>, steps: seq<Step>, k: nat)
    requires IsRun(run, steps) && k < |run| && run[k].phase == Looping
    ensures ChooseTurn(false, run[k].d.link.processingCount) == SleepInSelect <==>
      run[k].toGpp == [] && run[k].held == [] && run[k].parked == [] && run[k].d.link.toDsp == [] && run[k].lost == []
    ensures ChooseTurn(false, run[k].d.link.processingCount) == SleepInSelect ==> Stuck(run[k])
  {
    Reachable(run, steps, k);
    CounterMeaning(run[k]);
  }

  /** With reliable puts the daemon never waits for a reply that cannot come. */
  lemma ReliablePutsNeverHang(run: seq<System>, steps: seq<Step>, k: nat, at: Situation)
    requires IsRun(run, steps) && k < |run| && run[k].lost == []
    requires (run[k].phase == Handshaking || run[k].phase == Looping) && run[k].d.link.processingCount > 0
    ensures Delivers(run[k], Plan(run[k], at))
  {
    WaitForeverExact(run, steps, k, at);
  }

  /** One answer the DSP fails to put, with nothing else under way, and the daemon waits for ever. */
  lemma LostPutHangs(s: System, at: Situation)
    requires Accounts(s) && Phases(s) && s.phase == Looping && s.held != [] && Pipe(s) == s.held
    ensures var t := Next(s, DspFinish(at, false)); t.phase == Looping && t.d.link.processingCount > 0 && Stuck(t)
  {
    var t := Next(s, DspFinish(at, false));
    OnlyHeld(s);
    assert s.held[0] in Pipe(s);
    CounterMeaning(s);
    assert t.d == s.d && t.toGpp == [] && t.held == [] && t.parked == [];
  }

  lemma OnlyHeld(s: System)
    requires Pipe(s) == s.held
    ensures s.toGpp == [] && s.parked == [] && s.d.link.toDsp == []
  {
    assert |Pipe(s)| == |s.toGpp| + |s.held| + |s.parked| + |s.d.link.toDsp|;
  }

  /** That can happen: the very first answer may be lost. */
  lemma HandshakeCanHang(at: Situation) returns (run: seq<System>, steps: seq<Step>)
    ensures IsRun(run, steps)
    ensures |run| == 5 && run[4].phase == Handshaking && run[4].d.link.processingCount == 1 && Stuck(run[4])
  {
    run, steps := HandshakeRun(at);
    NothingComes(run, steps, 4, at);
  }

  lemma NothingComes(run: seq<System>, steps: seq<Step>, k: nat, at: Situation)
    requires IsRun(run, steps) && k < |run| && run[k].phase == Handshaking
    requires run[k].d.link.processingCount == |run[k].lost| == 1
    ensures Stuck(run[k])
  {
    WaitForeverExact(run, steps, k, at);
  }

  lemma HandshakeRun(at: Situation) returns (run: seq<System>, steps: seq<Step>)
    ensures IsRun(run, steps)
    ensures |run| == 5 && run[4].phase == Handshaking && run[4].d.link.processingCount == |run[4].lost| == 1
  {
    steps := [Boot(true), DspGet, DspFinish(at, true), Located(1, false)];
    var a := Next(START, Boot(true));
    var b := Next(a, DspGet);
    var c := Next(b, DspFinish(at, true));
    var d := Next(c, Located(1, false));
    run := [START, a, b, c, d];
  }

  // ---- routing ----

  /** A reply queued is the answer the DSP came to for the request logged under its number. */
  lemma RepliesAreComputed(run: seq<System>, steps: seq<Step>, k: nat, m: Message)
    requires IsRun(run, steps) && k < |run| && m in run[k].replied
    ensures InLog(run[k].asked, m) && m.sequence in run[k].computed && Blank(run[k].asked[m.sequence].body)
    ensures ReplyOf(m) != [] && |RequestOf(run[k].asked[m.sequence])| == 1
    ensures run[k].asked[m.sequence].body.Product? ==>
      var q := run[k].asked[m.sequence];
      ReplyOf(m) == [Reply(MULT, q.cookie, Truncated(q.body.x * q.body.y))]
    ensures run[k].asked[m.sequence].body.Checksum? ==>
      var q := run[k].asked[m.sequence];
      ReplyOf(m) == [Reply(CRC32, q.cookie, ComputedCrc(run[k].computed[m.sequence].at, q.body))]
  {
    var s := run[k];
    Reachable(run, steps, k);
    assert m in s.replied + Pipe(s) && m in s.replied + s.toGpp;
    assert InLog(s.asked, m) && Answered(s.computed, m);
    assert Blank(s.asked[m.sequence].body);
  }

  /** r answers request q, which the DSP worked on in this situation: its kind, its number, the right value. */
  predicate AnswersRequest(r: Reply, q: Request, at: Situation) {
    r.code == (if q.Mult? then 1 else 2) && r.sequence == q.sequence && IsAnswer(q, at, r.value)
  }

  /**
   Each reply queued to a peer answers the request logged under its number: asked by that peer, with
   that peer's own sequence number, and with the low 32 bits of the product of the numbers it sent or,
   for a checksum, the CRC-32 of the image it named in the memory the DSP found.
   */
  lemma RepliesAnswer(run: seq<System>, steps: seq<Step>, k: nat, m: Message)
    requires IsRun(run, steps) && k < |run| && m in run[k].replied
    ensures InLog(run[k].asked, m) && m.sequence in run[k].computed
    ensures |ReplyOf(m)| == |RequestOf(run[k].asked[m.sequence])| == 1
    ensures AnswersRequest(ReplyOf(m)[0], RequestOf(run[k].asked[m.sequence])[0], run[k].computed[m.sequence].at)
  {
    RepliesAreComputed(run, steps, k, m);
    ComputedIsRight(run[k].asked[m.sequence], run[k].computed[m.sequence].at, ReplyOf(m)[0]);
  }

  lemma ComputedIsRight(q: Message, at: Situation, r: Reply)
    requires q.body.Product? ==> r == Reply(MULT, q.cookie, Truncated(q.body.x * q.body.y))
    requires q.body.Checksum? ==> r == Reply(CRC32, q.cookie, ComputedCrc(at, q.body))
    requires |RequestOf(q)| == 1 && Blank(q.body)
    ensures AnswersRequest(r, RequestOf(q)[0], at)
  {
    RightIsAnswer(RequestOf(q)[0], at);
  }

  /** The situation recorded with a number is the one in which the DSP finished that very message. */
  lemma {:induction false} ComputedAtItsStep(run: seq<System>, steps: seq<Step>, k: nat, n: int) returns (j: nat)
    requires IsRun(run, steps) && k < |run| && n in run[k].computed
    ensures j < k && steps[j].DspFinish? && run[j].held != [] && run[j].held[0].sequence == n
    ensures run[k].computed[n].at == steps[j].at
    decreases k
  {
    var s, step := run[k - 1], steps[k - 1];
    assert run[k] == Next(s, step) && Enabled(s, step);
    if n in s.computed && s.computed[n] == run[k].computed[n] {
      j := ComputedAtItsStep(run, steps, k - 1, n);
    } else {
      ComputedBy(s, step, n);
      j := k - 1;
    }
  }

  lemma ComputedBy(s: System, step: Step, n: int)
    requires Enabled(s, step) && n in Next(s, step).computed
    requires n !in s.computed || s.computed[n] != Next(s, step).computed[n]
    ensures step.DspFinish? && s.held[0].sequence == n && Next(s, step).computed[n].at == step.at
  {
    OnlyDspComputes(s, step);
    if step.DspFinish? {
      FinishComputes(s, s.held[0], Compute(step.at, s.held[0]), step.finishOk);
    }
  }

  lemma OnlyDspComputes(s: System, step: Step)
    requires Enabled(s, step)
    ensures !step.DspFinish? ==> Next(s, step).computed == s.computed
  {
  }

  lemma FinishComputes(s: System, m: Message, c: Computation, ok: bool)
    ensures Finish(s, m, c, ok).computed == s.computed || Finish(s, m, c, ok).computed == s.computed[m.sequence := c]
  {
    var t := s.(held := [], computed := s.computed[m.sequence := c]);
    PutComputes(t, Answer(m, c.crc), ok && m.replyMsgq != 0);
  }

  lemma PutComputes(t: System, m: Message, ok: bool)
    ensures Put(t, m, ok).computed == t.computed
  {
  }

  /** The bytes sent to a connected peer, and those queued for it, are its replies in the order it asked. */
  lemma BytesAreReplies(run: seq<System>, steps: seq<Step>, k: nat, p: Peer)
    requires IsRun(run, steps) && k < |run| && p in run[k].d.peers
    ensures p.id in run[k].sent && run[k].sent[p.id] + Flatten(p.out) == AnswersTo(run[k].replied, p.id)
    ensures Ascending(run[k].replied)
  {
    var s := run[k];
    Reachable(run, steps, k);
    assert forall j :: 0 <= j < |s.replied| ==> s.replied[j] == (s.replied + Pipe(s))[j];
  }

  /** A connected peer's replies skip none of its requests, except those the DSP lost. */
  lemma NoReplySkipped(run: seq<System>, steps: seq<Step>, k: nat, p: Peer, early: nat, late: Message)
    requires IsRun(run, steps) && k < |run| && p in run[k].d.peers
    requires late in run[k].replied && early < late.sequence && early < |run[k].asked|
    requires run[k].asked[early].owner == p.id
    ensures Known(run[k].replied, early) || early in run[k].lost
  {
    var s := run[k];
    Reachable(run, steps, k);
    assert p.id in Ids(s.d.peers);
    if early !in s.lost {
      var m :| m in s.replied + Pipe(s) && m.sequence == early;
      if m !in s.replied {
        OlderFirst(s.replied, Pipe(s), late, m);
      }
    }
  }

  lemma OlderFirst(a: seq<Message>, b: seq<Message>, x: Message, y: Message)
    requires Ascending(a + b) && x in a && y in b
    ensures x.sequence < y.sequence
  {
    var i :| 0 <= i < |a| && a[i] == x;
    var j :| 0 <= j < |b| && b[j] == y;
    assert (a + b)[i] == x && (a + b)[|a| + j] == y;
  }

  /** A connected peer's requests, as forwarded to the DSP, are exactly those its bytes so far spell. */
  lemma RequestsAreHeard(run: seq<System>, steps: seq<Step>, k: nat, p: Peer)
    requires IsRun(run, steps) && k < |run| && p in run[k].d.peers
    ensures p.id in run[k].heard
    ensures Parse(Requests(), run[k].heard[p.id]) == Parsed(RequestsBy(run[k].asked, p.id), p.got, false)
  {
    Reachable(run, steps, k);
  }

  // ---- the reply queue ----

  /** The handles found by the DSP so far. */
  function Handles(steps: seq<Step>): set<int> {
    set step | step in steps && step.Located? :: step.handle
  }

  /** Every handle in the daemon or in a message is one of these, or none. */
  predicate FromHandles(s: System, hs: set<int>) {
    && (s.d.link.replyMsgq == 0 || s.d.link.replyMsgq in hs)
    && forall m :: m in Pipe(s) ==> m.replyMsgq == 0 || m.replyMsgq in hs
  }

  lemma IssueFromHandles(s: System, m: Message, counted: bool, putOk: bool, hs: set<int>)
    requires FromHandles(s, hs) && m.sequence == s.d.link.sequence && (m.replyMsgq == 0 || m.replyMsgq in hs)
    ensures FromHandles(Issue(s, m, counted, putOk), hs)
  {
    IssuePipe(s, m, counted, putOk);
  }

  lemma FinishFromHandles(s: System, c: Computation, ok: bool, hs: set<int>)
    requires Accounts(s) && Phases(s) && s.held != [] && FromHandles(s, hs)
    ensures FromHandles(Finish(s, s.held[0], c, ok), hs)
  {
    FinishKeepsAccounts(s, c, ok);
    assert s.held[0] in Pipe(s);
    Among(s.toGpp, Remains(s.held[0], c, ok), s.held[0], s.parked + s.d.link.toDsp);
  }

  lemma ServiceFromHandles(s: System, i: nat, ev: Event, hs: set<int>)
    requires Accounts(s) && FromHandles(s, hs) && Enabled(s, Service(i, ev))
    ensures FromHandles(Next(s, Service(i, ev)), hs)
  {
    var p := s.d.peers[i];
    var attempted := Attempted(p, ev);
    if attempted != [] {
      IssueFromHandles(s, RequestMessage(s.d.link, p.id, attempted[0]), true, ev.putOk, hs);
    }
    assert Pipe(Next(s, Service(i, ev))) == Pipe(AfterRequests(s, p, attempted, ev.putOk));
  }

  lemma GetFromHandles(s: System, hs: set<int>)
    requires Phases(s) && FromHandles(s, hs) && Enabled(s, Get)
    ensures FromHandles(Next(s, Get), hs)
  {
    var m := s.toGpp[0];
    assert s.toGpp == [m] + s.toGpp[1..];
    TakenPipe(s, m, s.toGpp[1..]);
    assert m in Pipe(s);
  }

  lemma StepFromHandles(s: System, step: Step, hs: set<int>)
    requires Accounts(s) && Phases(s) && FromHandles(s, hs) && Enabled(s, step)
    ensures FromHandles(Next(s, step), hs + if step.Located? then {step.handle} else {})
  {
    match step
    case Boot(ok) => IssueFromHandles(s, Message(s.d.link.sequence, 0, 0, 0, Locate), true, ok, hs);
    case Get => GetFromHandles(s, hs);
    case Connect(sck) => assert Pipe(Next(s, step)) == Pipe(s);
    case Service(i, ev) => ServiceFromHandles(s, i, ev, hs);
    case Terminate(ok) =>
      IssueFromHandles(s, Message(s.d.link.sequence, s.d.link.replyMsgq, 0, 0, Shutdown), false, ok, hs);
    case DspGet => DspGetPipe(s);
    case DspFinish(at, ok) => FinishFromHandles(s, Compute(at, s.held[0]), ok, hs);
    case Located(handle, ok) => LocatedKeepsAccounts(s, handle, ok);
  }

  lemma RunFromHandles(run: seq<System>, steps: seq<Step>, k: nat)
    requires IsRun(run, steps) && k < |run|
    ensures FromHandles(run[k], Handles(steps[..k]))
  {
    var p := (i: nat) => i < |run| && FromHandles(run[i], Handles(steps[..i]));
    StartFromHandles(run, steps);
    forall i | 0 <= i < k && p(i)
      ensures p(i + 1)
    {
      HandlesStay(run, steps, i);
    }
    FromThenOn(p, 0, k);
  }

  lemma StartFromHandles(run: seq<System>, steps: seq<Step>)
    requires IsRun(run, steps)
    ensures FromHandles(run[0], Handles(steps[..0]))
  {
    assert Pipe(START) == [];
  }

  lemma HandlesStay(run: seq<System>, steps: seq<Step>, i: nat)
    requires IsRun(run, steps) && i < |steps| && FromHandles(run[i], Handles(steps[..i]))
    ensures FromHandles(run[i + 1], Handles(steps[..i + 1]))
  {
    Reachable(run, steps, i);
    HandlesNext(steps, i + 1);
    StepFromHandles(run[i], steps[i], Handles(steps[..i]));
  }

  lemma HandlesNext(steps: seq<Step>, k: nat)
    requires 0 < k <= |steps|
    ensures Handles(steps[..k]) == Handles(steps[..k - 1]) + if steps[k - 1].Located? then {steps[k - 1].handle} else {}
  {
    assert steps[..k] == steps[..k - 1] + [steps[k - 1]];
  }

  /** The queue a product or checksum request is to be answered to is one the DSP located before. */
  lemma ReplyQueueWasLocated(run: seq<System>, steps: seq<Step>, k: nat, m: Message) returns (j: nat)
    requires IsRun(run, steps) && k < |run| && m in run[k].held + run[k].d.link.toDsp && ReplyOf(m) != []
    ensures j < k && steps[j].Located? && steps[j].handle == m.replyMsgq != 0
  {
    RequestsCarryReplyQueue(run, steps, k, m);
    RunFromHandles(run, steps, k);
    assert m in Pipe(run[k]);
    var step :| step in steps[..k] && step.Located? && step.handle == m.replyMsgq;
    j :| 0 <= j < k && steps[j] == step;
  }

  // ---- shutdown ----

  /** The DSP has taken a shutdown message before step k. */
  ghost predicate ShutDown(run: seq<System>, steps: seq<Step>, k: nat)
    requires |run| == |steps| + 1 && k <= |steps|
  {
    exists j :: 0 <= j < k && Shuts(run[j], steps[j])
  }

  predicate Shuts(s: System, step: Step) {
    step.DspFinish? && s.held != [] && s.held[0].body == Shutdown
  }

  lemma StepStops(s: System, step: Step)
    requires Enabled(s, step) && |s.held| <= 1
    ensures Next(s, step).stopped <==> s.stopped || Shuts(s, step)
    ensures (s.stopped ==> s.held == []) ==> (Next(s, step).stopped ==> Next(s, step).held == [])
  {
    if step.DspFinish? {
      FinishStops(s, s.held[0], Compute(step.at, s.held[0]), step.finishOk);
    } else {
      OthersGoOn(s, step);
    }
  }

  lemma FinishStops(s: System, m: Message, c: Computation, ok: bool)
    ensures Finish(s, m, c, ok).stopped <==> s.stopped || m.body == Shutdown
    ensures Finish(s, m, c, ok).held == []
  {
  }

  lemma OthersGoOn(s: System, step: Step)
    requires Enabled(s, step) && !step.DspFinish?
    ensures Next(s, step).stopped == s.stopped
    ensures s.stopped ==> Next(s, step).held == s.held
  {
  }

  lemma StopStep(run: seq<System>, steps: seq<Step>, i: nat)
    requires IsRun(run, steps) && i < |steps|
    requires (run[i].stopped <==> ShutDown(run, steps, i)) && (run[i].stopped ==> run[i].held == [])
    ensures (run[i + 1].stopped <==> ShutDown(run, steps, i + 1)) && (run[i + 1].stopped ==> run[i + 1].held == [])
  {
    Reachable(run, steps, i);
    StepStops(run[i], steps[i]);
    if Shuts(run[i], steps[i]) {
      assert ShutDown(run, steps, i + 1);
    }
  }

  /** The DSP has stopped exactly when it has taken a shutdown message, and then it never does anything again. */
  lemma StoppedExact(run: seq<System>, steps: seq<Step>, k: nat, step: Step)
    requires IsRun(run, steps) && k < |run|
    ensures run[k].stopped <==> ShutDown(run, steps, k)
    ensures run[k].stopped && OfDsp(step) ==> !Enabled(run[k], step)
  {
    var p := (i: nat) =>
      i <= |steps| && (run[i].stopped <==> ShutDown(run, steps, i)) && (run[i].stopped ==> run[i].held == []);
    forall i | 0 <= i < k && p(i)
      ensures p(i + 1)
    {
      StopStep(run, steps, i);
    }
    FromThenOn(p, 0, k);
  }

  // ---- connections ----

  /** A visit changes no other peer, and this one exactly as reading and writing say. */
  lemma ServiceExact(s: System, i: nat, ev: Event)
    requires Valid(s.d) && Enabled(s, Service(i, ev))
    ensures s.d.peers[i] in s.d.peers
    ensures Next(s, Service(i, ev)).d.peers == s.d.peers[..i]
      + (if Fails(s.d.peers[i], ev) then [] else [Served(s.d.peers[i], ev)]) + s.d.peers[i + 1..]
  {
    assert s.d.peers[i] in s.d.peers;
    VisitedIsServe(s, i, ev);
    KeepExact(s.d.peers[i], ev);
  }

  /** A connected peer is gone after a step exactly when the step was its own visit and that failed. */
  lemma DisconnectedExact(s: System, step: Step, p: Peer)
    requires Valid(s.d) && Enabled(s, step) && p in s.d.peers
    ensures p.id !in Ids(Next(s, step).d.peers) <==>
      step.Service? && s.d.peers[step.i] == p && Fails(p, step.ev)
  {
    assert p.id in Ids(s.d.peers);
    match step
    case Boot(ok) =>
    case Get => SameIds(s.d, s.toGpp[0]);
    case Connect(sck) => assert p in Next(s, step).d.peers;
    case Service(i, ev) =>
      ServiceExact(s, i, ev);
      VisitLeaves(s.d, i, if Fails(s.d.peers[i], ev) then [] else [Served(s.d.peers[i], ev)], p, Next(s, step).d.peers);
    case Terminate(ok) =>
    case DspGet =>
    case DspFinish(at, ok) =>
    case Located(handle, ok) =>
  }

  lemma VisitLeaves(d: State, i: nat, kept: seq<Peer>, p: Peer, now: seq<Peer>)
    requires Valid(d) && i < |d.peers| && p in d.peers && |kept| <= 1
    requires kept != [] ==> kept[0].id == d.peers[i].id
    requires now == d.peers[..i] + kept + d.peers[i + 1..]
    ensures p.id !in Ids(now) <==> d.peers[i] == p && kept == []
  {
    var k :| 0 <= k < |d.peers| && d.peers[k] == p;
    if k < i {
      assert now[k] == p;
    } else if k > i {
      assert now[k - 1 + |kept|] == p;
    } else if kept != [] {
      assert now[i] == kept[0];
    }
  }

  /** Every connected peer was connected by a step that gave it its id and its socket. */
  lemma {:induction false} ConnectedBefore(run: seq<System>, steps: seq<Step>, k: nat, p: Peer) returns (j: nat)
    requires IsRun(run, steps) && k < |run| && p in run[k].d.peers
    ensures j < k && steps[j] == Connect(p.sck) && p.id == run[j].d.uniqueId + 1
    decreases k
  {
    NobodyAtFirst(run, steps, k, p);
    var connected, q := PeerBefore(run, steps, k - 1, p);
    if connected {
      j := k - 1;
    } else {
      j := ConnectedBefore(run, steps, k - 1, q);
    }
  }

  lemma NobodyAtFirst(run: seq<System>, steps: seq<Step>, k: nat, p: Peer)
    requires IsRun(run, steps) && k < |run| && p in run[k].d.peers
    ensures k > 0
  {
  }

  lemma PeerBefore(run: seq<System>, steps: seq<Step>, k: nat, p: Peer) returns (connected: bool, q: Peer)
    requires IsRun(run, steps) && k < |steps| && p in run[k + 1].d.peers
    ensures connected ==> steps[k] == Connect(p.sck) && p.id == run[k].d.uniqueId + 1
    ensures !connected ==> q in run[k].d.peers && q.id == p.id && q.sck == p.sck
  {
    var s, step := run[k], steps[k];
    Reachable(run, steps, k);
    connected, q := step.Connect? && p == Peer(s.d.uniqueId + 1, step.sck, [], []), p;
    if !connected {
      q := BeforeStep(s, step, p);
    }
  }

  /** A peer after a step is one from before, under the same id and socket, or the one just connected. */
  lemma BeforeStep(s: System, step: Step, p: Peer) returns (q: Peer)
    requires Valid(s.d) && Enabled(s, step) && p in Next(s, step).d.peers
    requires !(step.Connect? && p == Peer(s.d.uniqueId + 1, step.sck, [], []))
    ensures q in s.d.peers && q.id == p.id && q.sck == p.sck
  {
    q := p;
    match step {
      case Get => q := BeforeGet(s, p);
      case Service(i, ev) => q := BeforeVisit(s, i, ev, p);
      case _ =>
    }
  }

  lemma BeforeGet(s: System, p: Peer) returns (q: Peer)
    requires Enabled(s, Get) && p in Next(s, Get).d.peers
    ensures q in s.d.peers && q.id == p.id && q.sck == p.sck
  {
    DeliveryLength(s.d, s.toGpp[0]);
    var k :| 0 <= k < |Next(s, Get).d.peers| && Next(s, Get).d.peers[k] == p;
    q := s.d.peers[k];
  }

  lemma BeforeVisit(s: System, i: nat, ev: Event, p: Peer) returns (q: Peer)
    requires Valid(s.d) && Enabled(s, Service(i, ev)) && p in Next(s, Service(i, ev)).d.peers
    ensures q in s.d.peers && q.id == p.id && q.sck == p.sck
  {
    ServiceExact(s, i, ev);
    q := if p in s.d.peers then p else s.d.peers[i];
  }

  // ---- ids ----

  lemma ServiceIds(s: System, i: nat, ev: Event)
    requires Enabled(s, Service(i, ev))
    ensures Ids(Next(s, Service(i, ev)).d.peers) <= Ids(s.d.peers)
    ensures Next(s, Service(i, ev)).d.uniqueId == s.d.uniqueId
  {
    VisitedIsServe(s, i, ev);
    var e := Serve(s.d, i, ev);
    forall k | 0 <= k < |e.peers|
      ensures e.peers[k].id in Ids(s.d.peers)
    {
      var j := ServeOrigin(s.d, i, ev, k);
      assert s.d.peers[j] in s.d.peers;
    }
  }

  lemma StepIds(s: System, step: Step, id: int)
    requires Enabled(s, step) && Gone(s, id)
    ensures Gone(Next(s, step), id)
  {
    match step
    case Boot(ok) =>
    case Get => SameIds(s.d, s.toGpp[0]);
    case Connect(sck) =>
    case Service(i, ev) => ServiceIds(s, i, ev);
    case Terminate(ok) =>
    case DspGet =>
    case DspFinish(crc, ok) =>
    case Located(handle, ok) =>
  }

  /** An id that was given out and is not there any more. */
  predicate Gone(s: System, id: int) {
    id <= s.d.uniqueId && id !in Ids(s.d.peers)
  }

  lemma GoneStays(run: seq<System>, steps: seq<Step>, k: nat, id: int)
    requires IsRun(run, steps) && k < |steps| && Gone(run[k], id)
    ensures Gone(run[k + 1], id)
  {
    StepIds(run[k], steps[k], id);
  }

  lemma {:induction false} FromThenOn(p: nat -> bool, j: nat, k: nat)
    requires j <= k && p(j) && forall i :: j <= i < k && p(i) ==> p(i + 1)
    ensures p(k)
    decreases k
  {
    if j < k {
      FromThenOn(p, j, k - 1);
    }
  }

  /**
   An id that has been given up is never given out again, whatever sockets are reused, so a late
   answer for a removed peer reaches nobody.
   */
  lemma IdsNeverReturn(run: seq<System>, steps: seq<Step>, j: nat, k: nat, id: int)
    requires IsRun(run, steps) && j <= k < |run| && Gone(run[j], id)
    ensures Gone(run[k], id)
  {
    var p := (i: nat) => i < |run| && Gone(run[i], id);
    forall i | j <= i < k && p(i)
      ensures p(i + 1)
    {
      GoneStays(run, steps, i, id);
    }
    FromThenOn(p, j, k);
  }

  lemma LateAnswerDropped(run: seq<System>, steps: seq<Step>, j: nat, k: nat, m: Message)
    requires IsRun(run, steps) && j <= k < |steps| && steps[k] == Get && run[k].toGpp[0] == m && m.body != Locate
    requires Gone(run[j], m.owner)
    ensures run[k + 1].d.peers == run[k].d.peers && run[k + 1].replied == run[k].replied
  {
    IdsNeverReturn(run, steps, j, k, m.owner);
    FindNobody(run[k].d.peers, m.owner);
  }

  lemma FindNobody(peers: seq<Peer>, id: int)
    requires id !in Ids(peers)
    ensures Find(peers, id) == |peers|
  {
    forall k | 0 <= k < |peers|
      ensures peers[k].id != id
    {
      assert peers[k] in peers;
    }
  }

  // ---- the main loop as a run ----

  /** One visit of the traversal is a Service step. */
  lemma OneVisitStep(s: System, i: nat, evs: seq<Event>, k: nat, p: (State, nat, nat) -> bool)
    returns (u: System, j: nat)
    requires s.phase == Looping && k < |evs| && Kept(p, evs) && p(s.d, i, k)
    ensures Enabled(s, Service(i, evs[k])) && u == Next(s, Service(i, evs[k]))
    ensures u.phase == Looping && u.toGpp == s.toGpp && p(u.d, j, k + 1)
  {
    u, j := Next(s, Service(i, evs[k])), i + |Keep(s.d.peers[i], evs[k])|;
    VisitedIsServe(s, i, evs[k]);
    assert u.d == Serve(s.d, i, evs[k]);
  }

  /** Visits with these events, in order. */
  predicate Visits(steps: seq<Step>, evs: seq<Event>) {
    |steps| == |evs| && forall x :: 0 <= x < |steps| ==> steps[x].Service? && steps[x].ev == evs[x]
  }

  lemma {:induction false} VisitsTo(s: System, i: nat, evs: seq<Event>, k: nat, p: (State, nat, nat) -> bool)
    returns (all: seq<Step>, t: System, j: nat)
    requires s.phase == Looping && k <= |evs| && Kept(p, evs) && p(s.d, i, k)
    ensures Visits(all, evs[k..]) && Follow(s, all) == Reached(t)
    ensures t.phase == Looping && t.toGpp == s.toGpp && p(t.d, j, |evs|)
    decreases |evs| - k
  {
    if k == |evs| {
      all, t, j := [], s, i;
    } else {
      var u, next := OneVisitStep(s, i, evs, k, p);
      var rest;
      rest, t, j := VisitsTo(u, next, evs, k + 1, p);
      all := [Service(i, evs[k])] + rest;
      FirstThen(s, Service(i, evs[k]), u, rest);
    }
  }

  /** dspmain_peer_check_fds, which Dspmain has on the heap, is a run of single visits. */
  lemma PassIsSteps(s: System, evs: seq<Event>) returns (all: seq<Step>, t: System)
    requires s.phase == Looping && |evs| == |s.d.peers|
    ensures Visits(all, evs) && Follow(s, all) == Reached(t)
    ensures t.d == CheckFds(s.d, evs) && t.phase == Looping && t.toGpp == s.toGpp
  {
    var goal := CheckFds(s.d, evs);
    var p := (d: State, i: nat, k: nat) => k <= |evs| && i + |evs| - k == |d.peers| && PassFrom(d, i, evs, k) == goal;
    PassKept(p, evs, goal);
    var j;
    all, t, j := VisitsTo(s, 0, evs, 0, p);
    assert evs[0..] == evs;
  }

  lemma {:induction false} RunThen(s: System, a: seq<Step>, t: System, b: seq<Step>)
    requires Follow(s, a) == Reached(t)
    ensures Follow(s, a + b) == Follow(t, b)
    decreases |a|
  {
    if a == [] {
      assert a + b == b;
    } else {
      assert (a + b)[1..] == a[1..] + b;
      RunThen(Next(s, a[0]), a[1..], t, b);
    }
  }

  function Gets(n: nat): (steps: seq<Step>)
    ensures |steps| == n
  {
    seq(n, _ => Get)
  }

  lemma {:induction false} GetsProcess(s: System, n: nat) returns (t: System)
    requires s.phase == Looping && n <= |s.toGpp|
    ensures Follow(s, Gets(n)) == Reached(t) && t.d == ProcessAll(s.d, s.toGpp[..n])
    decreases n
  {
    if n == 0 {
      t := s;
    } else {
      var u := Next(s, Get);
      assert s.toGpp[..n][1..] == u.toGpp[..n - 1];
      t := GetsProcess(u, n - 1);
      FirstThen(s, Get, u, Gets(n - 1));
      assert [Get] + Gets(n - 1) == Gets(n);
    }
  }

  function Accepts(accepted: seq<int>): seq<Step> {
    if accepted == [] then [] else [Connect(accepted[0])]
  }

  /** A connection accepted, if any, one visit of each peer, and n messages taken. */
  ghost predicate Serving(steps: seq<Step>, accepted: seq<int>, evs: seq<Event>, n: nat) {
    exists pass :: Visits(pass, evs) && steps == Accepts(accepted) + pass + Gets(n)
  }

  /**
   Every turn of dspmain_loop is a run of the steps the invariants are about: with a socket ready it serves
   and takes n messages; otherwise it waits for one if the counter is positive, and does nothing if not.
   */
  lemma TurnIsSteps(s: System, ready: bool, accepted: seq<int>, evs: seq<Event>, n: nat)
    returns (all: seq<Step>, t: System)
    requires s.phase == Looping && n <= |s.toGpp|
    requires ready ==> |evs| == |AcceptAny(s.d, accepted).peers|
    requires !ready ==> n <= if s.d.link.processingCount > 0 then 1 else 0
    ensures ready ==> Serving(all, accepted, evs, n)
    ensures !ready ==> all == Gets(n)
    ensures Follow(s, all) == Reached(t)
    ensures t.d == AfterTurn(s.d, ChooseTurn(ready, s.d.link.processingCount), accepted, evs, s.toGpp[..n])
  {
    if ready {
      all, t := ServingIsSteps(s, accepted, evs, n);
    } else {
      all := Gets(n);
      t := GetsProcess(s, n);
      if n == 1 {
        assert s.toGpp[..1][1..] == [];
      }
    }
  }

  lemma AcceptIsSteps(s: System, accepted: seq<int>) returns (t: System)
    requires s.phase == Looping
    ensures Follow(s, Accepts(accepted)) == Reached(t)
    ensures t.d == AcceptAny(s.d, accepted) && t.phase == Looping && t.toGpp == s.toGpp
  {
    if accepted == [] {
      t := s;
    } else {
      t := Next(s, Connect(accepted[0]));
      OneStep(s, Connect(accepted[0]));
    }
  }

  lemma ServingIsSteps(s: System, accepted: seq<int>, evs: seq<Event>, n: nat) returns (all: seq<Step>, t: System)
    requires s.phase == Looping && n <= |s.toGpp| && |evs| == |AcceptAny(s.d, accepted).peers|
    ensures Serving(all, accepted, evs, n) && Follow(s, all) == Reached(t)
    ensures t.d == ProcessAll(CheckFds(AcceptAny(s.d, accepted), evs), s.toGpp[..n])
  {
    var u := AcceptIsSteps(s, accepted);
    var pass, v := PassIsSteps(u, evs);
    t := GetsProcess(v, n);
    all := Accepts(accepted) + pass + Gets(n);
    RunThen(s, Accepts(accepted), u, pass);
    RunThen(s, Accepts(accepted) + pass, v, Gets(n));
  }

  // ---- sending it all ----

  function Visiting(i: nat, ev: Event, n: nat): (steps: seq<Step>)
    ensures |steps| == n
  {
    seq(n, _ => Service(i, ev))
  }

  /** The socket takes whole replies and has nothing to read. */
  predicate Taking(p: Peer, ev: Event) {
    !ev.readable && ev.writable && ev.room > 0 && forall k :: 0 <= k < |p.out| ==> |p.out[k]| <= ev.room
  }

  /** One such visit sends the first reply. */
  lemma TakesFirst(s: System, i: nat, ev: Event, p: Peer, rest: seq<Step>) returns (u: System)
    requires s.phase == Looping && Valid(s.d) && i < |s.d.peers| && p == s.d.peers[i] && p.out != [] && Taking(p, ev)
    requires p.id in s.sent
    ensures Follow(s, [Service(i, ev)] + rest) == Follow(u, rest) && u.phase == Looping && Valid(u.d)
    ensures u.d.peers == s.d.peers[i := p.(out := p.out[1..])]
    ensures u.sent == s.sent[p.id := s.sent[p.id] + p.out[0]]
  {
    u := Next(s, Service(i, ev));
    ServiceExact(s, i, ev);
    StepKeepsValid(s, Service(i, ev));
    assert u.d.peers == s.d.peers[..i] + [p.(out := p.out[1..])] + s.d.peers[i + 1..];
    assert p.out[0][..|p.out[0]|] == p.out[0];
    FirstThen(s, Service(i, ev), u, rest);
  }

  /**
   As many visits as there are replies queued, by a socket that takes whole replies, send all of them and
   leave the queue empty; no other peer changes.
   */
  lemma {:induction false} Drains(s: System, i: nat, ev: Event, p: Peer) returns (t: System)
    requires s.phase == Looping && Valid(s.d) && i < |s.d.peers| && p == s.d.peers[i] && Taking(p, ev) && p.id in s.sent
    ensures Follow(s, Visiting(i, ev, |p.out|)) == Reached(t)
    ensures t.d.peers == s.d.peers[i := p.(out := [])]
    ensures t.sent == s.sent[p.id := s.sent[p.id] + Flatten(p.out)]
    decreases |p.out|
  {
    if p.out == [] {
      t := s;
      assert s.sent[p.id] + [] == s.sent[p.id];
    } else {
      var q := p.(out := p.out[1..]);
      var u := TakesFirst(s, i, ev, p, Visiting(i, ev, |q.out|));
      t := Drains(u, i, ev, q);
      assert [Service(i, ev)] + Visiting(i, ev, |q.out|) == Visiting(i, ev, |p.out|);
      SentInTurn(s.sent, p.id, p.out[0], p.out[1..]);
      assert [p.out[0]] + p.out[1..] == p.out;
    }
  }

  lemma SentInTurn(sent: map<int, seq<Byte>>, id: int, first: seq<Byte>, later: seq<seq<Byte>>)
    requires id in sent
    ensures sent[id := sent[id] + first][id := sent[id] + first + Flatten(later)]
         == sent[id := sent[id] + Flatten([first] + later)]
  {
    assert ([first] + later)[1..] == later;
    assert (sent[id] + first) + Flatten(later) == sent[id] + (first + Flatten(later));
  }

  /** So every answer that has been queued to a peer can be brought to it. */
  lemma AllRepliesDelivered(run: seq<System>, steps: seq<Step>, k: nat, i: nat, ev: Event) returns (t: System)
    requires IsRun(run, steps) && k < |run| && run[k].phase == Looping && i < |run[k].d.peers|
    requires Taking(run[k].d.peers[i], ev)
    ensures Follow(run[k], Visiting(i, ev, |run[k].d.peers[i].out|)) == Reached(t)
    ensures i < |t.d.peers| && t.d.peers[i] == run[k].d.peers[i].(out := [])
    ensures run[k].d.peers[i].id in t.sent
    ensures t.sent[run[k].d.peers[i].id] == AnswersTo(run[k].replied, run[k].d.peers[i].id)
  {
    var p := run[k].d.peers[i];
    Reachable(run, steps, k);
    BytesAreReplies(run, steps, k, p);
    t := Drains(run[k], i, ev, p);
  }
}
