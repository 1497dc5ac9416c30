/**
 Sequences of messages in use: how many replies they promise, which numbers they carry, in what order.
 */
module Pipeline {
  import opened Daemon

  function Numbers(ms: seq<Message>): multiset<int> {
    if ms == [] then multiset{} else Numbers(ms[..|ms| - 1]) + multiset{ms[|ms| - 1].sequence}
  }

  lemma {:induction false} NumbersConcat(a: seq<Message>, b: seq<Message>)
    ensures Numbers(a + b) == Numbers(a) + Numbers(b)
    decreases |b|
  {
    if b == [] {
      assert a + b == a;
    } else {
      assert (a + b)[..|a + b| - 1] == a + b[..|b| - 1];
      NumbersConcat(a, b[..|b| - 1]);
    }
  }

  /** The messages whose reply the daemon counts on. */
  function Counted(ms: seq<Message>): nat {
    if ms == [] then 0 else Counted(ms[..|ms| - 1]) + if ms[|ms| - 1].body == Shutdown then 0 else 1
  }

  lemma {:induction false} CountedConcat(a: seq<Message>, b: seq<Message>)
    ensures Counted(a + b) == Counted(a) + Counted(b)
    decreases |b|
  {
    if b == [] {
      assert a + b == a;
    } else {
      assert (a + b)[..|a + b| - 1] == a + b[..|b| - 1];
      CountedConcat(a, b[..|b| - 1]);
    }
  }

  function Range(n: nat): multiset<int> {
    if n == 0 then multiset{} else Range(n - 1) + multiset{n - 1}
  }

  /** One message is added at the end, replaced in its place, taken away, or none of these. */
  datatype Move =
    | Still
    | Added(m: Message)
    | Changed(a: seq<Message>, m: Message, other: Message, b: seq<Message>)
    | Removed(a: seq<Message>, m: Message, b: seq<Message>)

  predicate Moves(was: seq<Message>, now: seq<Message>, v: Move) {
    match v
    case Still => now == was
    case Added(m) => now == was + [m]
    case Changed(a, m, other, b) =>
      && was == a + [m] + b && now == a + [other] + b && other.sequence == m.sequence
      && (other.body == Shutdown <==> m.body == Shutdown)
    case Removed(a, m, b) => was == a + [m] + b && now == a + b
  }

  /** How many counted messages and how many numbers a move adds. */
  lemma MoveCounts(was: seq<Message>, now: seq<Message>, v: Move)
    requires Moves(was, now, v)
    ensures Counted(now) == Counted(was)
      + (if v.Added? && v.m.body != Shutdown then 1 else if v.Removed? && v.m.body != Shutdown then -1 else 0)
    ensures v.Still? || v.Changed? ==> Numbers(now) == Numbers(was)
    ensures v.Added? ==> Numbers(now) == Numbers(was) + multiset{v.m.sequence}
    ensures v.Removed? ==> Numbers(was) == Numbers(now) + multiset{v.m.sequence}
  {
    match v
    case Still =>
    case Added(m) =>
      CountedConcat(was, [m]);
      NumbersConcat(was, [m]);
      Single(m);
    case Changed(a, m, other, b) =>
      Middle(a, m, b);
      Middle(a, other, b);
    case Removed(a, m, b) =>
      Middle(a, m, b);
      CountedConcat(a, b);
      NumbersConcat(a, b);
  }

  lemma Single(m: Message)
    ensures Counted([m]) == (if m.body == Shutdown then 0 else 1)
    ensures Numbers([m]) == multiset{m.sequence}
  {
    assert [m][..0] == [];
  }

  lemma Middle(a: seq<Message>, m: Message, b: seq<Message>)
    ensures Counted(a + [m] + b) == Counted(a) + Counted(b) + (if m.body == Shutdown then 0 else 1)
    ensures Numbers(a + [m] + b) == Numbers(a) + Numbers(b) + multiset{m.sequence}
  {
    CountedConcat(a, [m]);
    CountedConcat(a + [m], b);
    NumbersConcat(a, [m]);
    NumbersConcat(a + [m], b);
    Single(m);
  }

  // ---- order ----

  predicate Ascending(ms: seq<Message>) {
    forall j, k :: 0 <= j < k < |ms| ==> ms[j].sequence < ms[k].sequence
  }

  predicate Below(ms: seq<Message>, n: nat) {
    forall m :: m in ms ==> m.sequence < n
  }

  /** A move that adds only the next number keeps the messages, behind any others, in order. */
  lemma MoveKeepsOrder(before: seq<Message>, was: seq<Message>, now: seq<Message>, v: Move, n: nat)
    requires Moves(was, now, v) && Ascending(before + was) && Below(before + was, n)
    requires v.Added? ==> v.m.sequence == n
    ensures Ascending(before + now) && Below(before + now, n + 1)
    ensures !v.Added? ==> Below(before + now, n)
  {
    match v
    case Still =>
    case Added(m) =>
      assert before + now == (before + was) + [m];
    case Changed(a, m, other, b) =>
      assert before + was == (before + a) + [m] + b && before + now == (before + a) + [other] + b;
      assert forall k :: 0 <= k < |before + now| ==> (before + now)[k].sequence == (before + was)[k].sequence;
    case Removed(a, m, b) =>
      assert before + was == (before + a) + [m] + b && before + now == (before + a) + b;
      Thinned(before + a, m, b, n);
  }

  lemma Thinned(a: seq<Message>, m: Message, b: seq<Message>, n: nat)
    requires Ascending(a + [m] + b) && Below(a + [m] + b, n)
    ensures Ascending(a + b) && Below(a + b, n)
  {
    var all := a + [m] + b;
    forall k | 0 <= k < |a + b|
      ensures (a + b)[k] == all[if k < |a| then k else k + 1]
    {
    }
  }

  // ---- the balance ----

  /**
   count is the daemon's counter, lost the number of answers lost, n the next number to hand out and
   answered the messages that have been replied to: the counter counts the replies still owed and
   those lost; every number handed out is in exactly one place, in use or freed once; messages keep
   the order in which they were allocated.
   */
  predicate Balanced(count: int, pipe: seq<Message>, lost: nat, freed: multiset<int>, n: nat, answered: seq<Message>) {
    && count == Counted(pipe) + lost
    && freed + Numbers(pipe) == Range(n)
    && Ascending(answered + pipe) && Below(answered + pipe, n)
  }

  lemma BalancedIssue(count: int, pipe: seq<Message>, lost: nat, freed: multiset<int>, n: nat, answered: seq<Message>,
    m: Message, putOk: bool)
    requires Balanced(count, pipe, lost, freed, n, answered) && m.sequence == n
    ensures putOk ==> Balanced(count + if m.body == Shutdown then 0 else 1, pipe + [m], lost, freed, n + 1, answered)
    ensures !putOk ==> Balanced(count, pipe, lost, freed + multiset{n}, n + 1, answered)
  {
    if putOk {
      MoveCounts(pipe, pipe + [m], Added(m));
      MoveKeepsOrder(answered, pipe, pipe + [m], Added(m), n);
    }
  }

  lemma BalancedAnswer(count: int, a: seq<Message>, m: Message, other: Message, b: seq<Message>, lost: nat,
    freed: multiset<int>, n: nat, answered: seq<Message>)
    requires Balanced(count, a + [m] + b, lost, freed, n, answered)
    requires other.sequence == m.sequence && m.body != Shutdown && other.body != Shutdown
    ensures Balanced(count, a + [other] + b, lost, freed, n, answered)
    ensures Balanced(count, a + b, lost + 1, freed + multiset{m.sequence}, n, answered)
  {
    MoveCounts(a + [m] + b, a + [other] + b, Changed(a, m, other, b));
    MoveKeepsOrder(answered, a + [m] + b, a + [other] + b, Changed(a, m, other, b), n);
    MoveCounts(a + [m] + b, a + b, Removed(a, m, b));
    MoveKeepsOrder(answered, a + [m] + b, a + b, Removed(a, m, b), n);
  }

  lemma BalancedShutdown(count: int, a: seq<Message>, m: Message, b: seq<Message>, lost: nat,
    freed: multiset<int>, n: nat, answered: seq<Message>)
    requires Balanced(count, a + [m] + b, lost, freed, n, answered) && m.body == Shutdown
    ensures Balanced(count, a + b, lost, freed + multiset{m.sequence}, n, answered)
  {
    MoveCounts(a + [m] + b, a + b, Removed(a, m, b));
    MoveKeepsOrder(answered, a + [m] + b, a + b, Removed(a, m, b), n);
  }

  lemma BalancedTake(count: int, m: Message, b: seq<Message>, lost: nat, freed: multiset<int>, n: nat,
    answered: seq<Message>)
    requires Balanced(count, [m] + b, lost, freed, n, answered) && m.body != Shutdown
    ensures Balanced(count - 1, b, lost, freed + multiset{m.sequence}, n, answered)
    ensures Balanced(count - 1, b, lost, freed + multiset{m.sequence}, n, answered + [m])
  {
    assert [] + [m] + b == [m] + b && [] + b == b;
    MoveCounts([m] + b, b, Removed([], m, b));
    MoveKeepsOrder(answered, [m] + b, b, Removed([], m, b), n);
    assert (answered + [m]) + b == answered + ([m] + b);
  }
}
