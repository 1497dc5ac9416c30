/**
 The EDMA3 engine as the DSP code drives it: a live PaRAM set linked to a chain of two others,
 a copier that moves one byte at a time behind the CPU's back, and the completion callback that
 posts a semaphore.
 */
module Edma {
  import opened Memory

  const L1DADDR := 0x10f0_C000
  const TABLE_BYTES := 1024

  /** Where a PaRAM set reloads from. */
  datatype Link = NoLink | LinkPing | LinkPong

  datatype ParamSet = ParamSet(src: Address, dst: Address, srcBIdx: int, dstBIdx: int, abCnt: int, link: Link)

  /** The registers of a transfer request inside the engine. */
  datatype Transfer = Transfer(src: Address, dst: int, aCnt: nat, rows: nat, col: nat, srcBIdx: int, dstBIdx: int)

  /** What a started transfer is to put where, and how much of it has arrived. */
  datatype Delivery = Delivery(target: int, bytes: seq<bv8>, copied: nat)

  datatype Status = XferComplete | DmaEventMiss | QdmaEventMiss | OtherStatus

  /** (b << 16) | a for values that fit their 16-bit fields. */
  function PackAB(a: int, b: int): int
    requires 0 <= a < 0x1_0000 && 0 <= b < 0x1_0000
  {
    b * 0x1_0000 + a
  }

  function ACount(ab: int): nat { ab % 0x1_0000 }

  function BCount(ab: int): nat { (ab / 0x1_0000) % 0x1_0000 }

  lemma PackRoundTrip(a: int, b: int)
    requires 0 <= a < 0x1_0000 && 0 <= b < 0x1_0000
    ensures ACount(PackAB(a, b)) == a && BCount(PackAB(a, b)) == b
  {
  }

  /** Link reload: when the live set has been used up it is overwritten from the set it links to. */
  function Reload(live: ParamSet, linkPing: ParamSet, linkPong: ParamSet): ParamSet {
    match live.link
    case LinkPing => linkPing
    case LinkPong => linkPong
    case NoLink => live
  }

  /** The live set after k reloads. */
  function LiveAfter(first: ParamSet, linkPing: ParamSet, linkPong: ParamSet, k: nat): ParamSet {
    if k == 0 then first else Reload(LiveAfter(first, linkPing, linkPong, k - 1), linkPing, linkPong)
  }

  /** The chain set_param_link builds: channel to pong, pong to ping, ping to pong. */
  predicate PingPongChain(first: ParamSet, linkPing: ParamSet, linkPong: ParamSet, ping: int, pong: int) {
    && first.dst == linkPing.dst == ping && linkPong.dst == pong
    && first.link == LinkPong && linkPong.link == LinkPing && linkPing.link == LinkPong
  }

  /** Over a run of any length transfer k lands in ping when k is even and in pong when it is odd. */
  lemma {:induction false} LandsAlternately(
    first: ParamSet, linkPing: ParamSet, linkPong: ParamSet, ping: int, pong: int, k: nat)
    requires PingPongChain(first, linkPing, linkPong, ping, pong)
    ensures var live := LiveAfter(first, linkPing, linkPong, k);
      && live.dst == (if k % 2 == 0 then ping else pong)
      && live.link == (if k % 2 == 0 then LinkPong else LinkPing)
  {
    if k > 0 {
      LandsAlternately(first, linkPing, linkPong, ping, pong, k - 1);
    }
  }

  /** The two sets send a transfer the same way; source and counts are set for each transfer. */
  predicate SameRoute(a: ParamSet, b: ParamSet) {
    a.dst == b.dst && a.srcBIdx == b.srcBIdx && a.dstBIdx == b.dstBIdx && a.link == b.link
  }

  class Dsp {
    /** All of memory, the on-chip scratch included. */
    const mem: array<bv8>
    /** The two half-buffers. */
    const ping: int
    const pong: int
    const size: int

    // PaRAM: the channel's live set and the two link sets
    var live: ParamSet
    var linkPing: ParamSet
    var linkPong: ParamSet

    // the transfer request in the engine
    var inFlight: bool
    var tr: Transfer

    // completion signalling
    var sem: nat
    var irqRaised: int

    /** dii->user[0] */
    var user0: bv32

    /** Memory as it was when the request was taken up. */
    ghost var image: seq<bv8>
    /** A transfer has been started and not yet waited for, and what it delivers. */
    ghost var pending: bool
    ghost var goal: Delivery
    /** Registers rewritten since the live set was last reloaded. */
    ghost var srcWritten: bool
    ghost var countsWritten: bool
    /** Transfers started on this channel, and the live set before the first. */
    ghost var starts: nat
    ghost var first: ParamSet
    /** Everything handed to the process callback so far. */
    ghost var consumed: seq<bv8>

    /** An idle engine, with the halves where the service wants them. */
    constructor (ping: int, pong: int, size: int)
      requires 0 < size < 0x8000
      requires 0 <= ping && ping + size <= MEMORY_BYTES && 0 <= pong && pong + size <= MEMORY_BYTES
      requires ping + size <= pong || pong + size <= ping
      requires ping + size <= L1DADDR || L1DADDR + TABLE_BYTES <= ping
      requires pong + size <= L1DADDR || L1DADDR + TABLE_BYTES <= pong
      ensures Valid() && !pending && !inFlight && sem == 0
      ensures this.ping == ping && this.pong == pong && this.size == size && fresh(mem)
    {
      var bytes := new bv8[MEMORY_BYTES](_ => 0);
      var unused := ParamSet(0, ping, 0, 0, 0, NoLink);
      mem, this.ping, this.pong, this.size := bytes, ping, pong, size;
      live, linkPing, linkPong, first := unused, unused, unused, unused;
      inFlight, tr, sem, irqRaised, user0 := false, Transfer(0, ping, 0, 0, 0, 0, 0), 0, 0, 0;
      image, pending, goal := bytes[..], false, Delivery(ping, [], 0);
      srcWritten, countsWritten, starts, consumed := false, false, 0, [];
    }

    predicate InTable(x: int) { L1DADDR <= x < L1DADDR + TABLE_BYTES }

    predicate InHalf(x: int, half: int) { half <= x < half + size }

    predicate InScratch(x: int) {
      InTable(x) || InHalf(x, ping) || InHalf(x, pong)
    }

    /** Table, ping and pong are disjoint and inside memory. */
    ghost predicate Layout()
    {
      && mem.Length == MEMORY_BYTES
      && 0 < size < 0x8000
      && 0 <= ping && ping + size <= MEMORY_BYTES
      && 0 <= pong && pong + size <= MEMORY_BYTES
      && (ping + size <= pong || pong + size <= ping)
      && (ping + size <= L1DADDR || L1DADDR + TABLE_BYTES <= ping)
      && (pong + size <= L1DADDR || L1DADDR + TABLE_BYTES <= pong)
    }

    ghost predicate RowOutside(src: Address, n: nat) {
      forall i :: 0 <= i < n ==> !InScratch(ByteAddress(src, i))
    }

    /** No visible byte of the image lies in the scratch area. */
    ghost predicate RowsOutside(src: Address, stride: int, n: nat, rows: nat)
      decreases rows
    {
      rows == 0 || (RowOutside(src, n) && RowsOutside(Wrap(src + stride), stride, n, rows - 1))
    }

    /** Outside the scratch area memory is as it was when the request was taken up. */
    ghost predicate KeepsImage()
      reads `image, mem
    {
      && mem.Length == |image| == MEMORY_BYTES
      && forall x :: 0 <= x < MEMORY_BYTES && !InScratch(x) ==> mem[x] == image[x]
    }

    /** What a pending transfer has copied so far is a prefix of what it is to deliver. */
    ghost predicate Delivering()
      reads `pending, `goal, mem
    {
      && mem.Length == MEMORY_BYTES
      && (pending ==>
            && (goal.target == ping || goal.target == pong)
            && goal.copied <= |goal.bytes| <= size
            && 0 <= goal.target && goal.target + |goal.bytes| <= MEMORY_BYTES
            && forall i :: 0 <= i < goal.copied ==> mem[goal.target + i] == goal.bytes[i])
    }

    /** The engine's registers describe exactly the bytes still to be copied. */
    ghost predicate Describes(m: seq<bv8>, t: Transfer, g: Delivery)
    {
      && |m| == MEMORY_BYTES
      && 1 <= t.aCnt == t.dstBIdx
      && t.col <= g.copied <= |g.bytes|
      && (if t.rows == 0 then t.col == 0 else t.col <= t.aCnt)
      && t.dst + t.col == g.target + g.copied
      && g.bytes[g.copied - t.col..] == Strided(m, t.src, t.srcBIdx, t.aCnt, t.rows)
      && RowsOutside(t.src, t.srcBIdx, t.aCnt, t.rows)
    }

    ghost predicate FlightValid()
      reads `image, `inFlight, `tr, `goal
    {
      inFlight ==> Describes(image, tr, goal)
    }

    /** At most one transfer is outstanding, and its completion is posted exactly once. */
    ghost predicate Signals()
      reads `pending, `inFlight, `sem, `irqRaised, `goal
    {
      && (inFlight ==> pending && sem == 0)
      && (pending && !inFlight ==> sem == 1 && irqRaised == 1 && goal.copied == |goal.bytes|)
      && (!pending ==> sem == 0)
    }

    ghost predicate Valid()
      reads this, mem
    {
      Layout() && KeepsImage() && Delivering() && FlightValid() && Signals()
    }

    /** The half a pending transfer writes; no CPU access may touch it. */
    ghost predicate Busy(x: int)
      reads this
    {
      pending && InHalf(x, goal.target)
    }

    /** The bytes in memory from x on. */
    ghost predicate Holds(x: int, bytes: seq<bv8>)
      reads mem
    {
      0 <= x && x + |bytes| <= mem.Length && forall i :: 0 <= i < |bytes| ==> mem[x + i] == bytes[i]
    }

    method Callback1(status: Status)
      modifies this`irqRaised, this`sem
      ensures sem == old(sem) + if status == OtherStatus then 0 else 1
      ensures irqRaised ==
        match status
        case XferComplete => 1
        case DmaEventMiss => -1
        case QdmaEventMiss => -2
        case OtherStatus => old(irqRaised)
    {
      match status
      case XferComplete => irqRaised := 1; sem := sem + 1;
      case DmaEventMiss => irqRaised := -1; sem := sem + 1;
      case QdmaEventMiss => irqRaised := -2; sem := sem + 1;
      case OtherStatus =>
    }

    /** One step of the engine: copy the next byte, move to the next row, or signal the end. */
    method Step()
      requires Valid() && inFlight
      modifies mem, `inFlight, `tr, `goal, `irqRaised, `sem
      ensures Valid()
      ensures forall x :: 0 <= x < MEMORY_BYTES && !Busy(x) ==> mem[x] == old(mem[x])
      ensures inFlight ==> Remaining() < old(Remaining())
      ensures goal.target == old(goal.target) && goal.bytes == old(goal.bytes)
    {
      if tr.rows == 0 {
        inFlight := false;
        Callback1(XferComplete);
      } else if tr.col == tr.aCnt {
        NextRow();
      } else {
        CopyByte();
      }
    }

    /** A measure of what the engine still has to do. */
    ghost function Remaining(): int
      reads `goal, `tr
    {
      2 * (|goal.bytes| - goal.copied) + (if tr.col == 0 then 0 else 1)
    }

    method NextRow()
      requires FlightValid() && inFlight && tr.rows > 0 && tr.col == tr.aCnt
      modifies `tr
      ensures FlightValid() && tr.col == 0
    {
      RowDone(image, tr, goal);
      tr := tr.(rows := tr.rows - 1, src := Wrap(tr.src + tr.srcBIdx), dst := tr.dst + tr.dstBIdx, col := 0);
    }

    lemma RowDone(m: seq<bv8>, t: Transfer, g: Delivery)
      requires Describes(m, t, g) && t.rows > 0 && t.col == t.aCnt
      ensures
        var next := t.(rows := t.rows - 1, src := Wrap(t.src + t.srcBIdx), dst := t.dst + t.dstBIdx, col := 0);
        Describes(m, next, g)
    {
      StridedHead(m, t.src, t.srcBIdx, t.aCnt, t.rows, g.bytes[g.copied - t.col..], 0);
      assert g.bytes[g.copied - t.col..][t.aCnt..] == g.bytes[g.copied..];
    }

    method CopyByte()
      requires Valid() && inFlight && tr.rows > 0 && tr.col < tr.aCnt
      modifies mem, `tr, `goal
      ensures Valid()
      ensures forall x :: 0 <= x < MEMORY_BYTES && !Busy(x) ==> mem[x] == old(mem[x])
      ensures goal == old(goal).(copied := old(goal).copied + 1)
    {
      NextByte(image, tr, goal);
      var b := mem[ByteAddress(tr.src, tr.col)];
      assert b == goal.bytes[goal.copied];
      PutByte(tr.dst + tr.col, b);
      tr := tr.(col := tr.col + 1);
    }

    /** The next source byte is the next byte of the delivery, and no transfer ever writes it. */
    lemma NextByte(m: seq<bv8>, t: Transfer, g: Delivery)
      requires Describes(m, t, g) && t.rows > 0 && t.col < t.aCnt
      ensures g.copied < |g.bytes| && m[ByteAddress(t.src, t.col)] == g.bytes[g.copied]
      ensures !InScratch(ByteAddress(t.src, t.col))
      ensures Describes(m, t.(col := t.col + 1), g.(copied := g.copied + 1))
    {
      StridedHead(m, t.src, t.srcBIdx, t.aCnt, t.rows, g.bytes[g.copied - t.col..], t.col);
      assert g.bytes[g.copied - t.col..][t.col] == g.bytes[g.copied];
      assert RowOutside(t.src, t.aCnt);
    }

    /** Store the next byte of the delivery. */
    method PutByte(x: int, b: bv8)
      requires Layout() && KeepsImage() && Delivering() && pending && goal.copied < |goal.bytes|
      requires x == goal.target + goal.copied && b == goal.bytes[goal.copied]
      modifies mem, `goal
      ensures KeepsImage() && Delivering()
      ensures goal == old(goal).(copied := old(goal).copied + 1)
      ensures forall y :: 0 <= y < MEMORY_BYTES && !Busy(y) ==> mem[y] == old(mem[y])
    {
      mem[x] := b;
      goal := goal.(copied := goal.copied + 1);
    }

    /** Any number of engine steps, at the engine's own pace. */
    method Interleave()
      requires Valid()
      modifies mem, `inFlight, `tr, `goal, `irqRaised, `sem
      ensures Valid()
      ensures goal.target == old(goal.target) && goal.bytes == old(goal.bytes)
      ensures forall x :: 0 <= x < MEMORY_BYTES && !Busy(x) ==> mem[x] == old(mem[x])
    {
      var run: bool := *;
      while run && inFlight
        invariant Valid()
        invariant goal.target == old(goal.target) && goal.bytes == old(goal.bytes)
        invariant forall x :: 0 <= x < MEMORY_BYTES && !Busy(x) ==> mem[x] == old(mem[x])
        decreases inFlight, Remaining()
      {
        Step();
        run := *;
      }
    }

    /** MY_SET_PARAM_SRC */
    method SetParamSrc(src: Address)
      requires !pending
      modifies `live, `srcWritten
      ensures live == old(live).(src := src) && srcWritten
    {
      live := live.(src := src);
      srcWritten := true;
    }

    /** MY_SET_PARAM_AB */
    method SetParamAB(a: int, b: int)
      requires !pending
      requires 0 <= a < 0x1_0000 && 0 <= b < 0x1_0000
      modifies `live, `countsWritten
      ensures live == old(live).(abCnt := PackAB(a, b)) && countsWritten
    {
      live := live.(abCnt := PackAB(a, b));
      countsWritten := true;
    }

    /** The half transfer k lands in. */
    function HalfOf(k: nat): int { if k % 2 == 0 then ping else pong }

    lemma HalvesAlternate(k: nat)
      requires Layout()
      ensures HalfOf(k + 1) != HalfOf(k)
      ensures HalfOf(k) == ping || HalfOf(k) == pong
    {
    }

    /** The live set is where the link chain has brought it after `starts` transfers. */
    ghost predicate Chained()
      reads `live, `linkPing, `linkPong, `starts, `first
    {
      && PingPongChain(first, linkPing, linkPong, ping, pong)
      && SameRoute(linkPing, first.(link := LinkPong)) && linkPong.srcBIdx == first.srcBIdx
        && linkPong.dstBIdx == first.dstBIdx
      && SameRoute(live, LiveAfter(first, linkPing, linkPong, starts))
    }

    lemma ChainedRoute()
      requires Chained()
      ensures live.dst == HalfOf(starts)
      ensures live.srcBIdx == first.srcBIdx && live.dstBIdx == first.dstBIdx
    {
      LandsAlternately(first, linkPing, linkPong, ping, pong, starts);
      RouteIndexes(first, linkPing, linkPong, starts);
    }

    static lemma {:induction false} RouteIndexes(first: ParamSet, linkPing: ParamSet, linkPong: ParamSet, k: nat)
      requires first.srcBIdx == linkPing.srcBIdx == linkPong.srcBIdx
      requires first.dstBIdx == linkPing.dstBIdx == linkPong.dstBIdx
      ensures LiveAfter(first, linkPing, linkPong, k).srcBIdx == first.srcBIdx
      ensures LiveAfter(first, linkPing, linkPong, k).dstBIdx == first.dstBIdx
    {
      if k > 0 {
        RouteIndexes(first, linkPing, linkPong, k - 1);
      }
    }

    /** set_param_link: three sets, the channel's own first, linked into a chain. */
    method SetParamLink(srcStride: int, dstStride: int)
      requires Layout() && !pending
      modifies `live, `linkPing, `linkPong, `starts, `first, `srcWritten, `countsWritten
      ensures Chained() && starts == 0 && !srcWritten && !countsWritten
      ensures first.srcBIdx == SignExtend16(srcStride) && first.dstBIdx == SignExtend16(dstStride)
    {
      var paramSet := ParamSet(0, ping, SignExtend16(srcStride), SignExtend16(dstStride), 0, NoLink);
      live := paramSet;
      linkPing := paramSet;
      paramSet := paramSet.(dst := pong);
      linkPong := paramSet;
      live := live.(link := LinkPong);
      linkPong := linkPong.(link := LinkPing);
      linkPing := linkPing.(link := LinkPong);
      first := live;
      starts, srcWritten, countsWritten := 0, false, false;
    }

    /** DMA_START: the engine takes over the live set, which is then reloaded along its link. */
    method Start()
      requires Valid() && Chained() && !pending
      requires srcWritten && countsWritten
      requires 1 <= ACount(live.abCnt) == live.dstBIdx
      requires 1 <= BCount(live.abCnt)
      requires RowsOutside(live.src, live.srcBIdx, ACount(live.abCnt), BCount(live.abCnt))
      requires ACount(live.abCnt) * BCount(live.abCnt) <= size
      modifies `live, `inFlight, `tr, `pending, `goal, `srcWritten, `countsWritten, `starts
      ensures Valid() && Chained() && pending
      ensures starts == old(starts) + 1 && goal.target == HalfOf(old(starts))
      ensures goal.bytes ==
        Strided(image, old(live).src, old(live).srcBIdx, ACount(old(live).abCnt), BCount(old(live).abCnt))
      ensures !srcWritten && !countsWritten
    {
      ChainedRoute();
      StridedLength(image, live.src, live.srcBIdx, ACount(live.abCnt), BCount(live.abCnt));
      Latch(Strided(image, live.src, live.srcBIdx, ACount(live.abCnt), BCount(live.abCnt)));
      ReloadLive();
    }

    /** The engine takes the transfer request described by the live set. */
    method Latch(ghost bytes: seq<bv8>)
      requires Valid() && !pending
      requires live.dst == ping || live.dst == pong
      requires 1 <= ACount(live.abCnt) == live.dstBIdx
      requires 1 <= BCount(live.abCnt)
      requires RowsOutside(live.src, live.srcBIdx, ACount(live.abCnt), BCount(live.abCnt))
      requires bytes == Strided(image, live.src, live.srcBIdx, ACount(live.abCnt), BCount(live.abCnt))
      requires |bytes| <= size
      modifies `inFlight, `tr, `pending, `goal
      ensures Valid() && pending && goal.target == live.dst && goal.bytes == bytes
    {
      tr := Transfer(live.src, live.dst, ACount(live.abCnt), BCount(live.abCnt), 0, live.srcBIdx, live.dstBIdx);
      goal := Delivery(live.dst, bytes, 0);
      inFlight, pending := true, true;
    }

    method ReloadLive()
      requires Chained()
      modifies `live, `srcWritten, `countsWritten, `starts
      ensures Chained() && starts == old(starts) + 1 && !srcWritten && !countsWritten
    {
      live := Reload(live, linkPing, linkPong);
      starts, srcWritten, countsWritten := starts + 1, false, false;
    }

    /** DMA_WAIT: pend on the semaphore the completion callback posts. */
    method Wait()
      requires Valid() && pending
      modifies mem, `inFlight, `tr, `goal, `irqRaised, `sem, `pending
      ensures Valid() && !pending && irqRaised == 0
      ensures goal.target == old(goal.target) && goal.bytes == old(goal.bytes)
      ensures Holds(goal.target, goal.bytes)
      ensures forall x :: 0 <= x < MEMORY_BYTES && !InHalf(x, goal.target) ==> mem[x] == old(mem[x])
    {
      while sem == 0
        invariant Valid() && pending
        invariant goal.target == old(goal.target) && goal.bytes == old(goal.bytes)
        invariant forall x :: 0 <= x < MEMORY_BYTES && !InHalf(x, goal.target) ==> mem[x] == old(mem[x])
        decreases inFlight, Remaining()
      {
        Step();
      }
      sem := sem - 1;
      irqRaised := 0;
      pending := false;
    }

    /** A byte read by the CPU, with the engine free to run beforehand; never from the half in flight. */
    method Load(x: int) returns (b: bv8)
      requires Valid() && 0 <= x < MEMORY_BYTES && !Busy(x)
      modifies mem, `inFlight, `tr, `goal, `irqRaised, `sem
      ensures Valid() && b == old(mem[x])
      ensures goal.target == old(goal.target) && goal.bytes == old(goal.bytes)
      ensures forall y :: 0 <= y < MEMORY_BYTES && !Busy(y) ==> mem[y] == old(mem[y])
    {
      Interleave();
      b := mem[x];
    }

    /** A byte written by the CPU into the table area. */
    method Store(x: int, b: bv8)
      requires Valid() && InTable(x)
      modifies mem, `inFlight, `tr, `goal, `irqRaised, `sem
      ensures Valid() && mem[x] == b
      ensures goal.target == old(goal.target) && goal.bytes == old(goal.bytes)
      ensures forall y :: 0 <= y < MEMORY_BYTES && y != x && !Busy(y) ==> mem[y] == old(mem[y])
    {
      Interleave();
      mem[x] := b;
    }
  }
}
