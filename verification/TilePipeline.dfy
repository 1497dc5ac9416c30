/**
 The schedule of process_dma_pro: which callback runs on which half-buffer while which transfer is
 pending.  The transfers themselves exist in the source only as the comments beside each start, so
 a start is modelled as the half its comment names; the tile count, a constant 10 in the source, is
 a parameter.
 */
module TilePipeline {

  datatype Half = Ping | Pong

  datatype Stage = Rlgr | Diff | Dwt

  datatype Pending = Idle | Pending(half: Half)

  /** k tiles taken one after the other through the three stages. */
  function Tiles(k: nat): (r: seq<Stage>)
    ensures |r| == 3 * k
  {
    if k == 0 then [] else Tiles(k - 1) + [Rlgr, Diff, Dwt]
  }

  /** Position by position: tile i goes through the stages in order at 3i, 3i+1, 3i+2. */
  lemma {:induction false} TilesAt(k: nat, i: nat)
    requires i < k
    ensures Tiles(k)[3 * i] == Rlgr && Tiles(k)[3 * i + 1] == Diff && Tiles(k)[3 * i + 2] == Dwt
    decreases k
  {
    if i < k - 1 {
      TilesAt(k - 1, i);
    }
  }

  /** The halves a linked ping-pong channel would use: the first start, and every second one after it, is ping. */
  predicate Alternates(starts: seq<Half>) {
    forall k :: 0 <= k < |starts| ==> starts[k] == (if k % 2 == 0 then Ping else Pong)
  }

  class Pipeline {
    var pending: Pending
    /** Stages run on each half, in order. */
    var ping: seq<Stage>
    var pong: seq<Stage>
    /** Halves named by the starts on the in channel and on the out channel, in order. */
    var ins: seq<Half>
    var outs: seq<Half>
    /** Halves loaded, in order: by the starts on the in channel and by the loads chained to starts on the other. */
    var loads: seq<Half>

    constructor ()
      ensures pending == Idle && ping == [] && pong == [] && ins == [] && outs == [] && loads == []
    {
      pending, ping, pong, ins, outs, loads := Idle, [], [], [], [], [];
    }

    /** DMA_START(chids[0]) */
    method StartIn(half: Half)
      requires pending == Idle
      modifies `pending, `ins, `loads
      ensures pending == Pending(half) && ins == old(ins) + [half] && loads == old(loads) + [half]
    {
      pending, ins, loads := Pending(half), ins + [half], loads + [half];
    }

    /** DMA_START(chids1[0]) */
    method StartOut(half: Half)
      requires pending == Idle
      modifies `pending, `outs
      ensures pending == Pending(half) && outs == old(outs) + [half]
    {
      pending, outs := Pending(half), outs + [half];
    }

    /** DMA_START(chids1[0]) with a load of the same half chained to it, as the comment says. */
    method StartOutThenIn(half: Half)
      requires pending == Idle
      modifies `pending, `outs, `loads
      ensures pending == Pending(half) && outs == old(outs) + [half] && loads == old(loads) + [half]
    {
      pending, outs, loads := Pending(half), outs + [half], loads + [half];
    }

    /** DMA_WAIT */
    method Wait()
      requires pending != Idle
      modifies `pending
      ensures pending == Idle
    {
      pending := Idle;
    }

    /** A callback on ping; ping must not be the half a pending transfer names. */
    method OnPing(stage: Stage)
      requires pending != Pending(Ping)
      modifies `ping
      ensures ping == old(ping) + [stage]
    {
      ping := ping + [stage];
    }

    method OnPong(stage: Stage)
      requires pending != Pending(Pong)
      modifies `pong
      ensures pong == old(pong) + [stage]
    {
      pong := pong + [stage];
    }
  }

  /** Starts that agree with a ping-pong chain whose next start is ping. */
  predicate InStep(starts: seq<Half>) {
    Alternates(starts) && |starts| % 2 == 0
  }

  lemma InStepPair(starts: seq<Half>)
    requires InStep(starts)
    ensures InStep(starts + [Ping, Pong])
    ensures Alternates(starts + [Ping]) && |starts + [Ping]| % 2 == 1
  {
  }

  /**
   One pass over a pair of tiles, as it is written three times in the source: pong goes through its
   three stages, ping finishes the tile it has begun.  The last start has a load of the next tile
   chained to it at two of the sites; the next start differs between them and follows it there.
   */
  method PairOfTiles(p: Pipeline, chained: bool)
    requires p.pending == Idle
    modifies p
    ensures p.pending == Pending(Ping)
    ensures p.outs == old(p.outs) + [Ping, Pong, Ping]
    ensures p.ins == old(p.ins) + [Ping, Pong]
    ensures p.loads == old(p.loads) + [Ping, Pong] + if chained then [Ping] else []
    ensures p.ping == old(p.ping) + [Diff, Dwt]
    ensures p.pong == old(p.pong) + [Rlgr, Diff, Dwt]
  {
    // dma in ping diff
    p.StartIn(Ping);
    p.OnPong(Rlgr);
    p.Wait();
    // dma in pong diff
    p.StartIn(Pong);
    p.OnPing(Diff);
    p.Wait();
    // dma out ping diff
    p.StartOut(Ping);
    p.OnPong(Diff);
    p.Wait();
    // dma out pong diff
    p.StartOut(Pong);
    p.OnPing(Dwt);
    p.Wait();
    if chained {
      // dma out ping dwt, dma in ping rlgr
      p.StartOutThenIn(Ping);
    } else {
      // dma out ping dwt
      p.StartOut(Ping);
    }
    p.OnPong(Dwt);
  }

  /** A pair of tiles and the pong start after it keep both channels in step. */
  lemma Account(ins: seq<Half>, outs: seq<Half>, loads: seq<Half>)
    requires InStep(ins) && InStep(outs) && InStep(loads)
    ensures InStep(ins + [Ping, Pong])
    ensures InStep(loads + [Ping, Pong]) && InStep(loads + [Ping, Pong] + [])
      && InStep(loads + [Ping, Pong] + [Ping] + [Pong])
    ensures Alternates(outs + [Ping, Pong, Ping]) && |outs + [Ping, Pong, Ping]| % 2 == 1
    ensures InStep(outs + [Ping, Pong, Ping] + [Pong])
  {
    InStepPair(ins);
    InStepPair(outs);
    InStepPair(outs + [Ping, Pong]);
    InStepPair(loads);
    InStepPair(loads + [Ping, Pong]);
    assert loads + [Ping, Pong] + [] == loads + [Ping, Pong];
    assert loads + [Ping, Pong] + [Ping] + [Pong] == loads + [Ping, Pong] + [Ping, Pong];
    assert outs + [Ping, Pong, Ping] == outs + [Ping, Pong] + [Ping];
    assert outs + [Ping, Pong, Ping] + [Pong] == outs + [Ping, Pong] + [Ping, Pong];
  }

  /** Between turns: done pairs of tiles are through, ping has begun the next, all channels are in step. */
  ghost predicate Between(p: Pipeline, done: nat)
    reads p
  {
    && p.pending == Idle && InStep(p.ins) && InStep(p.outs) && InStep(p.loads)
    && p.ping == Tiles(done) + [Rlgr] && p.pong == Tiles(done)
  }

  /** One iteration of the loop. */
  method LoopOnce(p: Pipeline, ghost done: nat)
    requires Between(p, done)
    modifies p
    ensures Between(p, done + 1)
  {
    Account(p.ins, p.outs, p.loads);
    PairOfTiles(p, true);
    p.Wait();
    // dma out pong dwt, dma in pong rlgr
    p.StartOutThenIn(Pong);
    p.OnPing(Rlgr);
    p.Wait();
    assert p.ping == (Tiles(done) + [Rlgr, Diff, Dwt]) + [Rlgr];
  }

  /** The last pair, and the tile behind it if their number is odd. */
  method LastTiles(p: Pipeline, numTiles: nat, ghost done: nat)
    requires Between(p, done) && numTiles <= 1
    modifies p
    ensures p.pending == Idle && p.ping == Tiles(done + 1 + numTiles) && p.pong == Tiles(done + 1)
    ensures Alternates(p.ins) && (Alternates(p.outs) <==> numTiles == 0) && (Alternates(p.loads) <==> numTiles == 0)
  {
    Account(p.ins, p.outs, p.loads);
    PairOfTiles(p, numTiles > 0);
    p.Wait();
    assert p.ping == Tiles(done + 1) && p.pong == Tiles(done + 1);
    if numTiles > 0 {
      OddTail(p, done + 1);
    } else {
      // dma out pong dwt
      p.StartOut(Pong);
      p.Wait();
    }
  }

  /**
   process_dma_pro for n tiles.  Each half takes its tiles through the three stages in order and n
   tiles are processed altogether.  The starts on the in channel alone agree with its link chain when
   n is at least two; those on the out channel, and all loads when the chained ones run on the in
   channel too, exactly when n is even.
   */
  method ProcessDmaPro(p: Pipeline, n: nat)
    requires n >= 1
    requires p.pending == Idle && p.ping == p.pong == [] && p.ins == p.outs == p.loads == []
    modifies p
    ensures p.pending == Idle
    ensures p.ping == Tiles((n + 1) / 2) && p.pong == Tiles(n / 2)
    ensures |p.ping| + |p.pong| == 3 * n
    ensures Alternates(p.ins) <==> n >= 2
    ensures Alternates(p.outs) <==> n % 2 == 0
    ensures Alternates(p.loads) <==> n % 2 == 0
  {
    var numTiles := n;
    // dma in ping rlgr
    p.StartIn(Ping);
    p.Wait();
    numTiles := numTiles - 1;
    if numTiles < 1 {
      SingleTile(p);
    } else {
      // dma in pong rlgr
      p.StartIn(Pong);
      p.OnPing(Rlgr);
      p.Wait();
      numTiles := numTiles - 1;
      ghost var done := 0;
      while numTiles > 1
        invariant 0 <= numTiles && n == 2 * done + numTiles + 2
        invariant Between(p, done)
      {
        LoopOnce(p, done);
        numTiles := numTiles - 2;
        done := done + 1;
      }
      LastTiles(p, numTiles, done);
      HalvesOf(n, done, numTiles);
    }
  }

  lemma HalvesOf(n: nat, done: nat, numTiles: nat)
    requires n == 2 * done + numTiles + 2 && numTiles <= 1
    ensures (n + 1) / 2 == done + 1 + numTiles && n / 2 == done + 1 && (n % 2 == 0 <==> numTiles == 0)
  {
  }

  /** The branch for a single tile. */
  method SingleTile(p: Pipeline)
    requires p.pending == Idle && p.ins == p.loads == [Ping] && p.outs == [] && p.ping == p.pong == []
    modifies p
    ensures p.pending == Idle && p.ping == Tiles(1) && p.pong == []
    ensures !Alternates(p.ins) && !Alternates(p.outs) && !Alternates(p.loads)
  {
    p.OnPing(Rlgr);
    // dma in ping diff
    p.StartIn(Ping);
    p.Wait();
    p.OnPing(Diff);
    // dma out ping diff
    p.StartOut(Ping);
    p.Wait();
    p.OnPing(Dwt);
    // dma out ping dwt
    p.StartOut(Ping);
    p.Wait();
    assert p.ping == Tiles(0) + [Rlgr, Diff, Dwt];
    assert p.ins[1] == Ping && p.outs[1] == Ping && p.loads[1] == Ping;
  }

  /** The last tile of an odd count, alone on ping. */
  method OddTail(p: Pipeline, ghost done: nat)
    requires p.pending == Idle && p.ping == Tiles(done)
    requires Alternates(p.ins) && |p.ins| % 2 == 0
    requires Alternates(p.outs) && |p.outs| % 2 == 1
    requires |p.loads| % 2 == 1
    modifies p
    ensures p.pending == Idle && p.ping == Tiles(done + 1) && p.pong == old(p.pong)
    ensures Alternates(p.ins) && !Alternates(p.outs) && !Alternates(p.loads)
  {
    // dma out pong dwt
    p.StartOut(Pong);
    p.OnPing(Rlgr);
    p.Wait();
    // dma in ping diff
    p.StartIn(Ping);
    p.Wait();
    p.OnPing(Diff);
    // dma out ping diff
    p.StartOut(Ping);
    p.Wait();
    p.OnPing(Dwt);
    // dma out ping dwt
    p.StartOut(Ping);
    p.Wait();
    assert p.ping == Tiles(done) + [Rlgr, Diff, Dwt];
    assert p.outs[|p.outs| - 1] == Ping && p.loads[|p.loads| - 1] == Ping;
  }
}
