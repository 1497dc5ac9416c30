/**
 The daemon's intrusive list of peers, edited while it is walked, and the counters it keeps for the
 DSP.  Every method refines the function of the same purpose in Daemon.  A node carries the contents
 of its peer's buffers by value; PeerBuffers has them on the heap.
 */
module Dspmain {
  import opened Wire
  import Daemon
  import PeerLaws

  class PeerNode {
    var peer: Daemon.Peer
    var next: PeerNode?

    constructor (sck: int, id: int)
      ensures next == null && peer == Daemon.Peer(id, sck, [], [])
    {
      peer, next := Daemon.Peer(id, sck, [], []), null;
    }
  }

  /** r is s without element i. */
  ghost predicate Dropped<T>(s: seq<T>, r: seq<T>, i: nat) {
    && i < |s| && |r| == |s| - 1
    && (forall k :: 0 <= k < i ==> r[k] == s[k])
    && (forall k :: i <= k < |r| ==> r[k] == s[k + 1])
  }

  /** The intrusive list: acyclic, from head to tail. */
  ghost predicate Linked(nodes: seq<PeerNode>, head: PeerNode?, tail: PeerNode?)
    reads nodes
  {
    && (forall j, k :: 0 <= j < |nodes| - 1 && k == j + 1 ==> nodes[j].next == nodes[k])
    && (nodes != [] ==> nodes[|nodes| - 1].next == null)
    && (forall j, k :: 0 <= j < k < |nodes| ==> nodes[j] != nodes[k])
    && head == (if nodes == [] then null else nodes[0])
    && tail == (if nodes == [] then null else nodes[|nodes| - 1])
  }

  class Dspmain {
    var dspMsgq: seq<Daemon.Message>
    var replyMsgq: int
    var sequence: nat
    var processingCount: int
    var uniqueId: nat
    var peerHead: PeerNode?
    var peerTail: PeerNode?
    ghost var nodes: seq<PeerNode>
    ghost var peers: seq<Daemon.Peer>

    constructor ()
      ensures Valid() && State() == Daemon.State([], 0, Daemon.Link(0, 0, 0, []))
    {
      dspMsgq, replyMsgq, sequence, processingCount, uniqueId := [], 0, 0, 0, 0;
      peerHead, peerTail, nodes, peers := null, null, [], [];
    }

    /** The list is sound and its nodes show the peers in order. */
    ghost predicate Valid()
      reads this, nodes
    {
      && Linked(nodes, peerHead, peerTail)
      && |peers| == |nodes| && forall k :: 0 <= k < |nodes| ==> nodes[k].peer == peers[k]
    }

    ghost function Link(): Daemon.Link
      reads this
    {
      Daemon.Link(sequence, replyMsgq, processingCount, dspMsgq)
    }

    ghost function State(): Daemon.State
      reads this
    {
      Daemon.State(peers, uniqueId, Link())
    }

    // ---- messages to the DSP ----

    /** send_get_reply_msgq_msg, send_mult_msg, send_crc32_msg and send_shutdown_msg after MSGQ_alloc. */
    method Send(owner: int, cookie: Int32, replyMsgq: int, body: Daemon.Body, counted: bool, putOk: bool)
      modifies `sequence, `processingCount, `dspMsgq
      ensures Link() == Daemon.Send(old(Link()), owner, cookie, replyMsgq, body, counted, putOk)
    {
      var m := Daemon.Message(sequence, replyMsgq, owner, cookie, body);
      sequence := sequence + 1;
      if putOk {
        dspMsgq := dspMsgq + [m];
        if counted {
          processingCount := processingCount + 1;
        }
      }
    }

    // ---- the list of peers ----

    /** A new last element. */
    method Append(node: PeerNode)
      requires Linked(nodes, peerHead, peerTail) && node.next == null && node !in nodes
      modifies `peerHead, `peerTail, `nodes, (if peerTail == null then {} else {peerTail})`next
      ensures nodes == old(nodes) + [node] && Linked(nodes, peerHead, peerTail)
    {
      ghost var was := nodes;
      if peerHead == null {
        peerHead := node;
        peerTail := node;
      } else {
        peerTail.next := node;
        peerTail := node;
      }
      nodes := nodes + [node];
      assert forall k :: 0 <= k < |was| ==> nodes[k] == was[k];
    }

    /** dspmain_peer_remove_one: the peer at place i, whose predecessor is lastPeer. */
    method RemoveOne(peer: PeerNode, lastPeer: PeerNode?, ghost i: nat) returns (next: PeerNode?)
      requires Linked(nodes, peerHead, peerTail) && i < |nodes| && nodes[i] == peer
      requires lastPeer == if i == 0 then null else nodes[i - 1]
      modifies `peerHead, `peerTail, `nodes, (if lastPeer == null then {} else {lastPeer})`next
      ensures Dropped(old(nodes), nodes, i) && Linked(nodes, peerHead, peerTail)
      ensures next == if i < |nodes| then nodes[i] else null
    {
      if peerHead == peer {
        if peerTail == peer {
          peerHead := null;
          peerTail := null;
          next := null;
        } else {
          peerHead := peer.next;
          next := peer.next;
        }
      } else if peerTail == peer {
        peerTail := lastPeer;
        lastPeer.next := null;
        next := null;
      } else {
        lastPeer.next := peer.next;
        next := peer.next;
      }
      nodes := nodes[..i] + nodes[i + 1..];
    }

    /** dspmain_peer_add_fd */
    method AddFd(sck: int)
      requires Valid()
      modifies `uniqueId, `peerHead, `peerTail, `nodes, `peers, (if peerTail == null then {} else {peerTail})`next
      ensures Valid() && State() == Daemon.Accept(old(State()), sck)
      ensures peers == old(peers) + [Daemon.Peer(old(uniqueId) + 1, sck, [], [])] && uniqueId == old(uniqueId) + 1
      ensures |nodes| == |old(nodes)| + 1 && nodes[..|nodes| - 1] == old(nodes) && fresh(nodes[|nodes| - 1])
    {
      uniqueId := uniqueId + 1;
      var node := new PeerNode(sck, uniqueId);
      Append(node);
      peers := peers + [node.peer];
    }

    // ---- serving the sockets ----

    /** The body of the traversal for one peer: whether it stays, and what it then is. */
    method ServePeer(p: Daemon.Peer, ev: Daemon.Event) returns (kept: bool, q: Daemon.Peer)
      requires Daemon.ValidPeer(p)
      modifies `sequence, `processingCount, `dspMsgq
      ensures Link() == Daemon.Forward(old(Link()), p, ev)
      ensures Daemon.Keep(p, ev) == if kept then [q] else []
    {
      q := p;
      if ev.readable {
        var t := Daemon.Reading(p.got, ev.arrived);
        if t.rejected {
          return false, q;
        }
        if t.asked != [] {
          var r := t.asked[0];
          Send(p.id, r.sequence, replyMsgq, Daemon.BodyOf(r), true, ev.putOk);
          if !ev.putOk {
            return false, q;
          }
        }
        q := q.(got := t.rest);
      }
      if ev.writable {
        if q.out != [] && ev.room < 1 {
          return false, q;
        }
        q := q.(out := Daemon.Remaining(q.out, ev.room));
      }
      kept := true;
    }

    /** peer is the element at place i, or the end of the list, and lastPeer its predecessor. */
    ghost predicate Cursor(peer: PeerNode?, lastPeer: PeerNode?, i: nat)
      reads this
    {
      && i <= |nodes|
      && peer == (if i < |nodes| then nodes[i] else null)
      && lastPeer == (if i == 0 then null else nodes[i - 1])
    }

    ghost predicate Within(pool: set<PeerNode>)
      reads this
    {
      forall k :: 0 <= k < |nodes| ==> nodes[k] in pool
    }

    /** The peer at place i changes. */
    method SetPeer(node: PeerNode, q: Daemon.Peer, ghost i: nat)
      requires Valid() && i < |nodes| && nodes[i] == node
      modifies node`peer, `peers
      ensures Valid() && peers == old(peers)[i := q]
    {
      node.peer := q;
      peers := peers[i := q];
    }

    method Drop(peer: PeerNode, lastPeer: PeerNode?, ghost i: nat, ghost pool: set<PeerNode>) returns (next: PeerNode?)
      requires Valid() && Within(pool) && i < |nodes| && Cursor(peer, lastPeer, i)
      modifies `peerHead, `peerTail, `nodes, `peers, (if lastPeer == null then {} else {lastPeer})`next
      ensures Valid() && Within(pool) && Cursor(next, lastPeer, i)
      ensures peers == old(peers)[..i] + old(peers)[i + 1..]
    {
      next := RemoveOne(peer, lastPeer, i);
      peers := peers[..i] + peers[i + 1..];
    }

    /** The visited peer stays or goes; its neighbours are as they were. */
    method Visit(peer: PeerNode, lastPeer: PeerNode?, ev: Daemon.Event, ghost i: nat, ghost pool: set<PeerNode>)
      returns (next: PeerNode?, last: PeerNode?, ghost j: nat)
      requires Valid() && Within(pool) && Cursor(peer, lastPeer, i) && Daemon.ValidPeer(peer.peer)
      modifies `sequence, `processingCount, `dspMsgq, `peerHead, `peerTail, `nodes, `peers
      modifies peer`peer, (if lastPeer == null then {} else {lastPeer})`next
      ensures Valid() && Within(pool) && Cursor(next, last, j) && j == i + |Daemon.Keep(old(peer.peer), ev)|
      ensures Link() == Daemon.Forward(old(Link()), old(peer.peer), ev)
      ensures peers == Daemon.Edited(old(peers), i, Daemon.Keep(old(peer.peer), ev))
    {
      var kept, q := ServePeer(peer.peer, ev);
      if kept {
        SetPeer(peer, q, i);
        next, last, j := peer.next, peer, i + 1;
      } else {
        next := Drop(peer, lastPeer, i, pool);
        last, j := lastPeer, i;
      }
    }

    /** Where the traversal leads when it has come to place i and event k. */
    ghost function Goal(i: nat, evs: seq<Daemon.Event>, k: nat): Daemon.State
      requires k <= |evs| && i + |evs| - k == |peers|
      reads this
    {
      Daemon.PassFrom(State(), i, evs, k)
    }

    method Advance(peer: PeerNode, lastPeer: PeerNode?, evs: seq<Daemon.Event>, k: nat, ghost i: nat,
      ghost pool: set<PeerNode>, ghost goal: Daemon.State)
      returns (next: PeerNode?, last: PeerNode?, nextK: nat, ghost j: nat)
      requires Valid() && Within(pool) && Cursor(peer, lastPeer, i) && Daemon.ValidPeers(peers)
      requires k < |evs| && i + |evs| - k == |peers| && Goal(i, evs, k) == goal
      modifies `sequence, `processingCount, `dspMsgq, `peerHead, `peerTail, `nodes, `peers
      modifies peer`peer, (if lastPeer == null then {} else {lastPeer})`next
      ensures Valid() && Within(pool) && Cursor(next, last, j) && Daemon.ValidPeers(peers)
      ensures nextK == k + 1 && j + |evs| - nextK == |peers| && Goal(j, evs, nextK) == goal
    {
      ghost var d := State();
      assert peer.peer == d.peers[i] && d.peers[i] in d.peers;
      next, last, j := Visit(peer, lastPeer, evs[k], i, pool);
      Daemon.PassStep(d, i, evs, k, State());
      nextK := k + 1;
    }

    /** dspmain_peer_check_fds: evs[k] is what happens at the k-th visit. */
    method CheckFds(evs: seq<Daemon.Event>)
      requires Valid() && Daemon.ValidPeers(peers) && |evs| == |nodes|
      modifies this, nodes
      ensures Valid() && State() == Daemon.CheckFds(old(State()), evs)
      ensures peers == PeerLaws.Healthy(old(peers), evs)
      ensures forall k :: 0 <= k < |nodes| ==> nodes[k] in old(nodes)
    {
      var lastPeer: PeerNode? := null;
      var peer := peerHead;
      var k := 0;
      ghost var i: nat, pool, goal := 0, (set n | n in nodes), Goal(0, evs, 0);
      PeerLaws.PassExact(State(), evs);
      while peer != null
        invariant Valid() && Within(pool) && Cursor(peer, lastPeer, i) && Daemon.ValidPeers(peers)
        invariant 0 <= k <= |evs| && i + |evs| - k == |peers|
        invariant Goal(i, evs, k) == goal
        decreases |evs| - k
      {
        peer, lastPeer, k, i := Advance(peer, lastPeer, evs, k, i, pool, goal);
      }
    }

    // ---- messages from the DSP ----

    /** The search at the start of process_mymsg: the first peer with this id. */
    method FindPeer(id: int) returns (peer: PeerNode?, ghost i: nat)
      requires Valid()
      ensures i == Daemon.Find(peers, id) && peer == if i < |nodes| then nodes[i] else null
    {
      peer, i := peerHead, 0;
      while peer != null && peer.peer.id != id
        invariant i <= |nodes| && peer == if i < |nodes| then nodes[i] else null
        invariant forall k :: 0 <= k < i ==> peers[k].id != id
        decreases |nodes| - i
      {
        peer := peer.next;
        i := i + 1;
      }
      Daemon.FindIs(peers, id, i);
    }

    /** dspmain_queue_mult and dspmain_queue_crc32, if the peer is still there. */
    method QueueReply(m: Daemon.Message)
      requires Valid()
      modifies `peers, nodes
      ensures Valid() && peers == Daemon.WithReply(old(peers), m)
    {
      var node, i := FindPeer(m.owner);
      if node != null && Daemon.ReplyOf(m) != [] {
        SetPeer(node, Daemon.Enqueued(node.peer, EncodeReply(Daemon.ReplyOf(m)[0])), i);
      }
    }

    /** dspmain_process_one_msgq after MSGQ_get, and process_mymsg. */
    method ProcessOneMsgq(m: Daemon.Message)
      requires Valid()
      modifies `processingCount, `replyMsgq, `peers, nodes
      ensures Valid() && State() == Daemon.Process(old(State()), m)
      ensures processingCount == old(processingCount) - 1
      ensures replyMsgq == if m.body.Locate? then m.replyMsgq else old(replyMsgq)
    {
      processingCount := processingCount - 1;
      if m.body.Locate? {
        replyMsgq := m.replyMsgq;
      } else {
        QueueReply(m);
      }
    }

    method ProcessAll(ms: seq<Daemon.Message>)
      requires Valid()
      modifies `processingCount, `replyMsgq, `peers, nodes
      ensures Valid() && State() == Daemon.ProcessAll(old(State()), ms)
    {
      var k := 0;
      ghost var goal := Daemon.ProcessAll(State(), ms);
      assert ms[0..] == ms;
      while k < |ms|
        invariant 0 <= k <= |ms| && Valid()
        invariant Daemon.ProcessAll(State(), ms[k..]) == goal
      {
        ProcessOneMsgq(ms[k]);
        assert ms[k..][1..] == ms[k + 1..];
        k := k + 1;
      }
    }

    // ---- the main loop ----

    /** One turn of dspmain_loop: ready tells whether select finds anything at once, ms what MSGQ_get returns. */
    method LoopTurn(ready: bool, accepted: seq<int>, evs: seq<Daemon.Event>, ms: seq<Daemon.Message>)
      returns (turn: Daemon.Turn)
      requires Valid() && Daemon.ValidPeers(peers) && |accepted| <= 1
      requires ready ==> |evs| == |nodes| + |accepted|
      modifies this, nodes
      ensures turn.ServeSockets? <==> ready
      ensures Valid() && State() == Daemon.AfterTurn(old(State()), turn, accepted, evs, ms)
      ensures turn.AwaitMessage? <==> !ready && old(processingCount) > 0
      ensures ready ==>
        State() == Daemon.ProcessAll(Daemon.CheckFds(Daemon.AcceptAny(old(State()), accepted), evs), ms)
      ensures !ready && old(processingCount) > 0 && ms != [] ==> State() == Daemon.Process(old(State()), ms[0])
      ensures !ready && (old(processingCount) <= 0 || ms == []) ==> State() == old(State())
    {
      if ready {
        turn := Daemon.ServeSockets;
        if accepted != [] {
          AddFd(accepted[0]);
        }
        CheckFds(evs);
        ProcessAll(ms);
      } else if processingCount > 0 {
        turn := Daemon.AwaitMessage;
        if ms != [] {
          ProcessOneMsgq(ms[0]);
        }
      } else {
        turn := Daemon.SleepInSelect;
      }
    }
  }
}
