/**
 The replies queued for one client: a singly linked list of buffers, sent from the head a few bytes
 at a time.
 */
module Outbound {
  import opened Framing
  import opened Wire
  import opened Streams
  import Daemon
  import PeerLaws

  ghost predicate Unsent(s: Stream)
    reads s
  {
    s.p < s.end <= s.data.Length
  }

  ghost function Rest(s: Stream): seq<Byte>
    requires Unsent(s)
    reads s, s.data
  {
    s.data[s.p..s.end]
  }

  /** The buffer that dspmain_queue_mult and dspmain_queue_crc32 fill. */
  method ReplyStream(r: Reply) returns (s: Stream)
    ensures fresh(s) && fresh(s.data) && s.next == null
    ensures Unsent(s) && Rest(s) == EncodeReply(r)
  {
    s := new Stream(16);
    s.OutUint32(r.code);
    s.OutUint32(16);
    s.OutUint32(r.sequence);
    s.OutUint32(r.value);
    s.end := s.p;
    s.p := 0;
    ReplyOnWire(r);
    assert s.data[0..s.end] == s.data[..16];
  }

  /** head and tail are out_s_head and out_s_tail; bytes is what each queued stream still has to send. */
  class OutQueue {
    var head: Stream?
    var tail: Stream?
    ghost var queue: seq<Stream>
    ghost var bytes: seq<seq<Byte>>
    ghost var repr: set<object>

    constructor ()
      ensures Valid() && bytes == [] && fresh(repr)
    {
      head, tail, queue, bytes, repr := null, null, [], [], {this};
    }

    /** head is null exactly when tail is, and tail is the last node that head leads to. */
    ghost predicate Linked()
      reads this, repr
    {
      && this in repr
      && (forall k :: 0 <= k < |queue| ==> queue[k] in repr && queue[k].data in repr)
      && (forall j, k :: 0 <= j < |queue| - 1 && k == j + 1 ==> queue[j].next == queue[k])
      && (queue != [] ==> queue[|queue| - 1].next == null)
      && (forall j, k :: 0 <= j < k < |queue| ==> queue[j] != queue[k])
      && head == (if queue == [] then null else queue[0])
      && tail == (if queue == [] then null else queue[|queue| - 1])
    }

    ghost predicate Holds()
      requires Linked()
      reads this, repr
    {
      |bytes| == |queue| && forall k :: 0 <= k < |queue| ==> Unsent(queue[k]) && Rest(queue[k]) == bytes[k]
    }

    ghost predicate Valid()
      reads this, repr
    {
      Linked() && Holds()
    }

    /** A new last node. */
    method Append(s: Stream)
      requires Linked() && s.next == null && s !in repr && s.data !in repr
      modifies `head, `tail, `queue, `repr, (if tail == null then {} else {tail})`next
      ensures Linked() && queue == old(queue) + [s] && repr == old(repr) + {s, s.data}
    {
      ghost var was := queue;
      if tail == null {
        head := s;
        tail := s;
      } else {
        tail.next := s;
        tail := s;
      }
      queue := queue + [s];
      repr := repr + {s, s.data};
      assert forall k :: 0 <= k < |was| ==> queue[k] == was[k];
    }

    /** dspmain_peer_queue */
    method Enqueue(s: Stream)
      requires Valid() && Unsent(s) && s.next == null && s !in repr && s.data !in repr
      modifies this, (if tail == null then {} else {tail})`next
      ensures Valid() && repr == old(repr) + {s, s.data}
      ensures bytes == old(bytes) + [Rest(s)]
    {
      ghost var was := queue;
      assert forall k :: 0 <= k < |was| ==> Unsent(was[k]) && Rest(was[k]) == bytes[k];
      Append(s);
      bytes := bytes + [Rest(s)];
      assert forall k :: 0 <= k < |was| ==> queue[k] == was[k];
    }

    /** The head has been sent. */
    method DropHead()
      requires Linked() && queue != []
      modifies this
      ensures Linked() && queue == old(queue)[1..] && repr == old(repr) && bytes == old(bytes)
    {
      assert queue[0] == head && (|queue| > 1 ==> head.next == queue[1]);
      if head.next == null {
        head := null;
        tail := null;
      } else {
        head := head.next;
      }
      queue := queue[1..];
    }

    /** The first n unsent bytes of the head. */
    method Peek(n: nat) returns (sent: seq<Byte>)
      requires Valid() && queue != [] && n <= |bytes[0]|
      ensures sent == bytes[0][..n]
    {
      assert bytes[0] == Rest(queue[0]);
      sent := head.data[head.p..head.p + n];
    }

    /** p += sent */
    method MoveCursor(n: nat)
      requires Valid() && queue != [] && n <= |bytes[0]|
      modifies head`p
      ensures Linked() && |bytes| == |queue|
      ensures head.p <= head.end <= head.data.Length && head.data[head.p..head.end] == bytes[0][n..]
      ensures forall k :: 1 <= k < |queue| ==> Unsent(queue[k]) && Rest(queue[k]) == bytes[k]
    {
      assert bytes[0] == Rest(queue[0]);
      head.p := head.p + n;
    }

    /** n bytes of the head have been sent. */
    method Advance(n: nat, ghost room: nat)
      requires Valid() && queue != [] && 0 < n == Daemon.SentBytes(bytes, room)
      modifies this, (if head == null then {} else {head})`p
      ensures Valid() && repr == old(repr) && bytes == Daemon.Remaining(old(bytes), room)
    {
      ghost var first := bytes[0];
      MoveCursor(n);
      assert |first[n..]| == head.end - head.p;
      if head.p >= head.end {
        DropHead();
        bytes := bytes[1..];
      } else {
        bytes := bytes[0 := first[n..]];
      }
    }

    lemma NothingIsEmpty()
      requires Valid()
      ensures forall k :: 0 <= k < |bytes| ==> bytes[k] != []
    {
      assert forall k :: 0 <= k < |bytes| ==> bytes[k] == Rest(queue[k]);
    }

    /** The writable branch of dspmain_peer_check_fds: send takes up to room bytes of the head. */
    method SendSome(room: nat) returns (ok: bool, sent: seq<Byte>)
      requires Valid()
      modifies this, (if head == null then {} else {head})`p
      ensures Valid() && repr == old(repr)
      ensures ok <==> (old(bytes) == [] || room > 0)
      ensures bytes == Daemon.Remaining(old(bytes), room)
      ensures sent + Flatten(bytes) == Flatten(old(bytes))
      ensures old(bytes) != [] ==> |sent| == if room < |old(bytes)[0]| then room else |old(bytes)[0]|
      ensures room > 0 ==> bytes == PeerLaws.Left(old(bytes), room)
    {
      if head == null {
        return true, [];
      }
      assert bytes[0] == Rest(queue[0]);
      var outBytes := head.end - head.p;
      var n := if room < outBytes then room else outBytes;
      if n < 1 {
        return false, [];
      }
      sent := Peek(n);
      Daemon.SentThenRemaining(bytes, room);
      NothingIsEmpty();
      PeerLaws.LeftIsRemaining(bytes, room);
      Advance(n, room);
      ok := true;
    }
  }
}
