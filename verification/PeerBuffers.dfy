/**
 The buffers of one connected client on the heap: the message it is sending and the replies it has
 not taken yet.
 */
module PeerBuffers {
  import opened Framing
  import opened Wire
  import opened Streams
  import opened Inbound
  import opened Outbound
  import Daemon
  import PeerLaws

  class PeerBuffers {
    const sck: int
    const id: int
    const out: OutQueue
    var inStream: Stream?
    ghost var state: Daemon.Peer
    ghost var repr: set<object>

    constructor (sck: int, id: int)
      ensures Valid() && fresh(repr)
      ensures state == Daemon.Peer(id, sck, [], [])
    {
      this.sck, this.id := sck, id;
      inStream := null;
      var q := new OutQueue();
      out := q;
      state, repr := Daemon.Peer(id, sck, [], []), {q} + q.repr;
    }

    ghost predicate InOk()
      requires out in repr
      reads `inStream, `state, `repr, repr
    {
      if inStream == null then state.got == []
      else
        && inStream in repr && inStream.data in repr && inStream !in out.repr && inStream.data !in out.repr
        && Open(inStream, state.got)
    }

    ghost predicate OutOk()
      reads `state, `repr, repr
    {
      out in repr && out.repr <= repr && this !in repr && out.Valid() && out.bytes == state.out
    }

    /** The buffers hold what the abstract state says. */
    ghost predicate Valid()
      reads `inStream, `state, `repr, repr
    {
      OutOk() && InOk() && state.id == id && state.sck == sck
    }

    lemma StateIsValid()
      requires Valid()
      ensures Daemon.ValidPeer(state)
    {
      out.NothingIsEmpty();
    }

    /** dspmain_peer_queue */
    method Queue(s: Stream)
      requires Valid() && Unsent(s) && s.next == null && s !in repr && s.data !in repr
      modifies `state, `repr, out, (if out.tail == null then {} else {out.tail})`next
      ensures Valid() && repr == old(repr) + {s, s.data}
      ensures state == Daemon.Enqueued(old(state), Rest(s))
    {
      out.Enqueue(s);
      repr := repr + {s, s.data};
      state := Daemon.Enqueued(state, Rest(s));
    }

    /** The buffer is allocated on first use. */
    method PrepareIn()
      requires Valid()
      modifies `inStream, `repr
      ensures Valid() && inStream != null
      ensures repr >= old(repr) && fresh(repr - old(repr))
      ensures old(inStream) != null ==> inStream == old(inStream)
      ensures old(inStream) == null ==> fresh(inStream) && fresh(inStream.data)
    {
      if inStream == null {
        inStream := new Stream(MAX_PDU_BYTES);
        repr := repr + {inStream, inStream.data};
      }
    }

    /** The readable branch of dspmain_peer_check_fds, as far as the call that sends. */
    method ReadSocket(arrived: seq<Byte>) returns (rejected: bool, asked: seq<Request>)
      requires Valid()
      modifies `inStream, `state, `repr, inStream, if inStream == null then {} else {inStream.data}
      ensures repr >= old(repr) && fresh(repr - old(repr))
      ensures Partial(Requests(), old(state).got)
      ensures var t := Daemon.Reading(old(state).got, arrived);
        && rejected == t.rejected && asked == t.asked
        && (!rejected ==> Valid() && state == old(state).(got := t.rest))
    {
      StateIsValid();
      PrepareIn();
      rejected, asked := ReadFrom(inStream, arrived, state.got);
      if !rejected {
        state := state.(got := Daemon.Reading(state.got, arrived).rest);
      }
    }

    /** The writable branch of dspmain_peer_check_fds. */
    method WriteSocket(room: nat) returns (ok: bool, sent: seq<Byte>)
      requires Valid()
      modifies `state, out, (if out.head == null then {} else {out.head})`p
      ensures Valid()
      ensures ok <==> (old(state).out == [] || room > 0)
      ensures state == old(state).(out := Daemon.Remaining(old(state).out, room))
      ensures sent + Flatten(state.out) == Flatten(old(state).out)
      ensures room > 0 ==> state.out == PeerLaws.Left(old(state).out, room)
    {
      assert out.head != null ==> out.head == out.queue[0] && out.head in out.repr;
      ok, sent := out.SendSome(room);
      assert inStream != null ==> inStream.p == old(inStream.p) && inStream.end == old(inStream.end);
      assert inStream != null ==> inStream.data[..] == old(inStream.data[..]);
      state := state.(out := out.bytes);
    }
  }
}
