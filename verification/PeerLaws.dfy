/**
 What a visit does to a client, said from the bytes on its socket: when it is removed, what it has then
 got and has still to be sent, and which request goes on to the DSP.
 */
module PeerLaws {
  import opened Framing
  import opened Wire
  import opened Daemon

  /** How many bytes are missing to the end of the header, or of the message. */
  function Missing(got: seq<Byte>): int {
    (if |got| < 8 then 8 else Field(got, 1)) - |got|
  }

  /** What recv returns: all that has arrived, or as much of it as is missing. */
  function Chunk(p: Peer, ev: Event): seq<Byte>
    requires ValidPeer(p)
  {
    WantIsMissing(p.got);
    if |ev.arrived| <= Missing(p.got) then ev.arrived else ev.arrived[..Missing(p.got)]
  }

  lemma WantIsMissing(got: seq<Byte>)
    requires Partial(Requests(), got)
    ensures Missing(got) == Target(Requests(), got) - |got| >= 1
  {
    if |got| >= 8 {
      HeaderFields(got, 8);
    }
  }

  /** What the client has said of its open message and behind it. */
  function Said(p: Peer, ev: Event): Parsed<Byte, Request>
    requires ValidPeer(p)
  {
    Parse(Requests(), p.got + Chunk(p, ev))
  }

  /** Reading ends the connection: nothing came, a message is refused, or its request could not be sent on. */
  predicate ReadFails(p: Peer, ev: Event)
    requires ValidPeer(p)
  {
    ev.readable && (Chunk(p, ev) == [] || Said(p, ev).rejected || (Said(p, ev).asked != [] && !ev.putOk))
  }

  /** Writing ends it: there is something to send and the socket takes nothing. */
  predicate WriteFails(p: Peer, ev: Event) {
    ev.writable && p.out != [] && ev.room == 0
  }

  /** The first reply, as far as there is room, is gone. */
  function Left(out: seq<seq<Byte>>, room: nat): seq<seq<Byte>> {
    if out == [] then []
    else if room >= |out[0]| then out[1..]
    else [out[0][room..]] + out[1..]
  }

  /** The client after a visit it survives. */
  function Served(p: Peer, ev: Event): Peer
    requires ValidPeer(p)
  {
    p.(got := if ev.readable then Said(p, ev).rest else p.got, out := if ev.writable
      then Left(p.out, ev.room) else p.out)
  }

  lemma ReadingIsSaid(p: Peer, ev: Event)
    requires ValidPeer(p)
    ensures Chunk(p, ev) == Got(ev.arrived, Target(Requests(), p.got) - |p.got|)
    ensures Chunk(p, ev) == [] ==> Reading(p.got, ev.arrived).rejected && Reading(p.got, ev.arrived).asked == []
    ensures Chunk(p, ev) != [] ==> Reading(p.got, ev.arrived) == Said(p, ev)
  {
    WantIsMissing(p.got);
    if Chunk(p, ev) != [] {
      TakeIsParse(Requests(), p.got, Chunk(p, ev));
    }
  }

  lemma ReadExact(p: Peer, ev: Event)
    requires ValidPeer(p)
    ensures ReadPhase(p, ev).kept ==
      if ReadFails(p, ev) then [] else [p.(got := if ev.readable then Said(p, ev).rest else p.got)]
    ensures ReadPhase(p, ev).attempted == if ev.readable && Chunk(p, ev) != [] then Said(p, ev).asked else []
  {
    ReadingIsSaid(p, ev);
    if ev.readable && Chunk(p, ev) != [] && Said(p, ev).rejected {
      assert |Reading(p.got, ev.arrived).asked| <= 0;
    }
  }

  lemma LeftIsRemaining(out: seq<seq<Byte>>, room: nat)
    requires room > 0 && forall k :: 0 <= k < |out| ==> out[k] != []
    ensures Remaining(out, room) == Left(out, room)
  {
    if out != [] && room < |out[0]| {
      assert out[0 := out[0][room..]] == [out[0][room..]] + out[1..];
    }
  }

  lemma WriteExact(p: Peer, ev: Event)
    requires ValidPeer(p)
    ensures WritePhase(p, ev) ==
      if WriteFails(p, ev) then [] else [p.(out := if ev.writable then Left(p.out, ev.room) else p.out)]
  {
    if ev.writable && ev.room > 0 {
      LeftIsRemaining(p.out, ev.room);
    }
  }

  /** A visit removes the client exactly when reading or writing fails; otherwise this is what it leaves. */
  lemma KeepExact(p: Peer, ev: Event)
    requires ValidPeer(p)
    ensures Keep(p, ev) == if ReadFails(p, ev) || WriteFails(p, ev) then [] else [Served(p, ev)]
    ensures VisitPeer(p, ev).attempted == if ev.readable && Chunk(p, ev) != [] then Said(p, ev).asked else []
  {
    ReadExact(p, ev);
    if !ReadFails(p, ev) {
      WriteExact(ReadPhase(p, ev).kept[0], ev);
    }
  }

  // ---- the whole list ----

  predicate Fails(p: Peer, ev: Event)
    requires ValidPeer(p)
  {
    ReadFails(p, ev) || WriteFails(p, ev)
  }

  /** What a visit leaves of a client: nothing, or the client served. */
  function LeftOf(p: Peer, ev: Event): seq<Peer>
    requires ValidPeer(p)
  {
    if Fails(p, ev) then [] else [Served(p, ev)]
  }

  /** The clients that a pass leaves, in order. */
  function Healthy(peers: seq<Peer>, evs: seq<Event>): seq<Peer>
    requires |peers| == |evs| && ValidPeers(peers)
  {
    Flatten(seq(|evs|, k requires 0 <= k < |evs| => LeftOf(peers[k], evs[k])))
  }

  lemma {:induction false} SurvivorsFlat(peers: seq<Peer>, evs: seq<Event>, n: nat, kept: seq<seq<Peer>>)
    requires |peers| == |evs| == |kept| && n <= |evs|
    requires forall k :: 0 <= k < |kept| ==> kept[k] == Keep(peers[k], evs[k])
    ensures Survivors(peers, evs, n) == Flatten(kept[n..])
    decreases |evs| - n
  {
    if n < |evs| {
      SurvivorsFlat(peers, evs, n + 1, kept);
      assert kept[n..][1..] == kept[n + 1..];
    }
  }

  lemma SurvivorsAreHealthy(peers: seq<Peer>, evs: seq<Event>)
    requires |peers| == |evs| && ValidPeers(peers)
    ensures Survivors(peers, evs, 0) == Healthy(peers, evs)
  {
    var kept := seq(|evs|, k requires 0 <= k < |evs| => LeftOf(peers[k], evs[k]));
    forall k | 0 <= k < |evs|
      ensures kept[k] == Keep(peers[k], evs[k])
    {
      assert peers[k] in peers;
      KeepExact(peers[k], evs[k]);
    }
    SurvivorsFlat(peers, evs, 0, kept);
    assert kept[0..] == kept;
  }

  /** A traversal removes exactly the clients whose own visit fails, and leaves the others served, in order. */
  lemma PassExact(d: State, evs: seq<Event>)
    requires |evs| == |d.peers| && ValidPeers(d.peers)
    ensures CheckFds(d, evs).peers == Healthy(d.peers, evs)
  {
    CheckFdsVisitsEachOnce(d, evs);
    SurvivorsAreHealthy(d.peers, evs);
  }
}
