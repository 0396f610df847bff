/** The peer registry: the live peer map and the hash-chained log of admissions and evictions. */
module PeerRegistry {
  import opened Wrappers
  import opened Bytes
  import opened HashChain

  datatype EventKind = Admitted | Evicted
  {
    function AsByte(): Byte {
      match this
      case Admitted => 0
      case Evicted => 1
    }
  }

  datatype PeerRecord = PeerRecord(peerId: U64, fingerprint: Digest, admittedAt: U64)

  datatype RegistryEvent = RegistryEvent(
    kind: EventKind, peerId: U64, epoch: U64, fingerprint: Digest, eventHash: Digest, prevHash: Digest)

  function EventLink(e: RegistryEvent): Link {
    Link(e.prevHash, [e.kind.AsByte()] + Be8(e.peerId) + Be8(e.epoch) + e.fingerprint, e.eventHash)
  }

  function EventLinks(es: seq<RegistryEvent>): (ls: seq<Link>)
    ensures |ls| == |es|
  {
    seq(|es|, i requires 0 <= i < |es| => EventLink(es[i]))
  }

  function NewEvent(sha: Hash, events: seq<RegistryEvent>, kind: EventKind, peerId: U64, epoch: U64,
                    fingerprint: Digest): RegistryEvent {
    var prev := if events == [] then Genesis() else events[|events| - 1].eventHash;
    RegistryEvent(kind, peerId, epoch, fingerprint,
                  sha(prev + ([kind.AsByte()] + Be8(peerId) + Be8(epoch) + fingerprint)), prev)
  }

  /** Membership according to the event log: the peers whose last event is an admission. */
  predicate LastEventAdmits(events: seq<RegistryEvent>, id: U64) {
    exists i :: 0 <= i < |events| && events[i].peerId == id && events[i].kind == Admitted
             && forall j :: i < j < |events| ==> events[j].peerId != id
  }

  datatype Registry = Registry(peers: map<U64, PeerRecord>, events: seq<RegistryEvent>)
  {
    /** The live map holds exactly the peers that the log says are in, under their own ids, and
        the log is an intact chain. */
    ghost predicate Consistent(sha: Hash) {
      && (forall id :: id in peers <==> LastEventAdmits(events, id))
      && (forall id :: id in peers ==> peers[id].peerId == id)
      && Linked(sha, Genesis(), EventLinks(events))
    }
  }

  /** A peer already present is refused. */
  function Admit(sha: Hash, r: Registry, peerId: U64, fingerprint: Digest, epoch: U64): Option<Registry> {
    if peerId in r.peers then None
    else Some(Registry(r.peers[peerId := PeerRecord(peerId, fingerprint, epoch)],
                       r.events + [NewEvent(sha, r.events, Admitted, peerId, epoch, fingerprint)]))
  }

  /** A peer not present is refused. */
  function Evict(sha: Hash, r: Registry, peerId: U64, epoch: U64): Option<Registry> {
    if peerId !in r.peers then None
    else Some(Registry(r.peers - {peerId},
                       r.events + [NewEvent(sha, r.events, Evicted, peerId, epoch, r.peers[peerId].fingerprint)]))
  }

  lemma EventsGrow(sha: Hash, events: seq<RegistryEvent>, kind: EventKind, peerId: U64, epoch: U64, fingerprint: Digest)
    requires Linked(sha, Genesis(), EventLinks(events))
    ensures Linked(sha, Genesis(), EventLinks(events + [NewEvent(sha, events, kind, peerId, epoch, fingerprint)]))
  {
    var e := NewEvent(sha, events, kind, peerId, epoch, fingerprint);
    LinkedGrows(sha, Genesis(), EventLinks(events), EventLink(e));
    assert EventLinks(events + [e]) == EventLinks(events) + [EventLink(e)];
  }

  /** One event changes the membership of one peer. */
  lemma MembershipAfter(events: seq<RegistryEvent>, e: RegistryEvent, id: U64)
    ensures LastEventAdmits(events + [e], id) <==>
      (if e.peerId == id then e.kind == Admitted else LastEventAdmits(events, id))
  {
    var all := events + [e];
    assert all[|events|] == e;
    if e.peerId == id && e.kind == Admitted {
      assert all[|events|].peerId == id && all[|events|].kind == Admitted;
    }
    if e.peerId != id && LastEventAdmits(events, id) {
      var i :| 0 <= i < |events| && events[i].peerId == id && events[i].kind == Admitted
            && forall j :: i < j < |events| ==> events[j].peerId != id;
      assert all[i].peerId == id && all[i].kind == Admitted;
      assert forall j :: i < j < |all| ==> all[j].peerId != id;
    }
    if LastEventAdmits(all, id) && e.peerId != id {
      var i :| 0 <= i < |all| && all[i].peerId == id && all[i].kind == Admitted
            && forall j :: i < j < |all| ==> all[j].peerId != id;
      assert events[i] == all[i];
      assert forall j :: i < j < |events| ==> events[j] == all[j];
    }
  }

  lemma AdmitKeepsConsistent(sha: Hash, r: Registry, peerId: U64, fingerprint: Digest, epoch: U64)
    requires r.Consistent(sha) && Admit(sha, r, peerId, fingerprint, epoch).Some?
    ensures Admit(sha, r, peerId, fingerprint, epoch).value.Consistent(sha)
  {
    EventsGrow(sha, r.events, Admitted, peerId, epoch, fingerprint);
    forall id: U64 {
      MembershipAfter(r.events, NewEvent(sha, r.events, Admitted, peerId, epoch, fingerprint), id);
    }
  }

  lemma EvictKeepsConsistent(sha: Hash, r: Registry, peerId: U64, epoch: U64)
    requires r.Consistent(sha) && Evict(sha, r, peerId, epoch).Some?
    ensures Evict(sha, r, peerId, epoch).value.Consistent(sha)
  {
    var fingerprint := r.peers[peerId].fingerprint;
    EventsGrow(sha, r.events, Evicted, peerId, epoch, fingerprint);
    forall id: U64 {
      MembershipAfter(r.events, NewEvent(sha, r.events, Evicted, peerId, epoch, fingerprint), id);
    }
  }

  class CompactionPeerRegistry {
    const sha: Hash
    var peers: map<U64, PeerRecord>
    var events: seq<RegistryEvent>

    ghost function State(): Registry
      reads this
    {
      Registry(peers, events)
    }

    constructor (sha: Hash)
      ensures this.sha == sha && State() == Registry(map[], []) && State().Consistent(sha)
    {
      this.sha := sha;
      peers := map[];
      events := [];
    }

    method AdmitPeer(peerId: U64, fingerprint: Digest, epoch: U64) returns (admitted: bool)
      requires State().Consistent(sha)
      modifies this
      ensures State().Consistent(sha)
      ensures admitted <==> peerId !in old(peers)
      ensures admitted ==> Admit(sha, old(State()), peerId, fingerprint, epoch) == Some(State())
      ensures !admitted ==> State() == old(State())
    {
      if peerId in peers {
        return false;
      }
      AdmitKeepsConsistent(sha, State(), peerId, fingerprint, epoch);
      peers := peers[peerId := PeerRecord(peerId, fingerprint, epoch)];
      PushEvent(Admitted, peerId, epoch, fingerprint);
      admitted := true;
    }

    method EvictPeer(peerId: U64, epoch: U64) returns (evicted: bool)
      requires State().Consistent(sha)
      modifies this
      ensures State().Consistent(sha)
      ensures evicted <==> peerId in old(peers)
      ensures evicted ==> Evict(sha, old(State()), peerId, epoch) == Some(State())
      ensures !evicted ==> State() == old(State())
    {
      if peerId !in peers {
        return false;
      }
      EvictKeepsConsistent(sha, State(), peerId, epoch);
      var fingerprint := peers[peerId].fingerprint;
      peers := peers - {peerId};
      PushEvent(Evicted, peerId, epoch, fingerprint);
      evicted := true;
    }

    method PushEvent(kind: EventKind, peerId: U64, epoch: U64, fingerprint: Digest)
      modifies this`events
      ensures events == old(events) + [NewEvent(sha, old(events), kind, peerId, epoch, fingerprint)]
    {
      var prev := if events == [] then Genesis() else events[|events| - 1].eventHash;
      var hash := sha(prev + ([kind.AsByte()] + Be8(peerId) + Be8(epoch) + fingerprint));
      events := events + [RegistryEvent(kind, peerId, epoch, fingerprint, hash, prev)];
    }
  }
}
