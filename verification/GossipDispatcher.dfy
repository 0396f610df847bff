/** Dispatch of broadcast frames to the current peers, whose list is rebuilt from the
    registry's event log. */
module GossipDispatcher {
  import opened Wrappers
  import opened Bytes
  import opened HashChain
  import opened SortedKeys
  import opened Broadcaster
  import opened PeerRegistry

  datatype DispatchResult = DispatchResult(peerId: nat, epochEnd: nat, delivered: bool)

  datatype DispatchRecord = DispatchRecord(epochEnd: nat, peerCount: U32, deliveredCount: U32)

  datatype Dispatched = Sent(results: seq<DispatchResult>, record: Chained<DispatchRecord>) | CorruptFrame

  function DispatchBody(r: DispatchRecord): ByteString {
    BigEndian(r.epochEnd, 8) + Be4(r.peerCount) + Be4(r.deliveredCount)
  }

  function TotalDelivered(rs: seq<Chained<DispatchRecord>>): nat {
    if rs == [] then 0 else TotalDelivered(rs[..|rs| - 1]) + rs[|rs| - 1].content.deliveredCount
  }

  /** Peers that a dispatch did not reach, with the source's saturating subtraction. */
  function TotalMissed(rs: seq<Chained<DispatchRecord>>): nat {
    if rs == [] then 0
    else
      var r := rs[|rs| - 1].content;
      TotalMissed(rs[..|rs| - 1]) + (if r.peerCount > r.deliveredCount then r.peerCount - r.deliveredCount else 0)
  }

  lemma TotalMissedGrows(rs: seq<Chained<DispatchRecord>>, r: Chained<DispatchRecord>)
    requires r.content.deliveredCount == r.content.peerCount
    ensures TotalMissed(rs + [r]) == TotalMissed(rs)
    ensures TotalDelivered(rs + [r]) == TotalDelivered(rs) + r.content.peerCount
  {
    assert (rs + [r])[..|rs|] == rs;
  }

  // ---------------------------------------------------------------- replay

  /** The peers that the events leave in, each event taken on its own. */
  function Replayed(events: seq<RegistryEvent>): set<nat> {
    if events == [] then {}
    else
      var ids, e := Replayed(events[..|events| - 1]), events[|events| - 1];
      match e.kind
      case Admitted => ids + {e.peerId}
      case Evicted => ids - {e.peerId}
  }

  /** The map-rebuilding loop of `dispatch`, on sets of ids. */
  method ReplayEvents(events: seq<RegistryEvent>) returns (ids: set<nat>)
    ensures ids == Replayed(events)
  {
    ids := {};
    for i := 0 to |events|
      invariant ids == Replayed(events[..i])
    {
      var e := events[i];
      assert events[..i + 1][..i] == events[..i];
      match e.kind {
        case Admitted => ids := ids + {e.peerId};
        case Evicted => ids := ids - {e.peerId};
      }
    }
    assert events[..|events|] == events;
  }

  /** Replaying finds the peers whose last event is an admission. */
  lemma {:induction false} ReplayedExactly(events: seq<RegistryEvent>, id: nat)
    ensures id in Replayed(events) <==> id < U64_BOUND && LastEventAdmits(events, id)
  {
    if events != [] {
      var front, e := events[..|events| - 1], events[|events| - 1];
      ReplayedExactly(front, id);
      assert events == front + [e];
      if id < U64_BOUND {
        MembershipAfter(front, e, id);
      }
    }
  }

  ghost function PeerIds(r: Registry): set<nat> {
    set id: U64 | id in r.peers :: id as nat
  }

  lemma {:induction false} CountOfImage(a: set<U64>, b: set<nat>)
    requires forall x: nat :: x in b <==> x < U64_BOUND && x in a
    ensures |a| == |b|
  {
    if a == {} {
      assert b == {};
    } else {
      var x :| x in a;
      CountOfImage(a - {x}, b - {x});
    }
  }

  /** The ids replayed from the event log of a consistent registry are the live ones. */
  lemma ReplayFindsLivePeers(sha: Hash, r: Registry)
    requires r.Consistent(sha)
    ensures Replayed(r.events) == PeerIds(r) && |Replayed(r.events)| == |r.peers|
  {
    forall id: nat
      ensures id in Replayed(r.events) <==> id in PeerIds(r)
    {
      ReplayedExactly(r.events, id);
    }
    CountOfImage(r.peers.Keys, PeerIds(r));
  }

  // ---------------------------------------------------------------- one dispatch

  /** One result per peer of `ids`, in increasing id order, all delivered. */
  ghost function ResultsFor(ids: set<nat>, epochEnd: nat): (rs: seq<DispatchResult>)
    ensures |rs| == |InOrder(ids)|
  {
    var ks := InOrder(ids);
    seq(|ks|, i requires 0 <= i < |ks| => DispatchResult(ks[i], epochEnd, true))
  }

  /** The size of the live map, cut to 32 bits. */
  function PeerCount(r: Registry): U32 {
    |r.peers| % U32_BOUND
  }

  /** What a dispatch of an intact frame lists: the replayed peers, unless the peer count, taken
      from the live map, is 0. */
  ghost function ResultsOf(r: Registry, frame: Frame): seq<DispatchResult> {
    if PeerCount(r) == 0 then [] else ResultsFor(Replayed(r.events), EpochOf(frame))
  }

  ghost function RecordOf(r: Registry, frame: Frame): DispatchRecord {
    DispatchRecord(EpochOf(frame), PeerCount(r), |ResultsOf(r, frame)| % U32_BOUND)
  }

  lemma ResultsCount(sha: Hash, r: Registry, frame: Frame)
    requires r.Consistent(sha)
    ensures |ResultsOf(r, frame)| == if PeerCount(r) == 0 then 0 else |r.peers|
  {
    ReplayFindsLivePeers(sha, r);
    InOrderAscends(Replayed(r.events));
  }

  /** Listing nobody when the cut count is 0 leaves the cut count of the list the same. */
  lemma CutOfListed(n: nat, listed: nat)
    requires listed == if n % U32_BOUND == 0 then 0 else n
    ensures listed % U32_BOUND == n % U32_BOUND
    ensures n < U32_BOUND ==> n % U32_BOUND == n == listed
  {
  }

  /** From a consistent registry the delivered count equals the peer count in every case. */
  lemma NobodyIsMissed(sha: Hash, r: Registry, frame: Frame)
    requires r.Consistent(sha)
    ensures RecordOf(r, frame).deliveredCount == RecordOf(r, frame).peerCount
    ensures |r.peers| < U32_BOUND ==> RecordOf(r, frame).peerCount == |r.peers| == |ResultsOf(r, frame)|
  {
    var n, listed := |r.peers|, |ResultsOf(r, frame)|;
    ResultsCount(sha, r, frame);
    CutOfListed(n, listed);
    assert RecordOf(r, frame) == DispatchRecord(EpochOf(frame), n % U32_BOUND, listed % U32_BOUND);
  }

  /** A dispatch from a consistent registry lists exactly the live peers in increasing order,
      unless their number is a positive multiple of 2^32. */
  lemma DispatchReachesLivePeers(sha: Hash, r: Registry, frame: Frame)
    requires r.Consistent(sha)
    ensures ResultsOf(r, frame) == ResultsFor(PeerIds(r), EpochOf(frame)) <==>
            |r.peers| == 0 || |r.peers| % U32_BOUND != 0
  {
    ReplayFindsLivePeers(sha, r);
    InOrderAscends(Replayed(r.events));
  }

  class CompactionGossipDispatcher {
    const sha: Hash
    var records: seq<Chained<DispatchRecord>>

    constructor (sha: Hash)
      ensures this.sha == sha && records == []
    {
      this.sha := sha;
      records := [];
    }

    /** Corrupt frames are refused; an intact one is sent to the peers that the event log
        names. Nobody is missed when the log agrees with the live map. */
    method Dispatch(frame: Frame, registry: CompactionPeerRegistry) returns (d: Dispatched)
      modifies this`records
      ensures d.Sent? <==> ChecksumHolds(sha, frame)
      ensures d.CorruptFrame? ==> records == old(records)
      ensures d.Sent? ==> d.results == ResultsOf(registry.State(), frame) && records == old(records) + [d.record]
      ensures d.Sent? ==> d.record == Next(sha, DispatchBody, old(records), RecordOf(registry.State(), frame))
      ensures registry.State().Consistent(registry.sha) ==> TotalMissed(records) == TotalMissed(old(records))
      ensures LogHolds(sha, DispatchBody, records) <==> LogHolds(sha, DispatchBody, old(records))
    {
      if Decode(sha, frame).ChecksumMismatch? {
        return CorruptFrame;
      }
      var epochEnd := FromBigEndian(frame[..8]);
      var peerCount := |registry.peers| % U32_BOUND;
      var results: seq<DispatchResult> := [];
      if peerCount != 0 {
        var admitted := ReplayEvents(registry.events);
        var ks := ListInOrder(admitted);
        results := seq(|ks|, i requires 0 <= i < |ks| => DispatchResult(ks[i], epochEnd, true));
      }
      assert results == ResultsOf(registry.State(), frame);
      if registry.State().Consistent(registry.sha) {
        NobodyIsMissed(registry.sha, registry.State(), frame);
      }
      var content := DispatchRecord(epochEnd, peerCount, |results| % U32_BOUND);
      assert content == RecordOf(registry.State(), frame);
      var record := Append(content);
      d := Sent(results, record);
    }

    /** Chains a record to the last one. */
    method Append(content: DispatchRecord) returns (record: Chained<DispatchRecord>)
      modifies this`records
      ensures records == old(records) + [record] && record == Next(sha, DispatchBody, old(records), content)
      ensures content.deliveredCount == content.peerCount ==> TotalMissed(records) == TotalMissed(old(records))
      ensures LogHolds(sha, DispatchBody, records) <==> LogHolds(sha, DispatchBody, old(records))
    {
      var prev := if records == [] then Genesis() else records[|records| - 1].hash;
      record := Chained(content, sha(prev + DispatchBody(content)), prev);
      LogGrows(sha, DispatchBody, records, content);
      if content.deliveredCount == content.peerCount {
        TotalMissedGrows(records, record);
      }
      records := records + [record];
    }

    method VerifyChain() returns (valid: bool, broken: Option<nat>)
      ensures valid <==> LogHolds(sha, DispatchBody, records)
      ensures valid ==> broken == None
      ensures !valid ==> broken.Some? && FirstBroken(sha, Genesis(), LinksOf(DispatchBody, records), broken.value)
    {
      valid, broken := VerifyLog(sha, DispatchBody, records);
    }
  }

  // ---------------------------------------------------------------- interleavings

  datatype Operation =
    | DoAdmit(peerId: U64, fingerprint: Digest, epoch: U64)
    | DoEvict(peerId: U64, epoch: U64)
    | DoDispatch(frame: Frame)

  datatype Network = Network(registry: Registry, records: seq<Chained<DispatchRecord>>)

  /** One operation, refused ones included, on a registry and a dispatcher. */
  ghost function Step(sha: Hash, n: Network, op: Operation): Network {
    match op
    case DoAdmit(id, fingerprint, epoch) =>
      var r := Admit(sha, n.registry, id, fingerprint, epoch);
      if r.Some? then n.(registry := r.value) else n
    case DoEvict(id, epoch) =>
      var r := Evict(sha, n.registry, id, epoch);
      if r.Some? then n.(registry := r.value) else n
    case DoDispatch(frame) =>
      if !ChecksumHolds(sha, frame) then n
      else n.(records := n.records + [Next(sha, DispatchBody, n.records, RecordOf(n.registry, frame))])
  }

  /** A run from the empty registry and dispatcher. */
  ghost function RunOf(sha: Hash, ops: seq<Operation>): Network {
    if ops == [] then Network(Registry(map[], []), [])
    else Step(sha, RunOf(sha, ops[..|ops| - 1]), ops[|ops| - 1])
  }

  /** What holds of registry and dispatcher in every run: the event log describes exactly the
      live peers, nothing is counted as missed, and both logs are intact chains. */
  ghost predicate InOrderly(sha: Hash, n: Network) {
    && n.registry.Consistent(sha)
    && TotalMissed(n.records) == 0
    && LogHolds(sha, DispatchBody, n.records)
  }

  lemma StepKeepsOrder(sha: Hash, n: Network, op: Operation)
    requires InOrderly(sha, n)
    ensures InOrderly(sha, Step(sha, n, op))
  {
    match op
    case DoAdmit(id, fingerprint, epoch) =>
      if Admit(sha, n.registry, id, fingerprint, epoch).Some? {
        AdmitKeepsConsistent(sha, n.registry, id, fingerprint, epoch);
      }
    case DoEvict(id, epoch) =>
      if Evict(sha, n.registry, id, epoch).Some? {
        EvictKeepsConsistent(sha, n.registry, id, epoch);
      }
    case DoDispatch(frame) =>
      if ChecksumHolds(sha, frame) {
        var record := RecordOf(n.registry, frame);
        NobodyIsMissed(sha, n.registry, frame);
        TotalMissedGrows(n.records, Next(sha, DispatchBody, n.records, record));
        LogGrows(sha, DispatchBody, n.records, record);
      }
  }

  /** Over every interleaving of admissions, evictions and dispatches. */
  lemma {:induction false} EveryRunIsConsistent(sha: Hash, ops: seq<Operation>)
    ensures InOrderly(sha, RunOf(sha, ops))
  {
    if ops == [] {
      assert TotalMissed([]) == 0;
    } else {
      EveryRunIsConsistent(sha, ops[..|ops| - 1]);
      StepKeepsOrder(sha, RunOf(sha, ops[..|ops| - 1]), ops[|ops| - 1]);
    }
  }

  /** The results name precisely the peers whose last event is an admission, in increasing id
      order. */
  ghost predicate ListsPeers(results: seq<DispatchResult>, events: seq<RegistryEvent>) {
    && (forall i, j :: 0 <= i < j < |results| ==> results[i].peerId < results[j].peerId)
    && (forall i :: 0 <= i < |results| ==> ResultIsLive(results[i], events))
    && (forall id: U64 :: LastEventAdmits(events, id) ==> exists i :: 0 <= i < |results| && results[i].peerId == id)
  }

  predicate ResultIsLive(r: DispatchResult, events: seq<RegistryEvent>) {
    r.delivered && r.peerId < U64_BOUND && LastEventAdmits(events, r.peerId)
  }

  lemma ResultsListPeers(events: seq<RegistryEvent>, epochEnd: nat)
    ensures ListsPeers(ResultsFor(Replayed(events), epochEnd), events)
  {
    var ids, results := Replayed(events), ResultsFor(Replayed(events), epochEnd);
    var ks := InOrder(ids);
    InOrderAscends(ids);
    forall i | 0 <= i < |results|
      ensures ResultIsLive(results[i], events)
    {
      InOrderElements(ids, ks[i]);
      ReplayedExactly(events, ks[i]);
    }
    forall id: U64 | LastEventAdmits(events, id)
      ensures exists i :: 0 <= i < |results| && results[i].peerId == id
    {
      ReplayedExactly(events, id);
      InOrderElements(ids, id);
      var i :| 0 <= i < |ks| && ks[i] == id;
      assert results[i].peerId == id;
    }
  }

  /** After every run, the dispatch of an intact frame lists precisely the current peers, unless
      their number is a positive multiple of 2^32. */
  lemma EveryDispatchListsThePeers(sha: Hash, ops: seq<Operation>, frame: Frame)
    ensures var r := RunOf(sha, ops).registry;
      ListsPeers(ResultsOf(r, frame), r.events) <==> |r.peers| == 0 || |r.peers| % U32_BOUND != 0
  {
    var r := RunOf(sha, ops).registry;
    EveryRunIsConsistent(sha, ops);
    ResultsListPeers(r.events, EpochOf(frame));
    if PeerCount(r) == 0 && r.peers != map[] {
      var id :| id in r.peers;
      assert LastEventAdmits(r.events, id);
    }
    if |r.peers| == 0 {
      ReplayFindsLivePeers(sha, r);
      assert Replayed(r.events) == {};
    }
  }

  function Admissions(n: nat): (ops: seq<Operation>)
    requires n <= U64_BOUND
    ensures |ops| == n
  {
    seq(n, i requires 0 <= i < n => DoAdmit(i, Genesis(), 0))
  }

  /** Any number of peers can be admitted, one after the other. */
  lemma {:induction false} AdmissionsAdmit(sha: Hash, n: nat)
    requires n <= U64_BOUND
    ensures var peers := RunOf(sha, Admissions(n)).registry.peers;
      |peers| == n && forall id: U64 :: id in peers ==> id < n
  {
    if n > 0 {
      var ops := Admissions(n);
      assert ops[..n - 1] == Admissions(n - 1);
      AdmissionsAdmit(sha, n - 1);
      var before := RunOf(sha, Admissions(n - 1)).registry;
      var after := RunOf(sha, ops).registry;
      assert after == Admit(sha, before, n - 1, Genesis(), 0).value;
      assert after.peers.Keys == before.peers.Keys + {n - 1};
    }
  }

  /** The exception does occur: after 2^32 admissions a dispatch lists nobody. */
  lemma FullRegistryGetsNothing(sha: Hash, frame: Frame)
    ensures var r := RunOf(sha, Admissions(U32_BOUND)).registry;
      |r.peers| == U32_BOUND && ResultsOf(r, frame) == [] && !ListsPeers(ResultsOf(r, frame), r.events)
  {
    AdmissionsAdmit(sha, U32_BOUND);
    EveryDispatchListsThePeers(sha, Admissions(U32_BOUND), frame);
  }
}
