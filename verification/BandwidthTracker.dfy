/** Per-peer, per-epoch byte budgets, and the sealing of epochs into per-peer logs. */
module BandwidthTracker {
  import opened Wrappers
  import opened Bytes
  import opened HashChain
  import opened SortedKeys
  import opened Arithmetic

  datatype Decision = Allow | Throttle | Deny

  /** A peer's counters for its current epoch. */
  datatype Usage = Usage(epoch: U64, allowed: U64, throttled: U64, denied: U64)

  datatype BandwidthRecord = BandwidthRecord(
    peerId: U32, epoch: U64, allowed: U64, throttled: U64, denied: U64, budget: U64, utilizationPct: nat)

  datatype PeerState = PeerState(records: seq<Chained<BandwidthRecord>>, usage: Usage)

  type Peers = map<U32, PeerState>

  // ---------------------------------------------------------------- requests

  function Decide(budget: U64, used: U64, bytes: U64): Decision {
    if used >= budget then Deny
    else if SaturatingAdd(used, bytes) > budget then Throttle
    else Allow
  }

  /** The counters a request is judged against: reset when it opens a later epoch. */
  function Opened(usage: Option<Usage>, epoch: U64): Usage {
    if usage.Some? && epoch <= usage.value.epoch then usage.value else Usage(epoch, 0, 0, 0)
  }

  function DecisionOn(budget: U64, usage: Option<Usage>, epoch: U64, bytes: U64): Decision {
    Decide(budget, Opened(usage, epoch).allowed, bytes)
  }

  function Charged(budget: U64, usage: Option<Usage>, epoch: U64, bytes: U64): Usage {
    var u := Opened(usage, epoch);
    match Decide(budget, u.allowed, bytes)
    case Allow => u.(allowed := SaturatingAdd(u.allowed, bytes))
    case Throttle => u.(throttled := SaturatingAdd(u.throttled, bytes))
    case Deny => u.(denied := SaturatingAdd(u.denied, bytes))
  }

  /** A request is described as opening a new epoch whenever its epoch changes. The code meets
      that exactly when the request's epoch is not an earlier one, which it charges to the current
      epoch. */
  lemma OpenedAsDescribed(u: Usage, epoch: U64)
    ensures (Opened(Some(u), epoch) == if epoch == u.epoch then u else Usage(epoch, 0, 0, 0)) <==> epoch >= u.epoch
    ensures Opened(Some(Usage(7, 5, 0, 0)), 6) == Usage(7, 5, 0, 0)
  {
  }

  // ---------------------------------------------------------------- sealing

  /** The percentage of the budget that was used. The product is taken in 64 bits and wraps. */
  function Utilization(allowed: U64, budget: U64): nat {
    if budget == 0 then (if allowed > 0 then 100 else 0)
    else
      var quotient := (allowed * 100 % U64_BOUND) / budget;
      if quotient < 100 then quotient else 100
  }

  function RecordOf(peerId: U32, u: Usage, budget: U64): BandwidthRecord {
    BandwidthRecord(peerId, u.epoch, u.allowed, u.throttled, u.denied, budget, Utilization(u.allowed, budget))
  }

  function RecordBody(r: BandwidthRecord): ByteString {
    BigEndian(r.peerId, 4) + Be8(r.epoch) + Be8(r.allowed) + Be8(r.throttled) + Be8(r.denied)
  }

  /** The peer is at epoch `e` but its log already reaches `e`. */
  predicate Stale(s: PeerState, e: U64) {
    s.usage.epoch == e && s.records != [] && e <= s.records[|s.records| - 1].content.epoch
  }

  /** No peer up to and including `p`, in id order, is stale. */
  predicate NoneStaleUpTo(peers: Peers, e: U64, p: U32) {
    forall q :: q in peers && q <= p ==> !Stale(peers[q], e)
  }

  function Recorded(sha: Hash, budget: U64, p: U32, s: PeerState): PeerState {
    s.(records := s.records + [Next(sha, RecordBody, s.records, RecordOf(p, s.usage, budget))])
  }

  /** What sealing `e` does to one peer, also when it fails: peers are recorded in id order up
      to the first stale one. */
  function SealedPeer(sha: Hash, budget: U64, peers: Peers, e: U64, p: U32): PeerState
    requires p in peers
  {
    if peers[p].usage.epoch == e && NoneStaleUpTo(peers, e, p) then Recorded(sha, budget, p, peers[p]) else peers[p]
  }

  function AfterSeal(sha: Hash, budget: U64, peers: Peers, e: U64): Peers {
    map p | p in peers :: SealedPeer(sha, budget, peers, e, p)
  }

  predicate SealSucceeds(peers: Peers, e: U64) {
    forall p :: p in peers ==> !Stale(peers[p], e)
  }

  class BandwidthRegistry {
    const sha: Hash
    const budgetBytes: U64
    var peers: Peers

    constructor (sha: Hash, budgetBytes: U64)
      ensures this.sha == sha && this.budgetBytes == budgetBytes && peers == map[]
    {
      this.sha := sha;
      this.budgetBytes := budgetBytes;
      peers := map[];
    }

    method RequestBytes(peerId: U32, epoch: U64, bytes: U64) returns (d: Decision)
      modifies this
      ensures d == DecisionOn(budgetBytes, UsageIn(old(peers), peerId), epoch, bytes)
      ensures peers == AfterRequest(budgetBytes, old(peers), peerId, epoch, bytes)
    {
      var s := if peerId in peers then peers[peerId] else PeerState([], Usage(epoch, 0, 0, 0));
      if epoch > s.usage.epoch {
        s := s.(usage := Usage(epoch, 0, 0, 0));
      }
      var u := s.usage;
      var used := u.allowed;
      d := if used >= budgetBytes then Deny
           else if SaturatingAdd(used, bytes) > budgetBytes then Throttle
           else Allow;
      match d {
        case Allow => u := u.(allowed := SaturatingAdd(u.allowed, bytes));
        case Throttle => u := u.(throttled := SaturatingAdd(u.throttled, bytes));
        case Deny => u := u.(denied := SaturatingAdd(u.denied, bytes));
      }
      peers := peers[peerId := s.(usage := u)];
    }

    method SealEpoch(e: U64) returns (ok: bool)
      modifies this
      ensures ok <==> SealSucceeds(old(peers), e)
      ensures peers == AfterSeal(sha, budgetBytes, old(peers), e)
    {
      var ks := ListInOrder(peers.Keys);
      ghost var before := peers;
      KeysListed(before, ks);
      for i := 0 to |ks|
        invariant SealedUpTo(sha, budgetBytes, before, ks, e, i, peers)
      {
        ghost var now := peers;
        var recorded := SealPeer(ks[i], e);
        if !recorded {
          StaleStops(sha, budgetBytes, before, ks, e, i, peers);
          return false;
        }
        SealsNext(sha, budgetBytes, before, ks, e, i, now, peers);
      }
      AllSealed(sha, budgetBytes, before, ks, e, peers);
      ok := true;
    }

    /** One turn of the loop: a peer at the epoch is recorded unless its log already reaches
        it. */
    method SealPeer(p: U32, e: U64) returns (ok: bool)
      requires p in peers
      modifies this`peers
      ensures ok <==> !Stale(old(peers)[p], e)
      ensures peers == if ok && old(peers)[p].usage.epoch == e
                       then old(peers)[p := Recorded(sha, budgetBytes, p, old(peers)[p])] else old(peers)
    {
      var s := peers[p];
      if s.usage.epoch == e {
        if s.records != [] && e <= s.records[|s.records| - 1].content.epoch {
          return false;
        }
        peers := peers[p := Recorded(sha, budgetBytes, p, s)];
      }
      ok := true;
    }
  }

  ghost predicate Lists(peers: Peers, ks: seq<nat>) {
    Ascending(ks) && forall p :: p in ks <==> p in peers
  }

  lemma KeysListed(peers: Peers, ks: seq<nat>)
    requires ks == InOrder(peers.Keys)
    ensures Lists(peers, ks)
  {
    InOrderAscends(peers.Keys);
    forall p
      ensures p in ks <==> p in peers
    {
      InOrderElements(peers.Keys, p);
    }
  }

  /** The sealing loop has dealt with the first `i` peers and found none of them stale. */
  ghost predicate SealedUpTo(sha: Hash, budget: U64, before: Peers, ks: seq<nat>, e: U64, i: nat, now: Peers)
    requires i <= |ks|
  {
    && Lists(before, ks)
    && now.Keys == before.Keys
    && (forall j :: 0 <= j < |ks| ==> ks[j] in before)
    && (forall j :: 0 <= j < i ==> !Stale(before[ks[j]], e) && now[ks[j]] == SealedPeer(sha, budget, before, e, ks[j]))
    && (forall j :: i <= j < |ks| ==> now[ks[j]] == before[ks[j]])
  }

  lemma NoneStaleAt(before: Peers, ks: seq<nat>, e: U64, i: nat)
    requires i < |ks| && Lists(before, ks) && forall j :: 0 <= j <= i ==> ks[j] in before && !Stale(before[ks[j]], e)
    ensures NoneStaleUpTo(before, e, ks[i])
  {
    forall q | q in before && q <= ks[i]
      ensures !Stale(before[q], e)
    {
      var j :| 0 <= j < |ks| && ks[j] == q;
    }
  }

  lemma SealsNext(sha: Hash, budget: U64, before: Peers, ks: seq<nat>, e: U64, i: nat, now: Peers, next: Peers)
    requires i < |ks| && SealedUpTo(sha, budget, before, ks, e, i, now) && !Stale(before[ks[i]], e)
    requires next == if before[ks[i]].usage.epoch == e
                     then now[ks[i] := Recorded(sha, budget, ks[i], before[ks[i]])] else now
    ensures SealedUpTo(sha, budget, before, ks, e, i + 1, next)
  {
    NoneStaleAt(before, ks, e, i);
    assert next[ks[i]] == SealedPeer(sha, budget, before, e, ks[i]);
    forall j | 0 <= j < |ks| && j != i
      ensures next[ks[j]] == now[ks[j]]
    {
      assert ks[j] != ks[i];
    }
  }

  lemma StaleStops(sha: Hash, budget: U64, before: Peers, ks: seq<nat>, e: U64, i: nat, now: Peers)
    requires i < |ks| && SealedUpTo(sha, budget, before, ks, e, i, now) && Stale(before[ks[i]], e)
    ensures now == AfterSeal(sha, budget, before, e) && !SealSucceeds(before, e)
  {
    forall p | p in before
      ensures now[p] == SealedPeer(sha, budget, before, e, p)
    {
      var j :| 0 <= j < |ks| && ks[j] == p;
      if j >= i {
        StaleBlocks(before, e, ks[i], p);
      }
    }
    assert ks[i] in before;
  }

  lemma StaleBlocks(peers: Peers, e: U64, q: U32, p: U32)
    requires q in peers && Stale(peers[q], e) && q <= p
    ensures !NoneStaleUpTo(peers, e, p)
  {
  }

  lemma AllSealed(sha: Hash, budget: U64, before: Peers, ks: seq<nat>, e: U64, now: Peers)
    requires SealedUpTo(sha, budget, before, ks, e, |ks|, now)
    ensures now == AfterSeal(sha, budget, before, e) && SealSucceeds(before, e)
  {
    forall p | p in before
      ensures now[p] == SealedPeer(sha, budget, before, e, p) && !Stale(before[p], e)
    {
      var j :| 0 <= j < |ks| && ks[j] == p;
    }
  }

  // ---------------------------------------------------------------- runs

  datatype Request = Request(peerId: U32, epoch: U64, bytes: U64)

  datatype Operation = Ask(request: Request) | Seal(epoch: U64)

  function UsageIn(peers: Peers, p: U32): Option<Usage> {
    if p in peers then Some(peers[p].usage) else None
  }

  function AfterRequest(budget: U64, peers: Peers, p: U32, epoch: U64, bytes: U64): Peers {
    var records := if p in peers then peers[p].records else [];
    peers[p := PeerState(records, Charged(budget, UsageIn(peers, p), epoch, bytes))]
  }

  function Step(sha: Hash, budget: U64, peers: Peers, op: Operation): Peers {
    match op
    case Ask(r) => AfterRequest(budget, peers, r.peerId, r.epoch, r.bytes)
    case Seal(e) => AfterSeal(sha, budget, peers, e)
  }

  /** The registry after a trace of requests and seals, failed seals included. */
  function RunOf(sha: Hash, budget: U64, ops: seq<Operation>): Peers {
    if ops == [] then map[] else Step(sha, budget, RunOf(sha, budget, ops[..|ops| - 1]), ops[|ops| - 1])
  }

  /** The requests of one peer, in order. */
  function RequestsOf(ops: seq<Operation>, p: U32): seq<Request> {
    if ops == [] then []
    else
      var last := ops[|ops| - 1];
      RequestsOf(ops[..|ops| - 1], p) + (if last.Ask? && last.request.peerId == p then [last.request] else [])
  }

  /** The counters of a peer that is alone in the registry and is never sealed. */
  function UsageAlone(budget: U64, asks: seq<Request>): Option<Usage>
  {
    if asks == [] then None
    else
      var last := asks[|asks| - 1];
      Some(Charged(budget, UsageAlone(budget, asks[..|asks| - 1]), last.epoch, last.bytes))
  }

  /** Isolation: whatever the other peers ask, and whatever is sealed in between, a peer's
      counters are those of its own requests alone. */
  lemma {:induction false} PeersAreIsolated(sha: Hash, budget: U64, ops: seq<Operation>, p: U32)
    ensures UsageIn(RunOf(sha, budget, ops), p) == UsageAlone(budget, RequestsOf(ops, p))
  {
    if ops != [] {
      var front, last := ops[..|ops| - 1], ops[|ops| - 1];
      PeersAreIsolated(sha, budget, front, p);
      if last.Ask? && last.request.peerId == p {
        assert RequestsOf(ops, p)[..|RequestsOf(ops, p)| - 1] == RequestsOf(front, p);
      } else {
        assert RequestsOf(ops, p) == RequestsOf(front, p);
      }
    }
  }

  /** So are the decisions taken on them. */
  lemma DecisionsAreIsolated(sha: Hash, budget: U64, ops: seq<Operation>, i: nat)
    requires i < |ops| && ops[i].Ask?
    ensures var r, before := ops[i].request, ops[..i];
      DecisionOn(budget, UsageIn(RunOf(sha, budget, before), r.peerId), r.epoch, r.bytes)
      == DecisionOn(budget, UsageAlone(budget, RequestsOf(before, r.peerId)), r.epoch, r.bytes)
  {
    PeersAreIsolated(sha, budget, ops[..i], ops[i].request.peerId);
  }

  /** A request is allowed exactly when the budget is not used up and it fits; a budget of the
      largest 64-bit value also swallows requests that overflow. The description, by which a
      request is allowed exactly when it fits, holds apart from that and from empty requests on
      a used-up budget. */
  lemma AllowedExactly(budget: U64, used: U64, bytes: U64)
    ensures Decide(budget, used, bytes) == Allow <==>
      used < budget && (used + bytes <= budget || budget == U64_BOUND - 1)
    ensures Decide(budget, used, bytes) == Deny <==> used >= budget
    ensures used <= budget ==>
      ((Decide(budget, used, bytes) == Allow <==> used + bytes <= budget) <==>
       !(used == budget && bytes == 0) && !(used < budget == U64_BOUND - 1 < used + bytes))
  {
  }

  /** Both exceptions occur: with the largest budget two requests for all but one byte of it are
      allowed, and with no budget an empty request is denied. */
  lemma AllowedBeyondBudget()
    ensures var most := U64_BOUND - 2;
      var once := UsageAlone(U64_BOUND - 1, [Request(1, 7, most)]);
      && once.Some? && once.value.allowed == most
      && DecisionOn(U64_BOUND - 1, once, 7, most) == Allow
    ensures DecisionOn(0, None, 7, 0) == Deny
  {
    var asks := [Request(1, 7, U64_BOUND - 2)];
    assert asks[..0] == [];
    assert UsageAlone(U64_BOUND - 1, asks[..0]) == None;
  }

  /** A peer that has used up its budget stays denied until it opens a later epoch, whatever it
      asks in between. */
  lemma {:induction false} DenialIsFinal(budget: U64, before: seq<Request>, later: seq<Request>, next: Request)
    requires UsageAlone(budget, before).Some? && UsageAlone(budget, before).value.allowed >= budget
    requires forall r :: r in later + [next] ==> r.epoch <= UsageAlone(budget, before).value.epoch
    ensures UsageAlone(budget, before + later).Some?
    ensures UsageAlone(budget, before + later).value.allowed == UsageAlone(budget, before).value.allowed
    ensures UsageAlone(budget, before + later).value.epoch == UsageAlone(budget, before).value.epoch
    ensures DecisionOn(budget, UsageAlone(budget, before + later), next.epoch, next.bytes) == Deny
    decreases |later|
  {
    assert next in later + [next];
    if later == [] {
      assert before + later == before;
    } else {
      var front, last := later[..|later| - 1], later[|later| - 1];
      assert last in later && forall r :: r in front + [last] ==> r in later;
      DenialIsFinal(budget, before, front, last);
      assert (before + later)[..|before + later| - 1] == before + front;
    }
  }

  // ---------------------------------------------------------------- what the counters mean

  function TotalBytes(asks: seq<Request>): nat {
    if asks == [] then 0 else TotalBytes(asks[..|asks| - 1]) + asks[|asks| - 1].bytes
  }

  lemma TotalBytesGrows(asks: seq<Request>, last: Request)
    ensures TotalBytes(asks + [last]) == TotalBytes(asks) + last.bytes
  {
    assert (asks + [last])[..|asks|] == asks;
  }

  /** `k` is the request that opened the current epoch: the first to carry the largest epoch. */
  predicate OpensCurrent(asks: seq<Request>, k: nat) {
    && k < |asks|
    && (forall i :: 0 <= i < k ==> asks[i].epoch < asks[k].epoch)
    && (forall i :: k <= i < |asks| ==> asks[i].epoch <= asks[k].epoch)
  }

  /** The counters account for the requests of `since`, the allowance within the budget. */
  predicate Accounts(budget: U64, since: seq<Request>, u: Usage) {
    && u.allowed <= budget
    && (TotalBytes(since) < U64_BOUND ==> u.allowed + u.throttled + u.denied == TotalBytes(since))
  }

  /** One request adds its bytes to exactly one counter and never takes the allowance over the
      budget. */
  lemma ChargeConserves(budget: U64, usage: Option<Usage>, epoch: U64, bytes: U64)
    ensures var o, u := Opened(usage, epoch), Charged(budget, usage, epoch, bytes);
      && u.epoch == o.epoch
      && (o.allowed <= budget ==> u.allowed <= budget)
      && (o.allowed + o.throttled + o.denied + bytes < U64_BOUND ==>
            u.allowed + u.throttled + u.denied == o.allowed + o.throttled + o.denied + bytes)
  {
  }

  /** A request that opens a later epoch is all that the new counters account for. */
  lemma AccountsAnew(budget: U64, usage: Option<Usage>, last: Request)
    requires usage == None || last.epoch > usage.value.epoch
    ensures Accounts(budget, [last], Charged(budget, usage, last.epoch, last.bytes))
  {
    ChargeConserves(budget, usage, last.epoch, last.bytes);
    TotalBytesGrows([], last);
    assert [] + [last] == [last];
  }

  /** Any other is added to what they account for. */
  lemma AccountsGrow(budget: U64, since: seq<Request>, usage: Usage, last: Request, all: seq<Request>)
    requires last.epoch <= usage.epoch && Accounts(budget, since, usage) && all == since + [last]
    ensures Accounts(budget, all, Charged(budget, Some(usage), last.epoch, last.bytes))
  {
    ChargeConserves(budget, Some(usage), last.epoch, last.bytes);
    TotalBytesGrows(since, last);
  }

  lemma {:induction false} CurrentEpochIsOpened(budget: U64, asks: seq<Request>) returns (k: nat)
    requires asks != []
    ensures OpensCurrent(asks, k)
    ensures UsageAlone(budget, asks).Some? && UsageAlone(budget, asks).value.epoch == asks[k].epoch
  {
    var n := |asks| - 1;
    ChargeConserves(budget, UsageAlone(budget, asks[..n]), asks[n].epoch, asks[n].bytes);
    k := n;
    if n > 0 {
      var j := CurrentEpochIsOpened(budget, asks[..n]);
      if asks[n].epoch <= asks[j].epoch {
        k := j;
      }
    }
  }

  lemma NewestOpens(budget: U64, asks: seq<Request>)
    requires asks != [] && OpensCurrent(asks, |asks| - 1)
    ensures Accounts(budget, [asks[|asks| - 1]], UsageAlone(budget, asks).value)
  {
    var n := |asks| - 1;
    if n > 0 {
      var j := CurrentEpochIsOpened(budget, asks[..n]);
      assert asks[j].epoch < asks[n].epoch;
    }
    AccountsAnew(budget, UsageAlone(budget, asks[..n]), asks[n]);
  }

  /** Conservation: after any requests of a peer, its current epoch is the largest epoch asked
      for, what it was allowed is within the budget, and the three counters add up to the bytes
      asked for since that epoch was opened, as long as that sum fits in 64 bits. */
  lemma {:induction false} CountersConserveBytes(budget: U64, asks: seq<Request>, k: nat)
    requires OpensCurrent(asks, k)
    ensures UsageAlone(budget, asks).Some? && UsageAlone(budget, asks).value.epoch == asks[k].epoch
    ensures Accounts(budget, asks[k..], UsageAlone(budget, asks).value)
    decreases |asks|
  {
    var n := |asks| - 1;
    var own := CurrentEpochIsOpened(budget, asks);
    if k == n {
      NewestOpens(budget, asks);
      assert asks[k..] == [asks[n]];
    } else {
      CountersConserveBytes(budget, asks[..n], k);
      assert asks[k..] == asks[..n][k..] + [asks[n]];
      AccountsGrow(budget, asks[..n][k..], UsageAlone(budget, asks[..n]).value, asks[n], asks[k..]);
    }
  }

  // ---------------------------------------------------------------- logs

  predicate RecordSound(budget: U64, p: U32, current: U64, r: BandwidthRecord) {
    && r.peerId == p && r.epoch <= current
    && r.budget == budget && r.allowed <= budget && r.utilizationPct == Utilization(r.allowed, budget)
  }

  /** What holds of every peer in every reachable registry: its log is an intact chain of sound
      records with increasing epochs. */
  predicate PeerInvariant(sha: Hash, budget: U64, p: U32, s: PeerState) {
    && s.usage.allowed <= budget
    && (forall i :: 0 <= i < |s.records| ==> RecordSound(budget, p, s.usage.epoch, s.records[i].content))
    && (forall i, j :: 0 <= i < j < |s.records| ==> s.records[i].content.epoch < s.records[j].content.epoch)
    && LogHolds(sha, RecordBody, s.records)
  }

  predicate RegistryInvariant(sha: Hash, budget: U64, peers: Peers) {
    forall p :: p in peers ==> PeerInvariant(sha, budget, p, peers[p])
  }

  lemma RequestKeepsSound(sha: Hash, budget: U64, peers: Peers, r: Request)
    requires RegistryInvariant(sha, budget, peers)
    ensures RegistryInvariant(sha, budget, AfterRequest(budget, peers, r.peerId, r.epoch, r.bytes))
  {
    var usage := UsageIn(peers, r.peerId);
    ChargeConserves(budget, usage, r.epoch, r.bytes);
    assert r.peerId in peers ==> PeerInvariant(sha, budget, r.peerId, peers[r.peerId]);
  }

  lemma RecordingKeepsSound(sha: Hash, budget: U64, p: U32, s: PeerState)
    requires PeerInvariant(sha, budget, p, s) && !Stale(s, s.usage.epoch)
    ensures PeerInvariant(sha, budget, p, Recorded(sha, budget, p, s))
  {
    LogGrows(sha, RecordBody, s.records, RecordOf(p, s.usage, budget));
  }

  lemma SealKeepsSound(sha: Hash, budget: U64, peers: Peers, e: U64)
    requires RegistryInvariant(sha, budget, peers)
    ensures RegistryInvariant(sha, budget, AfterSeal(sha, budget, peers, e))
  {
    forall p | p in peers
      ensures PeerInvariant(sha, budget, p, SealedPeer(sha, budget, peers, e, p))
    {
      assert PeerInvariant(sha, budget, p, peers[p]);
      if peers[p].usage.epoch == e && NoneStaleUpTo(peers, e, p) {
        RecordingKeepsSound(sha, budget, p, peers[p]);
      }
    }
  }

  lemma {:induction false} EveryRegistryIsSound(sha: Hash, budget: U64, ops: seq<Operation>)
    ensures RegistryInvariant(sha, budget, RunOf(sha, budget, ops))
  {
    if ops != [] {
      var front, last := ops[..|ops| - 1], ops[|ops| - 1];
      EveryRegistryIsSound(sha, budget, front);
      match last
      case Ask(r) => RequestKeepsSound(sha, budget, RunOf(sha, budget, front), r);
      case Seal(e) => SealKeepsSound(sha, budget, RunOf(sha, budget, front), e);
    }
  }

  /** The peer's log has a record of epoch `e`. */
  predicate SealedBefore(s: PeerState, e: U64) {
    exists i :: 0 <= i < |s.records| && s.records[i].content.epoch == e
  }

  lemma StaleExactly(sha: Hash, budget: U64, p: U32, s: PeerState, e: U64)
    requires PeerInvariant(sha, budget, p, s)
    ensures Stale(s, e) <==> s.usage.epoch == e && SealedBefore(s, e)
  {
    if Stale(s, e) {
      assert s.records[|s.records| - 1].content.epoch == e;
    }
  }

  /** The encoding leaves out the budget and the percentage, and nothing else. */
  lemma RecordBodyExactly(a: BandwidthRecord, b: BandwidthRecord)
    ensures RecordBody(a) == RecordBody(b) <==> a == b.(budget := a.budget, utilizationPct := a.utilizationPct)
  {
    if RecordBody(a) == RecordBody(b) {
      var a1, b1 := BigEndian(a.peerId, 4) + Be8(a.epoch), BigEndian(b.peerId, 4) + Be8(b.epoch);
      SplitEqual(a1 + Be8(a.allowed) + Be8(a.throttled), b1 + Be8(b.allowed) + Be8(b.throttled),
                 Be8(a.denied), Be8(b.denied));
      SplitEqual(a1 + Be8(a.allowed), b1 + Be8(b.allowed), Be8(a.throttled), Be8(b.throttled));
      SplitEqual(a1, b1, Be8(a.allowed), Be8(b.allowed));
      SplitEqual(BigEndian(a.peerId, 4), BigEndian(b.peerId, 4), Be8(a.epoch), Be8(b.epoch));
      Be4Injective(a.peerId, b.peerId);
      Be8Injective(a.epoch, b.epoch);
      Be8Injective(a.allowed, b.allowed);
      Be8Injective(a.throttled, b.throttled);
      Be8Injective(a.denied, b.denied);
    }
  }

  function Altered(r: Chained<BandwidthRecord>, budget: U64, pct: nat): Chained<BandwidthRecord> {
    r.(content := r.content.(budget := budget, utilizationPct := pct))
  }

  /** So verification does not notice when these two are altered in a log. */
  lemma AlteredPercentageIsUnnoticed(sha: Hash, rs: seq<Chained<BandwidthRecord>>, i: nat, budget: U64, pct: nat)
    requires i < |rs|
    ensures LogHolds(sha, RecordBody, rs[i := Altered(rs[i], budget, pct)]) <==> LogHolds(sha, RecordBody, rs)
    ensures LastHash(rs[i := Altered(rs[i], budget, pct)]) == LastHash(rs)
  {
    assert LinksOf(RecordBody, rs[i := Altered(rs[i], budget, pct)]) == LinksOf(RecordBody, rs);
  }

  predicate Reads(budget: U64, r: BandwidthRecord) {
    r.budget == budget && r.utilizationPct == Utilization(r.allowed, budget)
  }

  lemma ReadingsTellApart(budget: U64)
    ensures TellsApart(RecordBody, (r: BandwidthRecord) => Reads(budget, r))
  {
    forall a, b | Reads(budget, a) && Reads(budget, b) && RecordBody(a) == RecordBody(b)
      ensures a == b
    {
      RecordBodyExactly(a, b);
    }
  }

  /** In reachable registries of one budget, though, the rest determines these two, so equal last
      hashes of two peers' logs mean the same log, peer and percentages included, an explicit
      collision, or an explicit preimage of the genesis value. */
  lemma LastHashBindsPeerLog(sha: Hash, budget: U64, ops: seq<Operation>, ops': seq<Operation>, p: U32, q: U32)
    requires p in RunOf(sha, budget, ops) && q in RunOf(sha, budget, ops')
    requires LastHash(RunOf(sha, budget, ops)[p].records) == LastHash(RunOf(sha, budget, ops')[q].records)
    ensures var a, b := RunOf(sha, budget, ops)[p].records, RunOf(sha, budget, ops')[q].records;
      || a == b
      || CollisionBetween(sha, LinksOf(RecordBody, a), LinksOf(RecordBody, b))
      || HashesTo(sha, LinksOf(RecordBody, a) + LinksOf(RecordBody, b), Genesis())
  {
    EveryRegistryIsSound(sha, budget, ops);
    EveryRegistryIsSound(sha, budget, ops');
    PeerLogsAreBound(sha, budget, p, RunOf(sha, budget, ops)[p], q, RunOf(sha, budget, ops')[q]);
  }

  lemma PeerLogsAreBound(sha: Hash, budget: U64, p: U32, s: PeerState, q: U32, t: PeerState)
    requires PeerInvariant(sha, budget, p, s) && PeerInvariant(sha, budget, q, t)
    requires LastHash(s.records) == LastHash(t.records)
    ensures || s.records == t.records
            || CollisionBetween(sha, LinksOf(RecordBody, s.records), LinksOf(RecordBody, t.records))
            || HashesTo(sha, LinksOf(RecordBody, s.records) + LinksOf(RecordBody, t.records), Genesis())
  {
    ReadingsTellApart(budget);
    LastHashBindsLog(sha, RecordBody, r => Reads(budget, r), s.records, t.records);
  }

  /** In a reachable registry a seal succeeds exactly when no peer currently at `e` has sealed
      `e` before, and then exactly the peers at `e` gain one record, of `e`, within budget. */
  lemma SealingExactly(sha: Hash, budget: U64, ops: seq<Operation>, e: U64)
    ensures var peers := RunOf(sha, budget, ops);
      && (SealSucceeds(peers, e) <==>
            forall p :: p in peers && peers[p].usage.epoch == e ==> !SealedBefore(peers[p], e))
      && (SealSucceeds(peers, e) ==>
            forall p :: p in peers ==>
              var after := AfterSeal(sha, budget, peers, e)[p];
              if peers[p].usage.epoch == e
              then after.usage == peers[p].usage && after.records == peers[p].records
                     + [Next(sha, RecordBody, peers[p].records, RecordOf(p, peers[p].usage, budget))]
              else after == peers[p])
  {
    EveryRegistryIsSound(sha, budget, ops);
    var peers := RunOf(sha, budget, ops);
    forall p | p in peers
      ensures Stale(peers[p], e) <==> peers[p].usage.epoch == e && SealedBefore(peers[p], e)
    {
      StaleExactly(sha, budget, p, peers[p], e);
    }
  }

  /** Sealing is described as recording all open epochs. A successful seal records every peer
      exactly when every peer is at the epoch. */
  lemma SealsEveryoneExactly(sha: Hash, budget: U64, ops: seq<Operation>, e: U64)
    ensures var peers := RunOf(sha, budget, ops);
      SealSucceeds(peers, e) ==>
        ((forall p :: p in peers ==> AfterSeal(sha, budget, peers, e)[p] != peers[p])
         <==> forall p :: p in peers ==> peers[p].usage.epoch == e)
  {
    var peers := RunOf(sha, budget, ops);
    if SealSucceeds(peers, e) {
      forall p | p in peers
        ensures AfterSeal(sha, budget, peers, e)[p] != peers[p] <==> peers[p].usage.epoch == e
      {
        RecordingChanges(sha, budget, p, peers[p]);
      }
    }
  }

  /** The operation at `i` seals the epoch of `r`, and `r` holds what the peer's own requests up to
      then amount to. */
  ghost predicate SealedAt(budget: U64, ops: seq<Operation>, p: U32, r: BandwidthRecord, i: nat) {
    && i < |ops| && ops[i] == Seal(r.epoch)
    && var u := UsageAlone(budget, RequestsOf(ops[..i], p));
       u.Some? && r == RecordOf(p, u.value, budget)
  }

  /** Every record of every reachable log is the counters of the peer's own requests at the moment
      of a seal of that epoch. What a peer uses in an epoch that is not sealed before it opens a
      later one is therefore never recorded. */
  lemma {:induction false} EveryRecordWasSealed(sha: Hash, budget: U64, ops: seq<Operation>, p: U32, k: nat)
    returns (i: nat)
    requires p in RunOf(sha, budget, ops) && k < |RunOf(sha, budget, ops)[p].records|
    ensures SealedAt(budget, ops, p, RunOf(sha, budget, ops)[p].records[k].content, i)
  {
    var n := |ops| - 1;
    var front, last := ops[..n], ops[n];
    var before, after := RunOf(sha, budget, front), RunOf(sha, budget, ops);
    if p in before && k < |before[p].records| {
      assert after[p].records[k] == before[p].records[k];
      i := EveryRecordWasSealed(sha, budget, front, p, k);
      assert front[..i] == ops[..i] && front[i] == ops[i];
    } else {
      i := n;
      LastSealRecords(sha, budget, before, last, p, k);
      PeersAreIsolated(sha, budget, front, p);
    }
  }

  /** A record that one operation adds is of the peer's current counters. */
  lemma LastSealRecords(sha: Hash, budget: U64, before: Peers, op: Operation, p: U32, k: nat)
    requires p in Step(sha, budget, before, op) && k < |Step(sha, budget, before, op)[p].records|
    requires p in before ==> k >= |before[p].records|
    ensures p in before
    ensures var r := Step(sha, budget, before, op)[p].records[k].content;
      op == Seal(r.epoch) && r == RecordOf(p, before[p].usage, budget)
  {
  }

  /** A registry in which a successful seal leaves out a peer with five bytes in an earlier epoch,
      which its next request then drops for good. */
  lemma UnsealedUsageIsDropped(sha: Hash)
    ensures var ops := [Ask(Request(1, 7, 5)), Ask(Request(2, 8, 5))];
      var peers := RunOf(sha, 10, ops);
      && SealSucceeds(peers, 8) && 1 in peers && 2 in peers && peers[1].usage == Usage(7, 5, 0, 0)
      && AfterSeal(sha, 10, peers, 8)[1] == peers[1]
      && AfterRequest(10, AfterSeal(sha, 10, peers, 8), 1, 8, 0)[1] == PeerState([], Usage(8, 0, 0, 0))
  {
    var one, two := [Ask(Request(1, 7, 5))], [Ask(Request(1, 7, 5)), Ask(Request(2, 8, 5))];
    assert two[..1] == one;
    OneRequestRun(sha, 10, Request(1, 7, 5));
    assert RunOf(sha, 10, two) == AfterRequest(10, RunOf(sha, 10, one), 2, 8, 5);
  }

  /** Sealing is not all or nothing: a failed seal leaves the registry as it was exactly when
      every peer at `e` has a stale peer at or before it in id order. */
  lemma FailedSealChangesNothingExactly(sha: Hash, budget: U64, peers: Peers, e: U64)
    requires !SealSucceeds(peers, e)
    ensures AfterSeal(sha, budget, peers, e) == peers <==>
      forall p :: p in peers && peers[p].usage.epoch == e ==> !NoneStaleUpTo(peers, e, p)
  {
    var after := AfterSeal(sha, budget, peers, e);
    forall p | p in peers
      ensures after[p] == peers[p] <==> !(peers[p].usage.epoch == e && NoneStaleUpTo(peers, e, p))
    {
      RecordingChanges(sha, budget, p, peers[p]);
    }
    assert after == peers <==> forall p :: p in peers ==> after[p] == peers[p];
  }

  lemma RecordingChanges(sha: Hash, budget: U64, p: U32, s: PeerState)
    ensures Recorded(sha, budget, p, s) != s
  {
    assert |Recorded(sha, budget, p, s).records| == |s.records| + 1;
  }

  /** Such a partial seal is reachable: peer 2 is sealed, peer 1 then joins the same epoch, and
      the second seal fails after having recorded peer 1. */
  lemma SealCanFailPartway(sha: Hash, budget: U64)
    ensures var ops := [Ask(Request(2, 7, 0)), Seal(7), Ask(Request(1, 7, 0))];
      var peers := RunOf(sha, budget, ops);
      && !SealSucceeds(peers, 7)
      && AfterSeal(sha, budget, peers, 7) != peers
  {
    var one, two := [Ask(Request(2, 7, 0))], [Ask(Request(2, 7, 0)), Seal(7)];
    var ops := two + [Ask(Request(1, 7, 0))];
    assert one[..|one| - 1] == [] && two[..|two| - 1] == one && ops[..|ops| - 1] == two;
    assert RunOf(sha, budget, one[..|one| - 1]) == map[];
    assert ops == [Ask(Request(2, 7, 0)), Seal(7), Ask(Request(1, 7, 0))];
    var a, b, c := RunOf(sha, budget, one), RunOf(sha, budget, two), RunOf(sha, budget, ops);
    assert a == AfterRequest(budget, map[], 2, 7, 0);
    assert NoneStaleUpTo(a, 7, 2);
    assert b[2] == Recorded(sha, budget, 2, a[2]);
    assert 1 in c && 2 in c && c[2] == b[2] && Stale(c[2], 7);
    assert c[1].usage.epoch == 7 && c[1].records == [];
    assert NoneStaleUpTo(c, 7, 1);
    FailedSealChangesNothingExactly(sha, budget, c, 7);
  }

  /** Within budget the cap on the percentage never takes effect, and the percentage is the true
      one exactly when a hundred times the allowance fits in 64 bits; it is then 100 exactly when
      the budget is used up. */
  lemma UtilizationExactly(allowed: U64, budget: U64)
    requires allowed <= budget && budget > 0
    ensures Utilization(allowed, budget) == (allowed * 100 % U64_BOUND) / budget
    ensures Utilization(allowed, budget) == allowed * 100 / budget <==> allowed * 100 < U64_BOUND
    ensures allowed * 100 < U64_BOUND ==> (Utilization(allowed, budget) == 100 <==> allowed == budget)
  {
    WrappedPercentage(allowed, budget, U64_BOUND);
  }

  const HALF_RANGE: U64 := 0x8000_0000_0000_0000

  lemma HalfRangeReadsZero()
    ensures Utilization(HALF_RANGE, HALF_RANGE) == 0
  {
  }

  lemma OneRequestRun(sha: Hash, budget: U64, r: Request)
    ensures RunOf(sha, budget, [Ask(r)]) == map[r.peerId := PeerState([], Charged(budget, None, r.epoch, r.bytes))]
  {
    assert [Ask(r)][..0] == [];
    assert RunOf(sha, budget, [Ask(r)][..0]) == map[];
  }

  /** So a used-up budget can be recorded as 0 percent: one request for all of a budget of 2^63
      bytes, then the seal. */
  lemma FullBudgetCanReadZero(sha: Hash)
    ensures var peers := RunOf(sha, HALF_RANGE, [Ask(Request(1, 7, HALF_RANGE)), Seal(7)]);
      && 1 in peers && |peers[1].records| == 1
      && peers[1].records[0].content.allowed == peers[1].records[0].content.budget
      && peers[1].records[0].content.utilizationPct == 0
  {
    var one, two := [Ask(Request(1, 7, HALF_RANGE))], [Ask(Request(1, 7, HALF_RANGE)), Seal(7)];
    assert two[..|two| - 1] == one;
    OneRequestRun(sha, HALF_RANGE, Request(1, 7, HALF_RANGE));
    var a := RunOf(sha, HALF_RANGE, one);
    assert a[1].records == [] && a[1].usage == Usage(7, HALF_RANGE, 0, 0);
    assert NoneStaleUpTo(a, 7, 1);
    assert RunOf(sha, HALF_RANGE, two)[1] == Recorded(sha, HALF_RANGE, 1, a[1]);
    HalfRangeReadsZero();
  }
}
