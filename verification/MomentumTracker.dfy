/** Directional momentum of the joint condition over a sliding window of four observations, in
    the two forms the subsystem has: a shifting vector and a ring buffer. */
module MomentumTracker {
  import opened Wrappers
  import opened Bytes
  import opened Arithmetic
  import opened HashChain
  import opened HealthAggregator

  const MOMENTUM_WINDOW: nat := 4

  /** The distance between the two ends of a full window. */
  const MOMENTUM_SPAN: nat := 3

  datatype Direction = Improving | Stable | Declining
  {
    function AsByte(): Byte {
      match this
      case Improving => 0
      case Stable => 1
      case Declining => 2
    }
  }

  datatype Observed = Observed(epoch: U64, joint: JointCondition)

  datatype MomentumRecord = MomentumRecord(
    epoch: U64, joint: JointCondition, score: Byte, direction: Direction, momentum: int, windowSize: nat)

  function FromDelta(delta: int): Direction {
    if delta < 0 then Improving else if delta == 0 then Stable else Declining
  }

  // ---------------------------------------------------------------- the sliding window

  /** The oldest index inside a window of `size` that ends at `n`. */
  function WindowStart(n: nat, size: nat): nat
    requires size > 0
  {
    if n + 1 < size then 0 else n + 1 - size
  }

  function Scores(os: seq<Observed>): (ss: seq<int>)
    ensures |ss| == |os| && forall i :: 0 <= i < |ss| ==> 0 <= ss[i] <= 3
  {
    seq(|os|, i requires 0 <= i < |os| => os[i].joint.Score())
  }

  /** The change from the oldest to the newest score in the window ending at `n`. */
  function MomentumAt(scores: seq<int>, n: nat): int
    requires n < |scores|
  {
    scores[n] - scores[WindowStart(n, MOMENTUM_WINDOW)]
  }

  /** The record of observation `n`: what both implementations must produce. */
  function RecordAt(os: seq<Observed>, n: nat): MomentumRecord
    requires n < |os|
  {
    var m := MomentumAt(Scores(os), n);
    MomentumRecord(os[n].epoch, os[n].joint, os[n].joint.Score(), FromDelta(m), m,
                   if n + 1 < MOMENTUM_WINDOW then n + 1 else MOMENTUM_WINDOW)
  }

  function MomentumBody(r: MomentumRecord): ByteString {
    Be8(r.epoch) + [r.score, r.direction.AsByte()]
    + SignedBigEndian(r.momentum, 2) + BigEndian(r.windowSize, 2)
  }

  /** The score repeats the joint condition; the two numbers fit their encodings. */
  predicate MomentumFits(r: MomentumRecord) {
    r.score == r.joint.Score() && -0x8000 <= r.momentum < 0x8000 && r.windowSize < 0x1_0000
  }

  /** The encoding determines every field of such a record, the unhashed joint condition
      included. */
  lemma MomentumBodyInjective(r: MomentumRecord, s: MomentumRecord)
    requires MomentumFits(r) && MomentumFits(s) && MomentumBody(r) == MomentumBody(s)
    ensures r == s
  {
    var r1, s1 := Be8(r.epoch) + [r.score, r.direction.AsByte()], Be8(s.epoch) + [s.score, s.direction.AsByte()];
    SplitEqual(r1 + SignedBigEndian(r.momentum, 2), s1 + SignedBigEndian(s.momentum, 2),
               BigEndian(r.windowSize, 2), BigEndian(s.windowSize, 2));
    SplitEqual(r1, s1, SignedBigEndian(r.momentum, 2), SignedBigEndian(s.momentum, 2));
    SplitEqual(Be8(r.epoch), Be8(s.epoch), [r.score, r.direction.AsByte()], [s.score, s.direction.AsByte()]);
    Be8Injective(r.epoch, s.epoch);
    Signed2Injective(r.momentum, s.momentum);
    Be2Injective(r.windowSize, s.windowSize);
    TwoBytes(r.score, r.direction.AsByte(), s.score, s.direction.AsByte());
  }

  /** The records of a history. */
  function RecordsOf(os: seq<Observed>): (rs: seq<MomentumRecord>)
    ensures |rs| == |os|
  {
    seq(|os|, i requires 0 <= i < |os| => RecordAt(os, i))
  }

  /** One observation more adds one record to the chain. */
  lemma RecordsGrow(sha: Hash, os: seq<Observed>, o: Observed)
    ensures var chain := ChainOf(sha, MomentumBody, RecordsOf(os));
      ChainOf(sha, MomentumBody, RecordsOf(os + [o]))
      == chain + [Next(sha, MomentumBody, chain, RecordAt(os + [o], |os|))]
  {
    forall i | 0 <= i < |os|
      ensures RecordAt(os + [o], i) == RecordAt(os, i)
    {
      assert Scores(os + [o])[i] == Scores(os)[i];
    }
    assert RecordsOf(os + [o]) == RecordsOf(os) + [RecordAt(os + [o], |os|)];
    ChainGrows(sha, MomentumBody, RecordsOf(os), RecordAt(os + [o], |os|));
  }

  lemma ScoresGrow(os: seq<Observed>, o: Observed)
    ensures Scores(os + [o]) == Scores(os) + [o.joint.Score()]
  {
  }

  /** The record of the newest observation, from the two ends of its window. */
  lemma RecordFromEnds(os: seq<Observed>, n: nat, earliest: int, latest: int)
    requires n < |os| && latest == Scores(os)[n] && earliest == Scores(os)[WindowStart(n, MOMENTUM_WINDOW)]
    ensures RecordAt(os, n)
         == MomentumRecord(os[n].epoch, os[n].joint, os[n].joint.Score(), FromDelta(latest - earliest),
                           latest - earliest, if n + 1 < MOMENTUM_WINDOW then n + 1 else MOMENTUM_WINDOW)
  {
  }

  // ---------------------------------------------------------------- the shifting vector

  /** The vector holds the scores of the last observations, at most four of them. */
  ghost predicate WindowHolds(window: seq<int>, os: seq<Observed>) {
    && |window| == (if |os| < MOMENTUM_WINDOW then |os| else MOMENTUM_WINDOW)
    && forall i :: 0 <= i < |window| ==> window[i] == Scores(os)[|os| - |window| + i]
  }

  lemma WindowShifts(window: seq<int>, os: seq<Observed>, o: Observed)
    requires WindowHolds(window, os)
    ensures var w := (if |window| == MOMENTUM_WINDOW then window[1..] else window) + [o.joint.Score()];
      var momentum := w[|w| - 1] - w[0];
      && WindowHolds(w, os + [o])
      && RecordAt(os + [o], |os|)
         == MomentumRecord(o.epoch, o.joint, o.joint.Score(), FromDelta(momentum), momentum, |w|)
  {
    ScoresGrow(os, o);
    var w := (if |window| == MOMENTUM_WINDOW then window[1..] else window) + [o.joint.Score()];
    RecordFromEnds(os + [o], |os|, w[0], w[|w| - 1]);
  }

  class CompactionMomentumLog {
    const sha: Hash
    var records: seq<Chained<MomentumRecord>>
    var window: seq<int>
    ghost var observed: seq<Observed>

    ghost predicate Valid()
      reads this
    {
      && records == ChainOf(sha, MomentumBody, RecordsOf(observed))
      && WindowHolds(window, observed)
    }

    constructor (sha: Hash)
      ensures this.sha == sha && Valid() && observed == [] && records == []
    {
      this.sha := sha;
      records := [];
      window := [];
      observed := [];
    }

    method Append(epoch: U64, joint: JointCondition) returns (r: Chained<MomentumRecord>)
      requires Valid()
      modifies this
      ensures Valid()
      ensures observed == old(observed) + [Observed(epoch, joint)] && records == old(records) + [r]
      ensures r.content == RecordAt(observed, |observed| - 1)
    {
      var o := Observed(epoch, joint);
      RecordsGrow(sha, observed, o);
      var momentum := Shift(o);
      var content := MomentumRecord(epoch, joint, joint.Score(), FromDelta(momentum), momentum, |window|);
      r := Next(sha, MomentumBody, records, content);
      records := records + [r];
      observed := observed + [o];
    }

    /** Drops the oldest score of a full window, adds the newest and compares the two ends. */
    method Shift(o: Observed) returns (momentum: int)
      requires WindowHolds(window, observed)
      modifies this`window
      ensures WindowHolds(window, observed + [o])
      ensures RecordAt(observed + [o], |observed|)
           == MomentumRecord(o.epoch, o.joint, o.joint.Score(), FromDelta(momentum), momentum, |window|)
    {
      WindowShifts(window, observed, o);
      if |window| == MOMENTUM_WINDOW {
        window := window[1..];
      }
      window := window + [o.joint.Score()];
      momentum := window[|window| - 1] - window[0];
    }

    method VerifyChain() returns (valid: bool, broken: Option<nat>)
      ensures valid <==> LogHolds(sha, MomentumBody, records)
      ensures valid ==> broken == None
      ensures !valid ==> broken.Some? && FirstBroken(sha, Genesis(), LinksOf(MomentumBody, records), broken.value)
    {
      valid, broken := VerifyLog(sha, MomentumBody, records);
    }
  }

  // ---------------------------------------------------------------- the ring buffer

  /** Slots of a four-place ring hold the scores with indices `lo` to `hi - 1`. */
  ghost predicate RingHolds(slots: seq<int>, scores: seq<int>, lo: nat, hi: nat) {
    && |slots| == MOMENTUM_WINDOW && lo <= hi <= |scores|
    && forall i :: lo <= i < hi ==> slots[i % MOMENTUM_WINDOW] == scores[i]
  }

  /** Indices less than a whole turn apart have different slots. */
  lemma OtherSlot(i: nat, n: nat)
    requires i < n < i + MOMENTUM_WINDOW
    ensures i % MOMENTUM_WINDOW != n % MOMENTUM_WINDOW
  {
  }

  lemma RingWrite(slots: seq<int>, scores: seq<int>, lo: nat, v: int)
    requires RingHolds(slots, scores, lo, |scores|)
    ensures RingHolds(slots[|scores| % MOMENTUM_WINDOW := v], scores + [v],
                      if |scores| - lo < MOMENTUM_WINDOW then lo else |scores| + 1 - MOMENTUM_WINDOW, |scores| + 1)
  {
    var n := |scores|;
    forall i | lo <= i < n && n + 1 - MOMENTUM_WINDOW <= i
      ensures i % MOMENTUM_WINDOW != n % MOMENTUM_WINDOW
    {
      OtherSlot(i, n);
    }
  }

  /** Where the ring keeps its newest and its oldest score. */
  lemma RingEnds(slots: seq<int>, scores: seq<int>, lo: nat, hi: nat)
    requires RingHolds(slots, scores, lo, hi) && lo < hi
    ensures slots[(hi - 1) % MOMENTUM_WINDOW] == scores[hi - 1]
    ensures lo == 0 ==> slots[0] == scores[0]
    ensures hi - lo == MOMENTUM_WINDOW ==> slots[hi % MOMENTUM_WINDOW] == scores[lo]
  {
    if lo == 0 {
      assert slots[0 % MOMENTUM_WINDOW] == scores[0];
    }
    if hi - lo == MOMENTUM_WINDOW {
      assert lo % MOMENTUM_WINDOW == hi % MOMENTUM_WINDOW;
    }
  }

  /** The ring with its head and length after a history. */
  ghost predicate RingTracks(slots: seq<int>, wLen: nat, wHead: nat, os: seq<Observed>) {
    && wHead == |os| && wLen == (if |os| < MOMENTUM_WINDOW then |os| else MOMENTUM_WINDOW)
    && RingHolds(slots, Scores(os), wHead - wLen, wHead)
  }

  /** The oldest and the newest score, read as the source reads them. */
  function Ends(slots: seq<int>, wLen: nat, wHead: nat): (int, int)
    requires |slots| == MOMENTUM_WINDOW && wHead > 0
  {
    (slots[if wLen < MOMENTUM_WINDOW then 0 else wHead % MOMENTUM_WINDOW], slots[(wHead - 1) % MOMENTUM_WINDOW])
  }

  lemma RingTurns(slots: seq<int>, wLen: nat, wHead: nat, os: seq<Observed>, o: Observed)
    requires RingTracks(slots, wLen, wHead, os)
    ensures var slots', wLen' := slots[wHead % MOMENTUM_WINDOW := o.joint.Score()],
                                 if wLen < MOMENTUM_WINDOW then wLen + 1 else wLen;
      var ends := Ends(slots', wLen', wHead + 1);
      && RingTracks(slots', wLen', wHead + 1, os + [o])
      && (wLen' == 1 ==> ends == (o.joint.Score() as int, o.joint.Score() as int))
      && RecordAt(os + [o], |os|)
         == MomentumRecord(o.epoch, o.joint, o.joint.Score(), FromDelta(ends.1 - ends.0), ends.1 - ends.0, wLen')
  {
    ScoresGrow(os, o);
    RingWrite(slots, Scores(os), wHead - wLen, o.joint.Score());
    var slots', wLen' := slots[wHead % MOMENTUM_WINDOW := o.joint.Score()],
                         if wLen < MOMENTUM_WINDOW then wLen + 1 else wLen;
    RingEnds(slots', Scores(os + [o]), wHead + 1 - wLen', wHead + 1);
    var ends := Ends(slots', wLen', wHead + 1);
    RecordFromEnds(os + [o], |os|, ends.0, ends.1);
  }

  class GossipMomentumLog {
    const sha: Hash
    var records: seq<Chained<MomentumRecord>>
    const window: array<int>
    var wLen: nat
    var wHead: nat
    ghost var observed: seq<Observed>

    ghost predicate Valid()
      reads this, window
    {
      && records == ChainOf(sha, MomentumBody, RecordsOf(observed))
      && window.Length == MOMENTUM_WINDOW
      && RingTracks(window[..], wLen, wHead, observed)
    }

    constructor (sha: Hash)
      ensures this.sha == sha && Valid() && observed == [] && records == [] && fresh(window)
    {
      this.sha := sha;
      records := [];
      window := new int[MOMENTUM_WINDOW](_ => 0);
      wLen := 0;
      wHead := 0;
      observed := [];
    }

    method Append(epoch: U64, joint: JointCondition) returns (r: Chained<MomentumRecord>)
      requires Valid()
      modifies this, window
      ensures Valid()
      ensures observed == old(observed) + [Observed(epoch, joint)] && records == old(records) + [r]
      ensures r.content == RecordAt(observed, |observed| - 1)
    {
      var o := Observed(epoch, joint);
      var earliest, latest := Turn(o);
      var momentum := latest - earliest;
      r := Chain(o, MomentumRecord(epoch, joint, joint.Score(), FromDelta(momentum), momentum, wLen));
      observed := observed + [o];
    }

    /** Appends the record of the next observation to the chain. */
    method Chain(o: Observed, content: MomentumRecord) returns (r: Chained<MomentumRecord>)
      requires records == ChainOf(sha, MomentumBody, RecordsOf(observed))
      requires content == RecordAt(observed + [o], |observed|)
      modifies this`records
      ensures records == ChainOf(sha, MomentumBody, RecordsOf(observed + [o])) == old(records) + [r]
      ensures r.content == content
    {
      RecordsGrow(sha, observed, o);
      r := Next(sha, MomentumBody, records, content);
      records := records + [r];
    }

    /** Overwrites the oldest slot and reads the two ends of the window. */
    method Turn(o: Observed) returns (earliest: int, latest: int)
      requires window.Length == MOMENTUM_WINDOW && RingTracks(window[..], wLen, wHead, observed)
      modifies this`wLen, this`wHead, window
      ensures RingTracks(window[..], wLen, wHead, observed + [o])
      ensures RecordAt(observed + [o], |observed|)
           == MomentumRecord(o.epoch, o.joint, o.joint.Score(), FromDelta(latest - earliest), latest - earliest, wLen)
    {
      var score := o.joint.Score();
      RingTurns(window[..], wLen, wHead, observed, o);
      ghost var turned := window[..][wHead % MOMENTUM_WINDOW := score];
      var slot := wHead % MOMENTUM_WINDOW;
      window[slot] := score;
      assert window[..] == turned;
      wHead := wHead + 1;
      if wLen < MOMENTUM_WINDOW {
        wLen := wLen + 1;
      }
      earliest, latest := score, score;
      if wLen != 1 {
        var oldestSlot := if wLen < MOMENTUM_WINDOW then 0 else wHead % MOMENTUM_WINDOW;
        var newestSlot := (wHead - 1) % MOMENTUM_WINDOW;
        earliest, latest := window[oldestSlot], window[newestSlot];
      }
      assert (earliest, latest) == Ends(turned, wLen, wHead);
    }

    method VerifyChain() returns (valid: bool, broken: Option<nat>)
      ensures valid <==> LogHolds(sha, MomentumBody, records)
      ensures valid ==> broken == None
      ensures !valid ==> broken.Some? && FirstBroken(sha, Genesis(), LinksOf(MomentumBody, records), broken.value)
    {
      valid, broken := VerifyLog(sha, MomentumBody, records);
    }
  }

  /** The ring buffer and the shifting vector agree on every history, hashes included. */
  lemma BothWindowsAgree(a: CompactionMomentumLog, b: GossipMomentumLog)
    requires a.Valid() && b.Valid() && a.sha == b.sha && a.observed == b.observed
    ensures a.records == b.records
  {
  }

  // ---------------------------------------------------------------- how long a trend can last

  /** Observation `i` is worse than the one at the start of its window of `span` + 1. */
  predicate Worsens(scores: seq<int>, span: nat, i: nat)
    requires i < |scores|
  {
    scores[i] > scores[WindowStart(i, span + 1)]
  }

  lemma {:induction false} RunForcesScore(scores: seq<int>, span: nat, first: nat, i: nat, j: nat)
    requires span > 0 && first + j * span <= i < |scores|
    requires forall k :: 0 <= k < |scores| ==> scores[k] >= 0
    requires forall k :: first <= k <= i ==> Worsens(scores, span, k)
    ensures scores[i] > j
    decreases j
  {
    assert Worsens(scores, span, i);
    if j > 0 {
      assert (j - 1) * span == j * span - span;
      RunForcesScore(scores, span, first, i - span, j - 1);
    }
  }

  /** With scores up to `top`, an unbroken run of worsening observations has at most
      `top * span` members, wherever it starts. */
  lemma WorseningRunIsBounded(scores: seq<int>, span: nat, top: nat, first: nat, length: nat)
    requires span > 0 && first + length <= |scores|
    requires forall i :: 0 <= i < |scores| ==> 0 <= scores[i] <= top
    requires forall i :: first <= i < first + length ==> Worsens(scores, span, i)
    ensures length <= top * span
  {
    if length > top * span {
      RunForcesScore(scores, span, first, first + top * span, top);
    }
  }

  function Stair(span: nat, i: nat): nat
    requires span > 0
  {
    if i == 0 then 0 else (i - 1) / span + 1
  }

  /** A staircase that attains the bound: one step up every `span` observations. */
  function Staircase(span: nat, top: nat): (ss: seq<int>)
    requires span > 0
    ensures |ss| == top * span + 1
  {
    seq(top * span + 1, i requires 0 <= i => Stair(span, i))
  }

  lemma StaircaseAttainsBound(span: nat, top: nat)
    requires span > 0
    ensures forall i :: 0 <= i < |Staircase(span, top)| ==> 0 <= Staircase(span, top)[i] <= top
    ensures forall i :: 1 <= i <= top * span ==> Worsens(Staircase(span, top), span, i)
  {
    var ss := Staircase(span, top);
    forall i | 1 <= i < |ss|
      ensures Stair(span, i) <= top && Stair(span, i) > Stair(span, WindowStart(i, span + 1))
    {
      StepOfStairs(i - 1, span, top);
    }
  }

  lemma StepOfStairs(x: nat, span: nat, top: nat)
    requires span > 0 && x < top * span
    ensures x / span + 1 <= top
    ensures x >= span ==> (x - span) / span == x / span - 1
  {
    Quotient(x, span, top);
    Quotient(x, span, 1);
    QuotientBounds(x, span);
    var q := x / span;
    assert (q - 1) * span == q * span - span && (q + 1) * span == q * span + span;
    if x >= span {
      QuotientExactly(x - span, span, q - 1);
    }
  }

  /** Momentum declines exactly when the observation is worse than its window's start. */
  lemma DeclinesWhenWorse(os: seq<Observed>, n: nat)
    requires n < |os|
    ensures RecordAt(os, n).direction == Declining <==> Worsens(Scores(os), MOMENTUM_SPAN, n)
  {
  }
}
