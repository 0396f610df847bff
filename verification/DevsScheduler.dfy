/** The discrete-event scheduler that moves inference between local and cloud modes. */
module DevsScheduler {
  import opened Bytes

  datatype Mode = LocalInference | Degraded | CloudVerify | Rollback

  datatype Reason =
    BudgetOrPersistentHd | LyapunovOrHd | StabilityRestored | PersistentDegradation | CloudVerifiedStable

  datatype Transition = Transition(from: Mode, to: Mode, reason: Reason, step: nat)

  datatype Signals = Signals(lyapunovStable: bool, hdRollback: bool, cloudVerified: bool, budgetExhausted: bool)

  datatype Scheduler = Scheduler(mode: Mode, step: nat, streak: U32, transitions: seq<Transition>)

  const START: Scheduler := Scheduler(LocalInference, 0, 0, [])

  /** The longest streak a scheduler with this threshold can show. */
  function StreakLimit(threshold: U32): (n: U32)
    ensures n >= 2
  {
    if threshold < 2 then 2 else threshold
  }

  /** Moving to the current mode is not a transition. */
  function MovedTo(s: Scheduler, to: Mode, reason: Reason): Scheduler {
    if s.mode == to then s
    else s.(mode := to, transitions := s.transitions + [Transition(s.mode, to, reason, s.step)])
  }

  /** What the streak says about the mode in every run. */
  predicate StreakFits(threshold: U32, s: Scheduler) {
    && (s.mode == LocalInference ==> s.streak == 0)
    && (s.mode == Degraded ==> 1 <= s.streak < StreakLimit(threshold))
    && (s.mode == CloudVerify ==> s.streak == StreakLimit(threshold))
    && s.streak <= StreakLimit(threshold)
  }

  /** The log is a path of the code's edges to the current mode, none of them in the future. */
  predicate Orderly(s: Scheduler) {
    && Connected(s.transitions, s.mode)
    && forall i :: 0 <= i < |s.transitions| ==> CodeEdge(s.transitions[i]) && s.transitions[i].step <= s.step
  }

  /** What holds of the scheduler in every run. */
  predicate Invariant(threshold: U32, s: Scheduler) {
    StreakFits(threshold, s) && Orderly(s)
  }

  /** The edges the code can take. */
  predicate CodeEdge(t: Transition) {
    match (t.from, t.to)
    case (LocalInference, Degraded) => t.reason == LyapunovOrHd
    case (Degraded, CloudVerify) => t.reason == PersistentDegradation
    case (Degraded, LocalInference) => t.reason == StabilityRestored
    case (CloudVerify, LocalInference) => t.reason == CloudVerifiedStable
    case (LocalInference, Rollback) => t.reason == BudgetOrPersistentHd
    case (Degraded, Rollback) => t.reason == BudgetOrPersistentHd
    case (CloudVerify, Rollback) => t.reason == BudgetOrPersistentHd
    case _ => false
  }

  /** The edges the module's own description lists. */
  predicate DocumentedEdge(t: Transition) {
    || (t.from == LocalInference && t.to == Degraded)
    || (t.from == Degraded && t.to == CloudVerify)
    || (t.from == CloudVerify && t.to == LocalInference)
    || t.to == Rollback
  }

  /** The log is a path from local inference to the current mode, with strictly increasing
      steps. */
  predicate Connected(ts: seq<Transition>, mode: Mode) {
    && (if ts == [] then mode == LocalInference
        else ts[0].from == LocalInference && ts[|ts| - 1].to == mode)
    && (forall i :: 0 <= i < |ts| - 1 ==> ts[i].to == ts[i + 1].from)
    && (forall i, j :: 0 <= i < j < |ts| ==> ts[i].step < ts[j].step)
  }

  /** One tick, requiring of the streak what every run provides, so that the 32-bit addition
      cannot overflow. */
  function Tick(threshold: U32, s: Scheduler, g: Signals): (s': Scheduler)
    requires StreakFits(threshold, s)
    ensures StreakFits(threshold, s')
  {
    var t := s.(step := s.step + 1);
    if g.budgetExhausted || (g.hdRollback && s.mode == CloudVerify) then MovedTo(t, Rollback, BudgetOrPersistentHd)
    else match s.mode
      case LocalInference =>
        if !g.lyapunovStable || g.hdRollback then MovedTo(t.(streak := t.streak + 1), Degraded, LyapunovOrHd)
        else t.(streak := 0)
      case Degraded =>
        if g.lyapunovStable && !g.hdRollback then MovedTo(t.(streak := 0), LocalInference, StabilityRestored)
        else if t.streak + 1 >= threshold then MovedTo(t.(streak := t.streak + 1), CloudVerify, PersistentDegradation)
        else t.(streak := t.streak + 1)
      case CloudVerify =>
        if g.cloudVerified then MovedTo(t.(streak := 0), LocalInference, CloudVerifiedStable) else t
      case Rollback => t
  }

  /** Rollback is described as following from any mode on an exhausted budget or a call for it.
      The code meets that except when rollback is called for outside cloud verification and the
      budget lasts. */
  lemma RollbackAsDescribed(threshold: U32, s: Scheduler, g: Signals)
    requires StreakFits(threshold, s) && s.mode != Rollback
    ensures (Tick(threshold, s, g).mode == Rollback <==> g.budgetExhausted || g.hdRollback)
            <==> !(g.hdRollback && s.mode != CloudVerify && !g.budgetExhausted)
  {
  }

  /** Moving, or staying, on the next step keeps the log orderly. */
  lemma MoveKeepsOrder(s: Scheduler, streak: U32, to: Mode, reason: Reason)
    requires Orderly(s) && (s.mode != to ==> CodeEdge(Transition(s.mode, to, reason, s.step + 1)))
    ensures Orderly(MovedTo(s.(step := s.step + 1, streak := streak), to, reason))
  {
  }

  /** Every tick keeps the invariant, and rollback is never left. */
  lemma TickKeepsInvariant(threshold: U32, s: Scheduler, g: Signals)
    requires Invariant(threshold, s)
    ensures Invariant(threshold, Tick(threshold, s, g))
    ensures s.mode == Rollback ==> Tick(threshold, s, g) == s.(step := s.step + 1)
  {
    var s' := Tick(threshold, s, g);
    if s.mode == s'.mode {
      MoveKeepsOrder(s, s'.streak, s.mode, BudgetOrPersistentHd);
    } else {
      MoveKeepsOrder(s, s'.streak, s'.mode, s'.transitions[|s.transitions|].reason);
    }
  }

  class DEVSScheduler {
    var state: Mode
    var step: nat
    var degradedStreak: U32
    const degradedThreshold: U32
    var transitions: seq<Transition>

    function Snapshot(): Scheduler
      reads this
    {
      Scheduler(state, step, degradedStreak, transitions)
    }

    constructor (threshold: U32)
      ensures degradedThreshold == threshold && Snapshot() == START && Invariant(threshold, Snapshot())
    {
      state := LocalInference;
      step := 0;
      degradedStreak := 0;
      degradedThreshold := threshold;
      transitions := [];
    }

    method MoveTo(to: Mode, reason: Reason)
      modifies this
      ensures Snapshot() == MovedTo(old(Snapshot()), to, reason)
    {
      if state != to {
        transitions := transitions + [Transition(state, to, reason, step)];
        state := to;
      }
    }

    method TickOnce(g: Signals)
      requires Invariant(degradedThreshold, Snapshot())
      modifies this
      ensures Snapshot() == Tick(degradedThreshold, old(Snapshot()), g)
      ensures Invariant(degradedThreshold, Snapshot())
    {
      TickKeepsInvariant(degradedThreshold, Snapshot(), g);
      step := step + 1;
      if g.budgetExhausted || (g.hdRollback && state == CloudVerify) {
        MoveTo(Rollback, BudgetOrPersistentHd);
        return;
      }
      match state {
        case LocalInference =>
          if !g.lyapunovStable || g.hdRollback {
            degradedStreak := degradedStreak + 1;
            MoveTo(Degraded, LyapunovOrHd);
          } else {
            degradedStreak := 0;
          }
        case Degraded =>
          if g.lyapunovStable && !g.hdRollback {
            degradedStreak := 0;
            MoveTo(LocalInference, StabilityRestored);
          } else {
            degradedStreak := degradedStreak + 1;
            if degradedStreak >= degradedThreshold {
              MoveTo(CloudVerify, PersistentDegradation);
            }
          }
        case CloudVerify =>
          if g.cloudVerified {
            degradedStreak := 0;
            MoveTo(LocalInference, CloudVerifiedStable);
          }
        case Rollback =>
      }
    }
  }

  // ---------------------------------------------------------------- runs

  /** The scheduler after a sequence of signals. */
  function RunOf(threshold: U32, gs: seq<Signals>): (s: Scheduler)
    ensures StreakFits(threshold, s)
  {
    if gs == [] then START else Tick(threshold, RunOf(threshold, gs[..|gs| - 1]), gs[|gs| - 1])
  }

  /** Every run keeps the whole invariant. */
  lemma {:induction false} EveryRunKeepsInvariant(threshold: U32, gs: seq<Signals>)
    ensures Invariant(threshold, RunOf(threshold, gs))
  {
    if gs != [] {
      EveryRunKeepsInvariant(threshold, gs[..|gs| - 1]);
      TickKeepsInvariant(threshold, RunOf(threshold, gs[..|gs| - 1]), gs[|gs| - 1]);
    }
  }

  /** The step counter counts ticks, so the recorded steps are tick numbers of the run. */
  lemma {:induction false} StepCountsTicks(threshold: U32, gs: seq<Signals>)
    ensures RunOf(threshold, gs).step == |gs|
  {
    if gs != [] {
      StepCountsTicks(threshold, gs[..|gs| - 1]);
    }
  }

  /** Tick `i` of a run calls for a rollback. */
  predicate RollsBackAt(threshold: U32, gs: seq<Signals>, i: nat)
    requires i < |gs|
  {
    gs[i].budgetExhausted || (gs[i].hdRollback && RunOf(threshold, gs[..i]).mode == CloudVerify)
  }

  lemma LastTickRollsBack(threshold: U32, gs: seq<Signals>)
    requires gs != []
    ensures RunOf(threshold, gs).mode == Rollback <==>
      RunOf(threshold, gs[..|gs| - 1]).mode == Rollback || RollsBackAt(threshold, gs, |gs| - 1)
  {
  }

  /** A scheduler is in rollback exactly when some tick so far exhausted the budget or asked for
      a rollback during cloud verification; once there, it stays for ever. */
  lemma {:induction false} RollbackExactly(threshold: U32, gs: seq<Signals>)
    ensures RunOf(threshold, gs).mode == Rollback <==> exists i :: 0 <= i < |gs| && RollsBackAt(threshold, gs, i)
  {
    if gs != [] {
      var n := |gs| - 1;
      var front := gs[..n];
      RollbackExactly(threshold, front);
      LastTickRollsBack(threshold, gs);
      forall i | 0 <= i < n
        ensures RollsBackAt(threshold, gs, i) <==> RollsBackAt(threshold, front, i)
      {
        assert front[..i] == gs[..i];
      }
      if i :| 0 <= i < n && RollsBackAt(threshold, front, i) {
        assert RollsBackAt(threshold, gs, i);
      }
    }
  }

  /** A first tick that calls for a rollback only degrades, whatever the threshold. */
  lemma CallCanGoUnheeded(threshold: U32)
    ensures RunOf(threshold, [Signals(true, true, false, false)]).mode == Degraded
  {
    assert [Signals(true, true, false, false)][..0] == [];
    assert RunOf(threshold, []) == START;
  }

  predicate Troubled(g: Signals) {
    (!g.lyapunovStable || g.hdRollback) && !g.budgetExhausted
  }

  /** Verification in the cloud starts exactly after `StreakLimit` troubled ticks in a row:
      from local inference, any number of consecutive troubled ticks up to the limit leads to
      a streak of that length, and the last one escalates. */
  lemma {:induction false} TroubleEscalates(threshold: U32, gs: seq<Signals>, n: nat)
    requires n <= |gs| && 1 <= |gs| - n <= StreakLimit(threshold)
    requires RunOf(threshold, gs[..n]).mode == LocalInference
    requires forall i :: n <= i < |gs| ==> Troubled(gs[i])
    ensures RunOf(threshold, gs).streak == |gs| - n
    ensures RunOf(threshold, gs).mode == (if |gs| - n == StreakLimit(threshold) then CloudVerify else Degraded)
    decreases |gs|
  {
    var front := gs[..|gs| - 1];
    if |gs| - n > 1 {
      assert front[..n] == gs[..n];
      TroubleEscalates(threshold, front, n);
    } else {
      assert front == gs[..n];
    }
  }

  /** The last `n` ticks of a run were troubled and started from local inference. */
  predicate TroubledFor(threshold: U32, gs: seq<Signals>, n: nat)
  {
    && n <= |gs| && RunOf(threshold, gs[..|gs| - n]).mode == LocalInference
    && forall i :: |gs| - n <= i < |gs| ==> Troubled(gs[i])
  }

  lemma TroubledForLonger(threshold: U32, gs: seq<Signals>, n: nat)
    requires gs != [] && TroubledFor(threshold, gs[..|gs| - 1], n) && Troubled(gs[|gs| - 1])
    ensures TroubledFor(threshold, gs, n + 1)
  {
    assert gs[..|gs| - 1][..|gs| - 1 - n] == gs[..|gs| - 1 - n];
    assert forall i :: 0 <= i < |gs| - 1 ==> gs[..|gs| - 1][i] == gs[i];
  }

  /** The streak of a degraded scheduler is the history it claims to be. */
  lemma {:induction false} DegradedAfterTrouble(threshold: U32, gs: seq<Signals>)
    requires RunOf(threshold, gs).mode == Degraded
    ensures TroubledFor(threshold, gs, RunOf(threshold, gs).streak)
  {
    var front := gs[..|gs| - 1];
    if RunOf(threshold, front).mode == Degraded {
      DegradedAfterTrouble(threshold, front);
      TroubledForLonger(threshold, gs, RunOf(threshold, front).streak);
    } else {
      assert front[..|front|] == front;
      TroubledForLonger(threshold, gs, 0);
    }
  }

  /** The one tick that enters cloud verification. */
  lemma EnteringTick(threshold: U32, s: Scheduler, g: Signals)
    requires StreakFits(threshold, s) && Tick(threshold, s, g).mode == CloudVerify && s.mode != CloudVerify
    ensures s.mode == Degraded && Troubled(g) && s.streak + 1 == StreakLimit(threshold)
  {
  }

  lemma TroubleBeforeEntry(threshold: U32, gs: seq<Signals>, front: seq<Signals>)
    requires gs != [] && front == gs[..|gs| - 1]
    ensures RunOf(threshold, gs).mode == CloudVerify && RunOf(threshold, front).mode != CloudVerify ==>
            TroubledFor(threshold, gs, StreakLimit(threshold))
  {
    var before, last := RunOf(threshold, front), gs[|gs| - 1];
    assert RunOf(threshold, gs) == Tick(threshold, before, last);
    if before.mode == Degraded && Tick(threshold, before, last).mode == CloudVerify {
      EnteringTick(threshold, before, last);
      DegradedAfterTrouble(threshold, front);
      TroubledForLonger(threshold, gs, before.streak);
    }
  }

  lemma TroubleEnters(threshold: U32, gs: seq<Signals>)
    requires gs != [] && TroubledFor(threshold, gs, StreakLimit(threshold))
    ensures RunOf(threshold, gs).mode == CloudVerify && RunOf(threshold, gs[..|gs| - 1]).mode == Degraded
  {
    var front, n := gs[..|gs| - 1], |gs| - StreakLimit(threshold);
    TroubleEscalates(threshold, gs, n);
    assert front[..n] == gs[..n];
    assert forall i :: n <= i < |front| ==> front[i] == gs[i];
    TroubleEscalates(threshold, front, n);
  }

  /** Cloud verification is entered at the end of exactly `StreakLimit` troubled ticks that
      started from local inference, and in no other way. */
  lemma CloudVerifyEnteredExactly(threshold: U32, gs: seq<Signals>)
    requires gs != []
    ensures RunOf(threshold, gs).mode == CloudVerify && RunOf(threshold, gs[..|gs| - 1]).mode != CloudVerify <==>
            TroubledFor(threshold, gs, StreakLimit(threshold))
  {
    if TroubledFor(threshold, gs, StreakLimit(threshold)) {
      TroubleEnters(threshold, gs);
    } else {
      TroubleBeforeEntry(threshold, gs, gs[..|gs| - 1]);
    }
  }

  /** A tick on which a degraded scheduler recovers. */
  predicate RecoversAt(threshold: U32, gs: seq<Signals>, i: nat)
    requires i < |gs|
  {
    && RunOf(threshold, gs[..i]).mode == Degraded
    && gs[i].lyapunovStable && !gs[i].hdRollback && !gs[i].budgetExhausted
  }

  predicate AllDocumented(ts: seq<Transition>) {
    forall k :: 0 <= k < |ts| ==> DocumentedEdge(ts[k])
  }

  lemma DocumentedGrows(ts: seq<Transition>, t: Transition)
    ensures AllDocumented(ts + [t]) <==> AllDocumented(ts) && DocumentedEdge(t)
  {
    var all := ts + [t];
    assert all[|ts|] == t;
    assert forall k :: 0 <= k < |ts| ==> all[k] == ts[k];
  }

  lemma TickDocumented(threshold: U32, s: Scheduler, g: Signals)
    requires StreakFits(threshold, s)
    ensures AllDocumented(Tick(threshold, s, g).transitions) <==>
      AllDocumented(s.transitions)
      && !(s.mode == Degraded && g.lyapunovStable && !g.hdRollback && !g.budgetExhausted)
  {
    var before, after := s.transitions, Tick(threshold, s, g).transitions;
    if after != before {
      var t := after[|before|];
      assert after == before + [t];
      DocumentedGrows(before, t);
    }
  }

  lemma LastTickDocumented(threshold: U32, gs: seq<Signals>)
    requires gs != []
    ensures var n := |gs| - 1;
      AllDocumented(RunOf(threshold, gs).transitions) <==>
      AllDocumented(RunOf(threshold, gs[..n]).transitions) && !RecoversAt(threshold, gs, n)
  {
    TickDocumented(threshold, RunOf(threshold, gs[..|gs| - 1]), gs[|gs| - 1]);
  }

  /** No tick of the run is a recovery. */
  predicate NeverRecovers(threshold: U32, gs: seq<Signals>) {
    forall i :: 0 <= i < |gs| ==> !RecoversAt(threshold, gs, i)
  }

  lemma NeverRecoversGrows(threshold: U32, gs: seq<Signals>)
    requires gs != []
    ensures NeverRecovers(threshold, gs) <==>
      NeverRecovers(threshold, gs[..|gs| - 1]) && !RecoversAt(threshold, gs, |gs| - 1)
  {
    var front := gs[..|gs| - 1];
    forall i | 0 <= i < |front|
      ensures RecoversAt(threshold, gs, i) <==> RecoversAt(threshold, front, i)
    {
      assert front[..i] == gs[..i] && front[i] == gs[i];
    }
  }

  /** The description omits one edge of the code, the recovery of a degraded scheduler: a run
      stays within the documented edges exactly when no tick of it is a recovery. */
  lemma {:induction false} DocumentedEdgesExactly(threshold: U32, gs: seq<Signals>)
    ensures AllDocumented(RunOf(threshold, gs).transitions) <==> NeverRecovers(threshold, gs)
  {
    if gs != [] {
      DocumentedEdgesExactly(threshold, gs[..|gs| - 1]);
      LastTickDocumented(threshold, gs);
      NeverRecoversGrows(threshold, gs);
    }
  }

  /** Such a run exists for every threshold: one troubled tick, then a quiet one. */
  lemma RecoveryHappens(threshold: U32)
    ensures var gs := [Signals(false, false, false, false), Signals(true, false, false, false)];
      RecoversAt(threshold, gs, 1) && RunOf(threshold, gs).mode == LocalInference
  {
    var first := [Signals(false, false, false, false)];
    var gs := first + [Signals(true, false, false, false)];
    assert first[..0] == [] && gs[..1] == first;
    assert RunOf(threshold, first).mode == Degraded;
  }
}
