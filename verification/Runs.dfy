/** The history over whole runs of an instance: it refines a bounded FIFO log, and it protects
    against replays (tx.go, svm.go). */
module Runs {
  import opened Types
  import opened Messages
  import opened ComputeBudgets
  import opened Engine
  import opened Programs
  import opened Lookups
  import opened Histories
  import opened Pipeline
  import opened Steps

  /** Replay's report for a step that is an admitted send. */
  function Report(lib: Library, s: State, step: Step): Option<ReplayOutput> {
    if step.Send? && Admit(lib, s, step.tx).Ok?
    then Some(step.replay(ViewFor(s, step.tx, Admit(lib, s, step.tx).value, false)))
    else None
  }

  /** A step is an included send of a signed transaction. */
  predicate Includes(lib: Library, s: State, step: Step) {
    Report(lib, s, step).Some? && Included(Report(lib, s, step).value) && step.tx.signatures != []
  }

  /** What a step does to the history. */
  function EffectOf(lib: Library, s: State, step: Step): Effect {
    if Includes(lib, s, step) then
      Inclusion(step.tx.signatures[0], Execute(lib, step.replay, s, step.tx, false).outcome)
    else if step.PutCapacity? then Resize(step.capacity)
    else NoEffect
  }

  predicate EffectIs(lib: Library, states: seq<State>, steps: seq<Step>, es: seq<Effect>, i: nat)
    requires i < |steps| == |es| && |states| == |steps| + 1
  {
    es[i] == EffectOf(lib, states[i], steps[i])
  }

  /** `es` are the effects of a run's steps on the history, in order. */
  ghost predicate Effects(lib: Library, states: seq<State>, steps: seq<Step>, es: seq<Effect>)
    requires |states| == |steps| + 1
  {
    |es| == |steps| && forall i :: 0 <= i < |es| ==> EffectIs(lib, states, steps, es, i)
  }

  /** The blockhash queue after a step: an expiry replaces it by the hash of its newest entry. */
  function NextQueue(lib: Library, q: seq<Hash>, step: Step): seq<Hash> {
    if step.Expire? && q != [] then [lib.sha256(q[0])] else q
  }

  function NextBudget(b: Option<ComputeBudget>, step: Step): Option<ComputeBudget> {
    if step.PutBudget? && Honored(step.budget) then Some(step.budget) else b
  }

  lemma ExecuteFrame(lib: Library, replay: Replay, s: State, tx: Transaction, simulate: bool)
    ensures var s' := Execute(lib, replay, s, tx, simulate).state;
            s' == s.(store := s'.store, programs := s'.programs, history := s'.history)
  {
  }

  lemma SendHistory(lib: Library, s: State, step: Step)
    requires step.Send? || step.Simulate?
    ensures Apply(lib, s, step).history == ApplyEffect(s.history, EffectOf(lib, s, step))
  {
  }

  /** Everything but the store and the caches is as given. */
  predicate Frame(s: State, s': State, h: History, budget: Option<ComputeBudget>, queue: seq<Hash>) {
    && s'.history == h
    && s'.budget == budget
    && s'.blockhashes == queue
    && s'.airdropKey == s.airdropKey
    && s'.governorFee == s.governorFee
  }

  /** Sysvars, warps, expiries and account writes. */
  predicate WritesSysvars(step: Step) {
    step.PutAccount? || step.PutSysvar? || step.Warp? || step.Expire? || step.ResetSysvars?
  }

  lemma SysvarFrame(lib: Library, s: State, step: Step)
    requires WritesSysvars(step)
    ensures Frame(s, Apply(lib, s, step), s.history, s.budget, NextQueue(lib, s.blockhashes, step))
  {
  }

  lemma SettingFrame(lib: Library, s: State, step: Step)
    requires !step.Send? && !step.Simulate? && !WritesSysvars(step)
    ensures Frame(s, Apply(lib, s, step), if step.PutCapacity? then SetCapacity(s.history, step.capacity) else s.history,
                  NextBudget(s.budget, step), s.blockhashes)
  {
  }

  /** What every step does outside the store and the caches: only included sends and capacity
      changes move the history, only an accepted budget the budget, only an expiry the queue, and
      nothing moves the airdrop account or the fee governor. */
  lemma StepFrame(lib: Library, s: State, step: Step)
    ensures Frame(s, Apply(lib, s, step), ApplyEffect(s.history, EffectOf(lib, s, step)),
                  NextBudget(s.budget, step), NextQueue(lib, s.blockhashes, step))
  {
    if step.Send? || step.Simulate? {
      ExecuteFrame(lib, step.replay, s, step.tx, step.Simulate?);
      SendHistory(lib, s, step);
    } else if WritesSysvars(step) {
      SysvarFrame(lib, s, step);
    } else {
      SettingFrame(lib, s, step);
    }
  }

  lemma FrameAt(lib: Library, states: seq<State>, steps: seq<Step>, i: nat)
    requires IsRun(lib, states, steps) && i < |steps|
    ensures Frame(states[i], states[i + 1], ApplyEffect(states[i].history, EffectOf(lib, states[i], steps[i])),
                  NextBudget(states[i].budget, steps[i]), NextQueue(lib, states[i].blockhashes, steps[i]))
  {
    assert StepAt(lib, states, steps, i);
    StepFrame(lib, states[i], steps[i]);
  }

  /** The same, without the history. */
  lemma QuietAt(lib: Library, states: seq<State>, steps: seq<Step>, i: nat)
    requires IsRun(lib, states, steps) && i < |steps|
    ensures states[i + 1].budget == NextBudget(states[i].budget, steps[i])
    ensures states[i + 1].blockhashes == NextQueue(lib, states[i].blockhashes, steps[i])
    ensures states[i + 1].airdropKey == states[i].airdropKey && states[i + 1].governorFee == states[i].governorFee
  {
    FrameAt(lib, states, steps, i);
  }

  lemma {:induction false} RunConstants(lib: Library, states: seq<State>, steps: seq<Step>, n: nat)
    requires IsRun(lib, states, steps) && n < |states|
    ensures states[n].airdropKey == states[0].airdropKey
    ensures states[n].governorFee == states[0].governorFee
  {
    if n > 0 {
      RunConstants(lib, states, steps, n - 1);
      QuietAt(lib, states, steps, n - 1);
    }
  }

  function EffectsOf(lib: Library, states: seq<State>, steps: seq<Step>): (es: seq<Effect>)
    requires |states| == |steps| + 1
    ensures Effects(lib, states, steps, es)
  {
    seq(|steps|, i requires 0 <= i < |steps| => EffectOf(lib, states[i], steps[i]))
  }

  function HistoriesOf(states: seq<State>): (hs: seq<History>)
    ensures |hs| == |states| && forall i :: 0 <= i < |hs| ==> hs[i] == states[i].history
  {
    seq(|states|, i requires 0 <= i < |states| => states[i].history)
  }

  lemma EffectsDriveHistory(lib: Library, states: seq<State>, steps: seq<Step>, es: seq<Effect>)
    requires IsRun(lib, states, steps) && Effects(lib, states, steps, es)
    ensures IsTrace(HistoriesOf(states), es)
  {
    var hs := HistoriesOf(states);
    forall i | 0 <= i < |es| ensures EffectAt(hs, es, i) {
      assert EffectIs(lib, states, steps, es, i);
      FrameAt(lib, states, steps, i);
    }
  }

  /** In every state of a run the history has no duplicates, lists exactly what it maps, and
      respects its capacity; over the run it is the bounded FIFO log of the inclusions and capacity
      changes so far. */
  lemma HistoryIsBoundedLog(lib: Library, states: seq<State>, steps: seq<Step>, es: seq<Effect>, n: nat)
    requires IsRun(lib, states, steps) && Effects(lib, states, steps, es)
    requires n < |states| && Valid(states[0].history)
    ensures Valid(states[n].history)
    ensures BoundedLog(states[n].history.capacity, Log(states[n].history))
            == LogAfter(BoundedLog(states[0].history.capacity, Log(states[0].history)), es, n)
  {
    EffectsDriveHistory(lib, states, steps, es);
    RefinesLog(HistoriesOf(states), es, n);
  }

  /** From an instance with no history yet: a retained signature maps to the outcome of its latest
      included send. */
  lemma HistoryKeepsLatest(lib: Library, states: seq<State>, steps: seq<Step>, es: seq<Effect>, n: nat, sig: Signature)
    requires IsRun(lib, states, steps) && Effects(lib, states, steps, es)
    requires n < |states| && Valid(states[0].history) && states[0].history.order == []
    requires sig in states[n].history.entries
    ensures LatestOutcome(es, n, sig) == Some(states[n].history.entries[sig])
  {
    EffectsDriveHistory(lib, states, steps, es);
    RetainedIsLatest(HistoriesOf(states), es, n, sig);
  }

  // ----- replay protection -----

  /** Contract of replay: while blockhashes are checked, a transaction whose age has run out is
      not included. */
  predicate RespectsAge(lib: Library, s: State, step: Step) {
    Report(lib, s, step).Some? && s.blockhashCheck && !AgeValid(lib, s, Resolve(lib, s, step.tx.message).value)
    ==> !Included(Report(lib, s, step).value)
  }

  /** With signatures verified and a history kept, an included send is never of a signature the
      history still holds. */
  lemma IncludedIsFresh(lib: Library, s: State, step: Step)
    requires s.sigverify && s.history.capacity > 0 && RespectsAge(lib, s, step)
    requires Includes(lib, s, step)
    ensures step.tx.signatures[0] !in s.history.entries
  {
  }

  /** Signatures are verified, at least `c` history entries are allowed, and replay respects
      blockhash age. */
  predicate Protected(lib: Library, s: State, step: Step, c: nat) {
    s.sigverify && s.history.capacity >= c && RespectsAge(lib, s, step)
  }

  /** Replay protection over whole runs: two included sends of one signature are separated by
      inclusions of at least `c` distinct other signatures, whatever else happens in between:
      blockhash checking may be toggled, blockhashes expire, slots warp, accounts change, and the
      capacity itself may move as long as it never falls below `c`. */
  lemma ReplayProtection(lib: Library, states: seq<State>, steps: seq<Step>, es: seq<Effect>, i: nat, j: nat, c: nat)
    requires IsRun(lib, states, steps) && Effects(lib, states, steps, es)
    requires Valid(states[0].history) && i < j < |steps| && c > 0
    requires forall k {:trigger Protected(lib, states[k], steps[k], c)} :: i <= k <= j ==> Protected(lib, states[k], steps[k], c)
    requires es[i].Inclusion? && es[j].Inclusion? && es[i].signature == es[j].signature
    ensures |IncludedBetween(es, i + 1, j) - {es[i].signature}| >= c
  {
    var hs := HistoriesOf(states);
    EffectsDriveHistory(lib, states, steps, es);
    forall k | i <= k <= j ensures GuardingAt(hs, es, k, c) {
      assert EffectIs(lib, states, steps, es, k);
      FreshEffect(lib, states[k], steps[k], c);
    }
    RepeatsAreFarApart(hs, es, i, j, c);
  }

  lemma FreshEffect(lib: Library, s: State, step: Step, c: nat)
    requires Protected(lib, s, step, c) && c > 0
    ensures Guarding(s.history, EffectOf(lib, s, step), c)
  {
    if Includes(lib, s, step) {
      IncludedIsFresh(lib, s, step);
    }
  }

  /** Replay checks the age of the rewritten message, the engine that of the submitted one. The
      contract for the one gives the contract for the other when the leading instruction does not
      point past the keys and only system instructions carry durable nonces. */
  lemma AgeContractFromReplay(lib: Library, s: State, step: Step)
    requires Report(lib, s, step).Some?
    requires var m := Resolve(lib, s, step.tx.message).value;
             && (AppendsKey(s.budget, m) ==> m.header.readonlyUnsigned < 255)
             && BudgetKeyIndex(m) < 0x1_0000
             && (m.instructions != [] ==> !PointsPastEnd(m, m.instructions[0]))
    requires forall ins, h, store :: lib.nonceAllows(ins, h, store) ==> ins.program == SystemProgram
    requires s.blockhashCheck && !AgeValid(lib, s, Admit(lib, s, step.tx).value) ==> !Included(Report(lib, s, step).value)
    ensures RespectsAge(lib, s, step)
  {
    var m := Resolve(lib, s, step.tx.message).value;
    OverrideKeepsFirstInstruction(s.budget, m);
    assert AgeValid(lib, s, Override(s.budget, m)) == AgeValid(lib, s, m);
  }

  /** Signature verification is needed for this: with it off the history is not consulted, and one
      transaction is included twice in a row as often as replay includes it. */
  lemma UnverifiedSendsRepeat(lib: Library, replay: Replay, tx: Transaction, states: seq<State>)
    requires IsRun(lib, states, [Send(replay, tx), Send(replay, tx)])
    requires !states[0].sigverify && tx.signatures != [] && !tx.message.versioned
    requires forall v :: Included(replay(v))
    ensures Includes(lib, states[0], Send(replay, tx)) && Includes(lib, states[1], Send(replay, tx))
  {
    var steps := [Send(replay, tx), Send(replay, tx)];
    assert StepAt(lib, states, steps, 0);
    assert !states[1].sigverify;
  }

  // ----- the budget -----

  /** Every budget in force satisfies the limits. */
  lemma {:induction false} BudgetAlwaysHonored(lib: Library, states: seq<State>, steps: seq<Step>, n: nat)
    requires IsRun(lib, states, steps) && n < |states|
    requires states[0].budget.Some? ==> Honored(states[0].budget.value)
    ensures states[n].budget.Some? ==> Honored(states[n].budget.value)
  {
    if n > 0 {
      BudgetAlwaysHonored(lib, states, steps, n - 1);
      QuietAt(lib, states, steps, n - 1);
    }
  }

  /** So in every state of a run, an admitted message that carried no budget of its own requests
      exactly the budget in force. */
  lemma AdmittedMessageRequestsBudget(lib: Library, states: seq<State>, steps: seq<Step>, n: nat, tx: Transaction)
    requires IsRun(lib, states, steps) && n < |states|
    requires states[0].budget.Some? ==> Honored(states[0].budget.value)
    requires Admit(lib, states[n], tx).Ok?
    requires var m, budget := Resolve(lib, states[n], tx.message).value, states[n].budget;
             && Rewrites(budget, m) && DistinctKeys(m) && BudgetKeyIndex(m) < 0x1_0000
             && (AppendsKey(budget, m) ==> m.header.readonlyUnsigned < 255)
             && (forall j :: 0 <= j < |m.instructions| ==> !PointsPastEnd(m, m.instructions[j]))
    ensures UnitLimit(Admit(lib, states[n], tx).value) == Some(states[n].budget.value.unitLimit)
    ensures HeapSize(Admit(lib, states[n], tx).value) == states[n].budget.value.heapSize
  {
    BudgetAlwaysHonored(lib, states, steps, n);
    OverrideInstallsBudget(states[n].budget.value, Resolve(lib, states[n], tx.message).value);
  }
}
