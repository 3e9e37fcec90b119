/** What holds of an instance in every reachable state, as one invariant. */
module Invariants {
  import opened Types
  import opened Messages
  import opened ComputeBudgets
  import opened Engine
  import opened Sysvars
  import opened Histories
  import opened Pipeline
  import opened Steps
  import opened Runs
  import opened SysvarRuns
  import opened ProgramRuns

  /** The history is consistent and within its capacity, the budget within its limits, the queue a
      single hash, and the slot counter the Clock's slot. */
  ghost predicate Sound(lib: Library, s: State) {
    && Valid(s.history)
    && (s.budget.Some? ==> Honored(s.budget.value))
    && |s.blockhashes| == 1
    && (KindLaw(lib) ==> ClockAgrees(s))
  }

  lemma GenesisSound(lib: Library, o: Origin)
    ensures Sound(lib, Genesis(lib, o))
  {
    GenesisClock(lib, o);
  }

  lemma SoundStep(lib: Library, s: State, step: Step)
    requires Sound(lib, s)
    ensures Sound(lib, Apply(lib, s, step))
  {
    StepFrame(lib, s, step);
    EffectValid(s.history, EffectOf(lib, s, step));
    if KindLaw(lib) {
      ClockStep(lib, s, step);
    }
  }

  lemma ExecuteSound(lib: Library, replay: Replay, s: State, tx: Transaction, simulate: bool)
    requires Sound(lib, s)
    ensures Sound(lib, Execute(lib, replay, s, tx, simulate).state)
  {
    ExecuteFrame(lib, replay, s, tx, simulate);
    if !simulate && Admit(lib, s, tx).Ok? {
      var out := replay(ViewFor(s, tx, Admit(lib, s, tx).value, false));
      if tx.signatures != [] && Included(out) {
        RecordValid(s.history, tx.signatures[0], Execute(lib, replay, s, tx, false).outcome);
      }
    }
  }

  /** What a fresh run has reached, wherever it stands: the invariant, the hash its expiries have
      chained, and, as far as its steps allow, coherent sysvars and a fresh program cache. */
  lemma Reached(lib: Library, o: Origin, states: seq<State>, steps: seq<Step>)
    requires FreshRun(lib, o, states, steps)
    ensures var s := states[|steps|];
            && s.blockhashes == [Chain(lib, Expiries(steps, |steps|))]
            && (LawfulCodec(lib) && NonceSparesSysvars(lib) && AvoidsSysvars(lib, o)
                && (forall k :: 0 <= k < |steps| ==> RawlyMirrored(lib, states[k], steps[k]))
                ==> Coherent(lib, s))
            && ((forall k :: 0 <= k < |steps| ==> SparesPrograms(lib, states[k], steps[k])) ==> ProgramsAgree(s))
  {
    BlockhashChain(lib, o, states, steps, |steps|);
    if LawfulCodec(lib) && NonceSparesSysvars(lib) && AvoidsSysvars(lib, o)
       && forall k :: 0 <= k < |steps| ==> RawlyMirrored(lib, states[k], steps[k]) {
      AvoidingGenesisCoherent(lib, o);
      CoherentAlong(lib, states, steps, |steps|);
    }
    if forall k :: 0 <= k < |steps| ==> SparesPrograms(lib, states[k], steps[k]) {
      GenesisPrograms(lib, o);
      ProgramCacheAgreement(lib, states, steps, |steps|);
    }
  }
}
