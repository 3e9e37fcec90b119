/** Lamports over whole runs of sends and simulations (tx.go, `commit`). */
module LedgerRuns {
  import opened Messages
  import opened Engine
  import opened Ledger
  import opened Pipeline
  import opened Steps
  import opened Runs

  /** Steps that touch balances through transactions only. */
  predicate TransactionStep(step: Step) {
    || step.Send?
    || step.Simulate?
    || step.PutCapacity?
    || step.PutBudget?
    || step.PutSigverify?
    || step.PutBlockhashCheck?
  }

  /** The fee a step takes out of the store. */
  function FeeOf(lib: Library, s: State, step: Step): nat {
    var out := Report(lib, s, step);
    if out.None? then 0
    else FeeDebited(s.store, Transaction(step.tx.signatures, Admit(lib, s, step.tx).value), out.value)
  }

  /** The fees of the first `n` steps of a run. */
  function FeesPaid(lib: Library, states: seq<State>, steps: seq<Step>, n: nat): nat
    requires |states| == |steps| + 1 && n <= |steps|
  {
    if n == 0 then 0 else FeesPaid(lib, states, steps, n - 1) + FeeOf(lib, states[n - 1], steps[n - 1])
  }

  /** Replay reports balanced updates for this step. */
  ghost predicate BalancedStep(lib: Library, s: State, step: Step) {
    Report(lib, s, step).Some? ==> Balanced(s.store, Report(lib, s, step).value)
  }

  lemma SendStepConserves(lib: Library, s: State, step: Step)
    requires LawfulNonce(lib) && step.Send? && BalancedStep(lib, s, step)
    ensures Total(Apply(lib, s, step).store) + FeeOf(lib, s, step) == Total(s.store)
  {
    if Report(lib, s, step).Some? {
      var tx := Transaction(step.tx.signatures, Admit(lib, s, step.tx).value);
      SendConserves(lib, s, tx, Report(lib, s, step).value);
    } else {
      ExecuteFrames(lib, step.replay, s, step.tx, false);
    }
  }

  lemma StepConserves(lib: Library, s: State, step: Step)
    requires LawfulNonce(lib) && TransactionStep(step) && BalancedStep(lib, s, step)
    ensures Total(Apply(lib, s, step).store) + FeeOf(lib, s, step) == Total(s.store)
  {
    if step.Send? {
      SendStepConserves(lib, s, step);
    } else if step.Simulate? {
      ExecuteFrames(lib, step.replay, s, step.tx, true);
    }
  }

  /** Over every run, the lamports stored plus the fees debited are what was stored at the start. */
  lemma {:induction false} LedgerConserved(lib: Library, states: seq<State>, steps: seq<Step>, n: nat)
    requires LawfulNonce(lib) && IsRun(lib, states, steps) && n < |states|
    requires forall k :: 0 <= k < |steps| ==> TransactionStep(steps[k])
    requires forall k {:trigger BalancedStep(lib, states[k], steps[k])} :: 0 <= k < |steps| ==> BalancedStep(lib, states[k], steps[k])
    ensures Total(states[n].store) + FeesPaid(lib, states, steps, n) == Total(states[0].store)
  {
    if n > 0 {
      LedgerConserved(lib, states, steps, n - 1);
      assert StepAt(lib, states, steps, n - 1);
      StepConserves(lib, states[n - 1], steps[n - 1]);
    }
  }
}
