/** The compiled-program cache over whole runs: it never serves stale bytes, and an upgradeable
    program keeps running the ELF installed last (accounts.go). */
module ProgramRuns {
  import opened Types
  import opened Messages
  import opened Engine
  import opened Ledger
  import opened Sysvars
  import opened Programs
  import opened Pipeline
  import opened Steps
  import opened Runs

  /** Addresses the engine rewrites without evicting, and that hold no program. */
  predicate HoldsNoProgram(s: State, k: Key) {
    k.SysvarKey? || k == StakeConfigKey || k == s.airdropKey
  }

  ghost predicate ProgramsAgree(s: State) {
    CacheAgrees(s) && forall k :: k in s.programs ==> !HoldsNoProgram(s, k)
  }

  /** The keys whose programs replay compiles during a step. */
  function CompiledBy(lib: Library, s: State, step: Step): set<Key> {
    if (step.Send? || step.Simulate?) && Admit(lib, s, step.tx).Ok?
    then step.replay(ViewFor(s, step.tx, Admit(lib, s, step.tx).value, step.Simulate?)).compiled
    else {}
  }

  // ----- commits -----

  predicate SameBytes(before: Store, after: Store, k: Key) {
    k in before ==> k in after && after[k].data == before[k].data
  }

  /** The last update of `k` neither drains the account nor changes its data; after a failure, the
      nonce advance does not. */
  predicate CommitSpares(lib: Library, s: State, tx: Transaction, out: ReplayOutput, k: Key)
    requires k in s.store
  {
    if out.execution.Some? then
      var last := LastWrites(out.execution.value.updates);
      k in last ==> last[k].lamports != 0 && last[k].data == s.store[k].data
    else if FailedIncluded(out) && out.instructions != [] then
      var w := Withdraw(s.store, tx.message.keys, out.fee.value).store;
      SameBytes(w, lib.advanceNonce(w, Queue(s.cache), tx, out.instructions[0]), k)
    else true
  }

  lemma SparedBytes(lib: Library, s: State, tx: Transaction, out: ReplayOutput, k: Key)
    requires k in s.store
    ensures CommitSpares(lib, s, tx, out, k) <==> SameBytes(s.store, Commit(lib, s.store, Queue(s.cache), tx, out).store, k)
  {
    if out.execution.Some? {
      UpdatesAreLastWrites(s.store, out.execution.value.updates, k);
    }
  }

  /** A commit evicts nothing: the cache still agrees after it exactly when no program that is
      cached then, the ones compiled by this very execution included, was drained or rewritten. */
  lemma CommitKeepsCacheExactly(lib: Library, s: State, tx: Transaction, out: ReplayOutput)
    requires CacheAgrees(s)
    ensures CacheAgrees(Run(lib, s, tx, out, false).state) <==>
            forall k :: k in FillCache(s.programs, s.store, out.compiled) ==> CommitSpares(lib, s, tx, out, k)
  {
    var programs, s' := FillCache(s.programs, s.store, out.compiled), Run(lib, s, tx, out, false).state;
    FillAgrees(s, out.compiled);
    assert s'.programs == programs;
    forall k | k in programs
      ensures CommitSpares(lib, s, tx, out, k) <==> k in s'.store && s'.store[k].data == programs[k]
    {
      SparedBytes(lib, s, tx, out, k);
    }
  }

  /** So a committed update that rewrites a cached program leaves the old bytes being served. */
  lemma RewrittenProgramIsServedStale(lib: Library, s: State, tx: Transaction, out: ReplayOutput, k: Key, a: Account)
    requires CacheAgrees(s) && k in s.programs && out.execution.Some?
    requires k in LastWrites(out.execution.value.updates) && LastWrites(out.execution.value.updates)[k] == a
    requires a.lamports != 0 && a.data != s.store[k].data
    ensures var s' := Run(lib, s, tx, out, false).state;
            && k in s'.store && s'.store[k].data == a.data
            && ServedBytes(s', k) == Some(s.store[k].data)
            && !CacheAgrees(s')
  {
    UpdatesAreLastWrites(s.store, out.execution.value.updates, k);
  }

  // ----- steps -----

  /** Replay compiles programs at program addresses. */
  ghost predicate CompilesPrograms(lib: Library, s: State, step: Step) {
    forall k :: k in CompiledBy(lib, s, step) ==> !HoldsNoProgram(s, k)
  }

  /** Neither a commit nor a fixed account changes the bytes of a cached program. */
  ghost predicate SparesCached(lib: Library, s: State, step: Step)
    requires CacheAgrees(s)
  {
    match step
    case Send(_, tx) =>
      Report(lib, s, step).Some? ==>
        var out := Report(lib, s, step).value;
        forall k :: k in FillCache(s.programs, s.store, out.compiled) ==>
          CommitSpares(lib, s, Transaction(tx.signatures, Admit(lib, s, tx).value), out, k)
    case PutNatives(natives) => forall k :: k in s.programs && k in natives ==> natives[k].data == s.programs[k]
    case _ => true
  }

  lemma ExecutionFills(lib: Library, s: State, step: Step)
    requires step.Send? || step.Simulate?
    ensures Apply(lib, s, step).programs == FillCache(s.programs, s.store, CompiledBy(lib, s, step))
    ensures Apply(lib, s, step).airdropKey == s.airdropKey
  {
    ExecuteFrame(lib, step.replay, s, step.tx, step.Simulate?);
    assert FillCache(s.programs, s.store, {}) == s.programs;
  }

  lemma SendAgreesExactly(lib: Library, s: State, step: Step)
    requires step.Send? && ProgramsAgree(s) && CompilesPrograms(lib, s, step)
    ensures ProgramsAgree(Apply(lib, s, step)) <==> SparesCached(lib, s, step)
  {
    ExecutionFills(lib, s, step);
    if Report(lib, s, step).Some? {
      var tx := Transaction(step.tx.signatures, Admit(lib, s, step.tx).value);
      CommitKeepsCacheExactly(lib, s, tx, Report(lib, s, step).value);
    }
  }

  lemma SimulationAgrees(lib: Library, s: State, step: Step)
    requires step.Simulate? && ProgramsAgree(s) && CompilesPrograms(lib, s, step)
    ensures ProgramsAgree(Apply(lib, s, step))
  {
    ExecuteFrames(lib, step.replay, s, step.tx, true);
    ExecutionFills(lib, s, step);
  }

  /** `k` keeps its data and owner from one store to the next. */
  predicate Keeps(before: Store, after: Store, k: Key) {
    k in before ==> k in after && after[k].data == before[k].data && after[k].owner == before[k].owner
  }

  lemma {:induction false} InstallAllKeeps(lib: Library, w: Views, items: seq<Default>, k: Key)
    requires !k.SysvarKey?
    ensures Keeps(w.store, InstallAll(lib, w, items).store, k)
  {
    if items != [] {
      InstallAllKeeps(lib, w, items[..|items| - 1], k);
    }
  }

  lemma PutSysvarKeeps(lib: Library, s: State, key: Key, data: Bytes, k: Key)
    requires !k.SysvarKey?
    ensures var s' := Settle(s, SetSysvarData(lib, s, key, data)); Keeps(s.store, s'.store, k) && s'.programs == s.programs
  {
  }

  lemma WarpKeeps(lib: Library, s: State, slot: u64, k: Key)
    requires !k.SysvarKey?
    ensures Keeps(s.store, WarpToSlot(lib, s, slot).store, k) && WarpToSlot(lib, s, slot).programs == s.programs
  {
  }

  lemma ExpireKeeps(lib: Library, s: State, k: Key)
    requires !k.SysvarKey?
    ensures Keeps(s.store, ExpireBlockhash(lib, s).store, k) && ExpireBlockhash(lib, s).programs == s.programs
  {
  }

  lemma ResetKeeps(lib: Library, s: State, k: Key)
    requires !k.SysvarKey? && k != StakeConfigKey
    ensures Keeps(s.store, SetSysvars(lib, s).store, k) && SetSysvars(lib, s).programs == s.programs
  {
    InstallAllKeeps(lib, ViewsOf(s), Defaults(lib, DefaultSlotHashes(s.blockhashes)), k);
  }

  /** Sysvar writes stay at their own addresses and do not touch the compiled programs. */
  lemma SysvarStepKeeps(lib: Library, s: State, step: Step, k: Key)
    requires WritesSysvars(step) && !step.PutAccount? && !k.SysvarKey? && k != StakeConfigKey
    ensures Keeps(s.store, Apply(lib, s, step).store, k) && Apply(lib, s, step).programs == s.programs
  {
    if step.PutSysvar? {
      PutSysvarKeeps(lib, s, step.key, step.data, k);
      assert Apply(lib, s, step) == Settle(s, SetSysvarData(lib, s, step.key, step.data));
    } else if step.Warp? {
      WarpKeeps(lib, s, step.slot, k);
    } else if step.Expire? {
      ExpireKeeps(lib, s, k);
    } else {
      ResetKeeps(lib, s, k);
    }
  }

  lemma SysvarStepAgrees(lib: Library, s: State, step: Step)
    requires WritesSysvars(step) && ProgramsAgree(s)
    ensures ProgramsAgree(Apply(lib, s, step))
  {
    SysvarFrame(lib, s, step);
    if step.PutAccount? {
      SetAccountAgrees(lib, s, step.key, step.account);
    } else {
      SysvarStepKeeps(lib, s, step, SystemProgram);
      forall k | k in s.programs ensures Keeps(s.store, Apply(lib, s, step).store, k) {
        SysvarStepKeeps(lib, s, step, k);
      }
    }
  }

  lemma SettingAgrees(lib: Library, s: State, step: Step)
    requires !step.Send? && !step.Simulate? && !WritesSysvars(step) && ProgramsAgree(s)
    ensures ProgramsAgree(Apply(lib, s, step)) <==> SparesCached(lib, s, step)
  {
    SettingFrame(lib, s, step);
    if step.PutProgram? || step.PutProgramUnder? || step.PutDefaultPrograms? {
      InstallAgrees(s, InstalledBy(lib, s.cache, step));
    }
  }

  /** Host writes and installs evict what they overwrite; a commit or a fixed account leaves a stale
      program exactly when it changes the bytes of a cached one. */
  lemma ProgramsAgreeStep(lib: Library, s: State, step: Step)
    requires ProgramsAgree(s) && CompilesPrograms(lib, s, step)
    ensures ProgramsAgree(Apply(lib, s, step)) <==> SparesCached(lib, s, step)
  {
    if step.Send? {
      SendAgreesExactly(lib, s, step);
    } else if step.Simulate? {
      SimulationAgrees(lib, s, step);
    } else if WritesSysvars(step) {
      SysvarStepAgrees(lib, s, step);
    } else {
      SettingAgrees(lib, s, step);
    }
  }

  // ----- runs -----

  ghost predicate SparesPrograms(lib: Library, s: State, step: Step) {
    CompilesPrograms(lib, s, step) && (CacheAgrees(s) ==> SparesCached(lib, s, step))
  }

  lemma ProgramsAgreeNext(lib: Library, states: seq<State>, steps: seq<Step>, i: nat)
    requires IsRun(lib, states, steps) && i < |steps|
    requires ProgramsAgree(states[i]) && SparesPrograms(lib, states[i], steps[i])
    ensures ProgramsAgree(states[i + 1])
  {
    ProgramsAgreeStep(lib, states[i], steps[i]);
    assert StepAt(lib, states, steps, i);
  }

  ghost predicate AgreementGoesOn(states: seq<State>, i: nat) {
    i + 1 < |states| && ProgramsAgree(states[i]) ==> ProgramsAgree(states[i + 1])
  }

  lemma {:induction false} AgreementChain(states: seq<State>, n: nat)
    requires n < |states| && ProgramsAgree(states[0]) && forall i :: 0 <= i < n ==> AgreementGoesOn(states, i)
    ensures ProgramsAgree(states[n])
  {
    if n > 0 {
      AgreementChain(states, n - 1);
      assert AgreementGoesOn(states, n - 1);
    }
  }

  /** Over every run, each cached program was compiled from the bytes its account holds now. */
  lemma ProgramCacheAgreement(lib: Library, states: seq<State>, steps: seq<Step>, n: nat)
    requires IsRun(lib, states, steps) && n < |states| && ProgramsAgree(states[0])
    requires forall k :: 0 <= k < n ==> SparesPrograms(lib, states[k], steps[k])
    ensures ProgramsAgree(states[n])
  {
    forall i | 0 <= i < n ensures AgreementGoesOn(states, i) {
      if ProgramsAgree(states[i]) {
        ProgramsAgreeNext(lib, states, steps, i);
      }
    }
    AgreementChain(states, n);
  }

  lemma GenesisPrograms(lib: Library, o: Origin)
    ensures ProgramsAgree(Genesis(lib, o))
  {
  }

  /** The step does not write the account at `k`, or writes it with the same data and owner. */
  predicate LeavesAlone(lib: Library, s: State, step: Step, k: Key) {
    match step
    case Send(_, tx) => Keeps(s.store, Apply(lib, s, step).store, k)
    case Simulate(_, _) => true
    case PutAccount(key, _) => key != k
    case PutNatives(natives) => k !in natives
    case _ => k !in InstalledBy(lib, s.cache, step) && !HoldsNoProgram(s, k)
  }

  lemma StepKeeps(lib: Library, s: State, step: Step, k: Key)
    requires LeavesAlone(lib, s, step, k)
    ensures Keeps(s.store, Apply(lib, s, step).store, k)
  {
    if step.Simulate? {
      ExecuteFrames(lib, step.replay, s, step.tx, true);
    } else if WritesSysvars(step) && !step.PutAccount? {
      SysvarStepKeeps(lib, s, step, k);
    }
  }

  lemma KeepsAt(lib: Library, states: seq<State>, steps: seq<Step>, i: nat, k: Key)
    requires IsRun(lib, states, steps) && i < |steps| && LeavesAlone(lib, states[i], steps[i], k)
    ensures Keeps(states[i].store, states[i + 1].store, k)
  {
    assert StepAt(lib, states, steps, i);
    StepKeeps(lib, states[i], steps[i], k);
  }

  predicate KeepsNext(states: seq<State>, i: nat, k: Key) {
    i + 1 < |states| ==> Keeps(states[i].store, states[i + 1].store, k)
  }

  lemma {:induction false} KeepsChain(states: seq<State>, n: nat, k: Key)
    requires n < |states| && forall i :: 0 <= i < n ==> KeepsNext(states, i, k)
    ensures Keeps(states[0].store, states[n].store, k)
  {
    if n > 0 {
      KeepsChain(states, n - 1, k);
      assert KeepsNext(states, n - 1, k);
    }
  }

  lemma RunKeeps(lib: Library, states: seq<State>, steps: seq<Step>, n: nat, k: Key)
    requires IsRun(lib, states, steps) && n < |states|
    requires forall i :: 0 <= i < n ==> LeavesAlone(lib, states[i], steps[i], k)
    ensures Keeps(states[0].store, states[n].store, k)
  {
    forall i | 0 <= i < n ensures KeepsNext(states, i, k) {
      KeepsAt(lib, states, steps, i, k);
    }
    KeepsChain(states, n, k);
  }

  /** After an accepted upgradeable install, any run that leaves the program's two accounts alone
      (other installs, executions that fill the cache, sysvar and account writes elsewhere) still
      runs exactly the installed ELF. */
  lemma LastInstalledElfRuns(lib: Library, s: State, id: Key, elf: Bytes, states: seq<State>, steps: seq<Step>, n: nat)
    requires ProgramsAgree(s) && AddProgramV3(lib, s.cache, id, elf).Ok?
    requires lib.programData(id) != Some(id) && Recoverable(lib, lib.programData(id).value)
    requires IsRun(lib, states, steps) && n < |states|
    requires states[0] == Installed(s, AddProgramV3(lib, s.cache, id, elf).value)
    requires forall i :: 0 <= i < n ==> SparesPrograms(lib, states[i], steps[i])
    requires forall i :: 0 <= i < n ==> LeavesAlone(lib, states[i], steps[i], id)
    requires forall i :: 0 <= i < n ==> LeavesAlone(lib, states[i], steps[i], lib.programData(id).value)
    ensures ServedElf(lib, states[n], id) == Some(elf)
  {
    InstalledElfIsServed(lib, s, id, elf);
    InstallAgrees(s, AddProgramV3(lib, s.cache, id, elf).value);
    ProgramCacheAgreement(lib, states, steps, n);
    RunKeeps(lib, states, steps, n, id);
    RunKeeps(lib, states, steps, n, lib.programData(id).value);
    ServedElfFollowsStore(lib, states[0], states[n], id);
  }
}
