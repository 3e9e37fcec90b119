/** Sysvars, the slot counter and the blockhash queue in every reachable state
    (sysvars.go, svm.go, accounts.go). */
module SysvarRuns {
  import opened Types
  import opened Messages
  import opened ComputeBudgets
  import opened Engine
  import opened Ledger
  import opened Sysvars
  import opened Programs
  import opened Lookups
  import opened Pipeline
  import opened Steps
  import opened Runs

  // ----- slot agreement -----

  lemma SysvarClockStep(lib: Library, s: State, step: Step)
    requires KindLaw(lib) && ClockAgrees(s) && WritesSysvars(step)
    ensures ClockAgrees(Apply(lib, s, step))
  {
    match step
    case PutAccount(k, a) => SetAccountClock(lib, s, k, a);
    case PutSysvar(k, data) => SetSysvarDataClock(lib, s, k, data);
    case Warp(slot) => WarpAndExpireClock(lib, s, slot);
    case Expire => WarpAndExpireClock(lib, s, 0);
    case ResetSysvars => DefaultClock(lib, ViewsOf(s), s.blockhashes);
  }

  lemma OtherStepsKeepCache(lib: Library, s: State, step: Step)
    requires !WritesSysvars(step)
    ensures Apply(lib, s, step).cache == s.cache && Apply(lib, s, step).slot == s.slot
  {
    if step.Send? || step.Simulate? {
      ExecuteFrame(lib, step.replay, s, step.tx, step.Simulate?);
    }
  }

  /** No operation separates the slot counter from the cached Clock. */
  lemma ClockStep(lib: Library, s: State, step: Step)
    requires KindLaw(lib) && ClockAgrees(s)
    ensures ClockAgrees(Apply(lib, s, step))
  {
    if WritesSysvars(step) {
      SysvarClockStep(lib, s, step);
    } else {
      OtherStepsKeepCache(lib, s, step);
    }
  }

  lemma GenesisClock(lib: Library, o: Origin)
    ensures ClockAgrees(Genesis(lib, o))
  {
    var e := Empty(lib, o.airdropKey);
    DefaultClock(lib, ViewsOf(e), e.blockhashes);
  }

  lemma {:induction false} ClockAlong(lib: Library, states: seq<State>, steps: seq<Step>, n: nat)
    requires KindLaw(lib) && IsRun(lib, states, steps) && n < |states| && ClockAgrees(states[0])
    ensures ClockAgrees(states[n])
  {
    if n > 0 {
      ClockAlong(lib, states, steps, n - 1);
      assert StepAt(lib, states, steps, n - 1);
      ClockStep(lib, states[n - 1], steps[n - 1]);
    }
  }

  /** In every reachable state the slot counter is the cached Clock's slot, so the slot lookups are
      resolved at is the counter too, and programs deployed at slot 0 are visible. */
  lemma SlotAgreement(lib: Library, o: Origin, states: seq<State>, steps: seq<Step>, n: nat)
    requires KindLaw(lib) && FreshRun(lib, o, states, steps) && n < |states|
    ensures ClockAgrees(states[n]) && CurrentSlot(states[n]) == states[n].slot && ExecSlot(states[n].slot) > 0
  {
    GenesisClock(lib, o);
    ClockAlong(lib, states, steps, n);
  }

  // ----- coherence -----

  /** Advancing a durable nonce leaves sysvar accounts alone. */
  ghost predicate NonceSparesSysvars(lib: Library) {
    forall store, q, tx, ins, x :: SameAt(store, lib.advanceNonce(store, q, tx, ins), SysvarKey(x))
  }

  predicate SameAt(before: Store, after: Store, k: Key) {
    (k in after <==> k in before) && (k in before ==> after[k] == before[k])
  }

  /** On sysvar addresses, `after` is `before` overwritten with `writes`; accounts that are not
      overwritten may have been deleted. */
  ghost predicate WrittenOver(before: Store, after: Store, writes: Store) {
    forall x :: WrittenAt(before, after, writes, SysvarKey(x))
  }

  predicate WrittenAt(before: Store, after: Store, writes: Store, k: Key) {
    if k in writes then k in after && after[k] == writes[k]
    else k in after ==> k in before && after[k] == before[k]
  }

  /** Every sysvar account among the writes is the account its mirror already holds. */
  ghost predicate Mirrored(cache: Cache, writes: Store) {
    forall x :: SysvarKey(x) in writes ==> x in cache.mirror && cache.mirror[x] == writes[SysvarKey(x)]
  }

  /** Writes that bypass the cache refresh keep coherence exactly when they write what is mirrored;
      deletions always do. */
  lemma RawWritesCoherentExactly(lib: Library, w: Views, after: Store, writes: Store)
    requires CoherentViews(lib, w) && WrittenOver(w.store, after, writes)
    ensures CoherentViews(lib, Views(after, w.cache)) <==> Mirrored(w.cache, writes)
  {
    forall x ensures CoherentAt(lib, after, w.cache, x)
                     <==> (SysvarKey(x) in writes ==> x in w.cache.mirror && w.cache.mirror[x] == writes[SysvarKey(x)])
    {
      assert WrittenAt(w.store, after, writes, SysvarKey(x)) && CoherentAt(lib, w.store, w.cache, x);
    }
    if Mirrored(w.cache, writes) {
      forall x ensures CoherentAt(lib, after, w.cache, x) {
      }
    }
    if CoherentViews(lib, Views(after, w.cache)) {
      forall x | SysvarKey(x) in writes ensures x in w.cache.mirror && w.cache.mirror[x] == writes[SysvarKey(x)] {
        assert CoherentAt(lib, after, w.cache, x);
      }
    }
  }

  /** The accounts a commit stores: the last updates that are not drained, or the debited payer. */
  function CommitWrites(store: Store, tx: Transaction, out: ReplayOutput): Store {
    if out.execution.Some? then
      var last := LastWrites(out.execution.value.updates);
      map k | k in last && last[k].lamports != 0 :: last[k]
    else if FailedIncluded(out) && Withdraws(store, tx, out.fee.value) then
      var payer := tx.message.keys[0];
      map[payer := store[payer].(lamports := store[payer].lamports - out.fee.value)]
    else map[]
  }

  /** The accounts that a step stores without refreshing the sysvar cache. */
  function RawWrites(lib: Library, s: State, step: Step): Store {
    match step
    case Send(_, tx) =>
      var out := Report(lib, s, step);
      if out.None? then map[]
      else CommitWrites(s.store, Transaction(tx.signatures, Admit(lib, s, tx).value), out.value)
    case PutNatives(natives) => natives
    case PutLamports(n) => map[s.airdropKey := PlainAccount(n)]
    case _ => InstalledBy(lib, s.cache, step)
  }

  lemma CommitWritesOver(lib: Library, s: State, tx: Transaction, out: ReplayOutput)
    requires NonceSparesSysvars(lib)
    ensures WrittenOver(s.store, Commit(lib, s.store, Queue(s.cache), tx, out).store, CommitWrites(s.store, tx, out))
  {
    if out.execution.Some? {
      var us := out.execution.value.updates;
      forall x ensures WrittenAt(s.store, ApplyUpdates(s.store, us), CommitWrites(s.store, tx, out), SysvarKey(x)) {
        UpdatesAreLastWrites(s.store, us, SysvarKey(x));
      }
    } else if FailedIncluded(out) {
      FailureWritesOver(lib, s, tx, out);
    }
  }

  lemma FailureWritesOver(lib: Library, s: State, tx: Transaction, out: ReplayOutput)
    requires NonceSparesSysvars(lib) && out.execution.None? && FailedIncluded(out)
    ensures WrittenOver(s.store, Commit(lib, s.store, Queue(s.cache), tx, out).store, CommitWrites(s.store, tx, out))
  {
    var w := Withdraw(s.store, tx.message.keys, out.fee.value).store;
    var writes := CommitWrites(s.store, tx, out);
    assert w == s.store + writes;
    if out.instructions != [] {
      var after := lib.advanceNonce(w, Queue(s.cache), tx, out.instructions[0]);
      forall x ensures WrittenAt(s.store, after, writes, SysvarKey(x)) {
        assert SameAt(w, after, SysvarKey(x));
      }
    }
  }

  lemma SendCoherentExactly(lib: Library, s: State, step: Step)
    requires step.Send? && Coherent(lib, s) && NonceSparesSysvars(lib)
    ensures Coherent(lib, Apply(lib, s, step)) <==> Mirrored(s.cache, RawWrites(lib, s, step))
  {
    ExecuteFrame(lib, step.replay, s, step.tx, false);
    if Report(lib, s, step).Some? {
      var tx := Transaction(step.tx.signatures, Admit(lib, s, step.tx).value);
      CommitWritesOver(lib, s, tx, Report(lib, s, step).value);
      RawWritesCoherentExactly(lib, ViewsOf(s), Apply(lib, s, step).store, RawWrites(lib, s, step));
    }
  }

  lemma SysvarStepCoherent(lib: Library, s: State, step: Step)
    requires WritesSysvars(step) && LawfulCodec(lib) && Coherent(lib, s)
    ensures Coherent(lib, Apply(lib, s, step)) && RawWrites(lib, s, step) == map[]
  {
    match step
    case PutAccount(k, a) => SetAccountCoherent(lib, s, k, a);
    case PutSysvar(k, data) => SetSysvarDataCoherent(lib, s, k, data);
    case Warp(slot) => WarpCoherent(lib, s, slot);
    case Expire => ExpireCoherent(lib, s);
    case ResetSysvars => InstallSysvarDefaultsCoherent(lib, ViewsOf(s), s.blockhashes);
  }

  lemma HostWritesOver(lib: Library, s: State, step: Step)
    requires !WritesSysvars(step) && !step.Send?
    ensures WrittenOver(s.store, Apply(lib, s, step).store, RawWrites(lib, s, step))
  {
    if step.Simulate? {
      ExecuteFrames(lib, step.replay, s, step.tx, true);
    }
    assert Apply(lib, s, step).store == s.store + RawWrites(lib, s, step);
  }

  /** Every operation keeps the three views of every sysvar together, unless it stores an account
      at a sysvar address without refreshing the cache: then exactly when that account is the one
      the mirror already holds. */
  lemma CoherentStep(lib: Library, s: State, step: Step)
    requires LawfulCodec(lib) && NonceSparesSysvars(lib) && Coherent(lib, s)
    ensures Coherent(lib, Apply(lib, s, step)) <==> Mirrored(s.cache, RawWrites(lib, s, step))
  {
    if step.Send? {
      SendCoherentExactly(lib, s, step);
    } else if WritesSysvars(step) {
      SysvarStepCoherent(lib, s, step);
    } else {
      HostWritesOver(lib, s, step);
      OtherStepsKeepCache(lib, s, step);
      RawWritesCoherentExactly(lib, ViewsOf(s), Apply(lib, s, step).store, RawWrites(lib, s, step));
    }
  }

  /** An input that breaks coherence: a program installed under loader v2 at a sysvar id, whose
      mirror is never executable when the engine wrote it. */
  lemma InstallOverSysvarBreaks(lib: Library, s: State, x: Sysvar, elf: Bytes)
    requires LawfulCodec(lib) && NonceSparesSysvars(lib) && Coherent(lib, s)
    requires RentVar in s.cache.typed && elf != []
    requires x in s.cache.mirror ==> !s.cache.mirror[x].executable
    ensures !Coherent(lib, Apply(lib, s, PutProgramUnder(SysvarKey(x), elf, LoaderV2)))
  {
    var step := PutProgramUnder(SysvarKey(x), elf, LoaderV2);
    CoherentStep(lib, s, step);
    assert SysvarKey(x) in RawWrites(lib, s, step) && RawWrites(lib, s, step)[SysvarKey(x)].executable;
  }

  /** The accounts that `New` stores without refreshing the cache. */
  function GenesisWrites(lib: Library, o: Origin): Store {
    (o.natives + SetDefaultPrograms(lib, Genesis(lib, o).cache, o.defaults).accounts)[o.airdropKey := PlainAccount(AIRDROP_POOL)]
  }

  lemma GenesisViewsCoherent(lib: Library, e: State)
    requires LawfulCodec(lib) && CoherentViews(lib, ViewsOf(e)) && |e.blockhashes| == 1
    ensures CoherentViews(lib, GenesisViews(lib, e))
  {
    InstallSysvarDefaultsCoherent(lib, ViewsOf(e), e.blockhashes);
    SyncCoherent(lib, InstallSysvarDefaults(lib, ViewsOf(e), e.blockhashes), e.blockhashes, e.recentFee);
  }

  lemma GenesisWritesOver(lib: Library, o: Origin)
    ensures var w := GenesisViews(lib, Empty(lib, o.airdropKey));
            WrittenOver(w.store, Genesis(lib, o).store, GenesisWrites(lib, o)) && Genesis(lib, o).cache == w.cache
  {
  }

  /** A fresh instance is coherent exactly when none of those replaces a sysvar by something else. */
  lemma GenesisCoherent(lib: Library, o: Origin)
    requires LawfulCodec(lib)
    ensures Coherent(lib, Genesis(lib, o)) <==> Mirrored(Genesis(lib, o).cache, GenesisWrites(lib, o))
  {
    var e := Empty(lib, o.airdropKey);
    GenesisViewsCoherent(lib, e);
    GenesisWritesOver(lib, o);
    RawWritesCoherentExactly(lib, GenesisViews(lib, e), Genesis(lib, o).store, GenesisWrites(lib, o));
  }

  /** No fixed account, no program and no airdrop pool of a fresh instance lies at a sysvar address. */
  predicate AvoidsSysvars(lib: Library, o: Origin) {
    && (forall k :: k in o.natives ==> !k.SysvarKey?)
    && (forall i :: 0 <= i < |o.defaults| ==> ProgramAvoidsSysvars(lib, o.defaults[i].id))
    && !o.airdropKey.SysvarKey?
  }

  predicate ProgramAvoidsSysvars(lib: Library, id: Key) {
    !id.SysvarKey? && (lib.programData(id).Some? ==> !lib.programData(id).value.SysvarKey?)
  }

  lemma {:induction false} DefaultsAvoidSysvars(lib: Library, cache: Cache, ps: seq<DefaultProgram>)
    requires forall i :: 0 <= i < |ps| ==> ProgramAvoidsSysvars(lib, ps[i].id)
    ensures forall k :: k in SetDefaultPrograms(lib, cache, ps).accounts ==> !k.SysvarKey?
  {
    if ps != [] {
      DefaultsAvoidSysvars(lib, cache, ps[..|ps| - 1]);
      assert ProgramAvoidsSysvars(lib, ps[|ps| - 1].id);
    }
  }

  lemma AvoidingGenesisCoherent(lib: Library, o: Origin)
    requires LawfulCodec(lib) && AvoidsSysvars(lib, o)
    ensures Coherent(lib, Genesis(lib, o))
  {
    GenesisCoherent(lib, o);
    DefaultsAvoidSysvars(lib, Genesis(lib, o).cache, o.defaults);
  }

  ghost predicate DataMirrors(cache: Cache) {
    forall x :: x in cache.mirror ==> !cache.mirror[x].executable
  }

  lemma InstalledMirror(lib: Library, w: Views, x: Sysvar, v: SysvarValue, data: Bytes)
    requires DataMirrors(w.cache)
    ensures DataMirrors(Install(lib, w, x, v, data).cache)
  {
  }

  /** Every mirror the installation of sysvars leaves is a data account. */
  lemma {:induction false} InstalledMirrors(lib: Library, w: Views, items: seq<Default>)
    requires DataMirrors(w.cache)
    ensures DataMirrors(InstallAll(lib, w, items).cache)
  {
    if items != [] {
      var rest, item := items[..|items| - 1], items[|items| - 1];
      InstalledMirrors(lib, w, rest);
      InstalledMirror(lib, InstallAll(lib, w, rest), item.sysvar, item.value, item.data);
    }
  }

  lemma GenesisMirrors(lib: Library, o: Origin)
    ensures RentVar in Genesis(lib, o).cache.typed && DataMirrors(Genesis(lib, o).cache)
  {
    var e := Empty(lib, o.airdropKey);
    var items := Defaults(lib, DefaultSlotHashes(e.blockhashes));
    InstallAllTyped(lib, ViewsOf(e), items, 1);
    InstalledMirrors(lib, ViewsOf(e), items);
  }

  /** In particular on a fresh instance, for every sysvar and every program. */
  lemma InstallBreaksFreshInstance(lib: Library, o: Origin, x: Sysvar, elf: Bytes)
    requires LawfulCodec(lib) && NonceSparesSysvars(lib) && elf != []
    requires Coherent(lib, Genesis(lib, o))
    ensures !Coherent(lib, Apply(lib, Genesis(lib, o), PutProgramUnder(SysvarKey(x), elf, LoaderV2)))
  {
    GenesisMirrors(lib, o);
    InstallOverSysvarBreaks(lib, Genesis(lib, o), x, elf);
  }

  /** The step stores at sysvar addresses only what is mirrored, or refreshes the cache. */
  ghost predicate RawlyMirrored(lib: Library, s: State, step: Step) {
    Mirrored(s.cache, RawWrites(lib, s, step))
  }

  lemma CoherentNext(lib: Library, states: seq<State>, steps: seq<Step>, i: nat)
    requires LawfulCodec(lib) && NonceSparesSysvars(lib) && IsRun(lib, states, steps) && i < |steps|
    requires Coherent(lib, states[i]) && RawlyMirrored(lib, states[i], steps[i])
    ensures Coherent(lib, states[i + 1])
  {
    CoherentStep(lib, states[i], steps[i]);
    assert StepAt(lib, states, steps, i);
  }

  ghost predicate CoherenceGoesOn(lib: Library, states: seq<State>, i: nat) {
    i + 1 < |states| && Coherent(lib, states[i]) ==> Coherent(lib, states[i + 1])
  }

  lemma {:induction false} CoherenceChain(lib: Library, states: seq<State>, n: nat)
    requires n < |states| && Coherent(lib, states[0]) && forall i :: 0 <= i < n ==> CoherenceGoesOn(lib, states, i)
    ensures Coherent(lib, states[n])
  {
    if n > 0 {
      CoherenceChain(lib, states, n - 1);
      assert CoherenceGoesOn(lib, states, n - 1);
    }
  }

  lemma CoherentAlong(lib: Library, states: seq<State>, steps: seq<Step>, n: nat)
    requires LawfulCodec(lib) && NonceSparesSysvars(lib) && IsRun(lib, states, steps) && n < |states|
    requires Coherent(lib, states[0])
    requires forall k :: 0 <= k < n ==> RawlyMirrored(lib, states[k], steps[k])
    ensures Coherent(lib, states[n])
  {
    forall i | 0 <= i < n ensures CoherenceGoesOn(lib, states, i) {
      if Coherent(lib, states[i]) {
        CoherentNext(lib, states, steps, i);
      }
    }
    CoherenceChain(lib, states, n);
  }

  /** Sysvar coherence in every reachable state: a stored sysvar account is the mirrored account, and
      its bytes decode to the typed cache value. The run may drain sysvar accounts, and store any
      account at a sysvar address by an operation that refreshes the cache. */
  lemma SysvarCoherence(lib: Library, o: Origin, states: seq<State>, steps: seq<Step>, n: nat, x: Sysvar)
    requires LawfulCodec(lib) && NonceSparesSysvars(lib)
    requires FreshRun(lib, o, states, steps) && n < |states|
    requires AvoidsSysvars(lib, o)
    requires forall k :: 0 <= k < n ==> RawlyMirrored(lib, states[k], steps[k])
    ensures SysvarKey(x) in states[n].store ==>
              && x in states[n].cache.mirror && states[n].cache.mirror[x] == states[n].store[SysvarKey(x)]
              && x in states[n].cache.typed
              && lib.decodeSysvar(x, states[n].store[SysvarKey(x)].data) == Some(states[n].cache.typed[x])
  {
    AvoidingGenesisCoherent(lib, o);
    CoherentAlong(lib, states, steps, n);
    assert CoherentAt(lib, states[n].store, states[n].cache, x);
  }

  // ----- blockhash chain -----

  /** The hash after `n` expiries. */
  function Chain(lib: Library, n: nat): Hash {
    lib.sha256(if n == 0 then Ascii("genesis") else Chain(lib, n - 1))
  }

  /** The number of expiries among the first `n` steps. */
  function Expiries(steps: seq<Step>, n: nat): nat
    requires n <= |steps|
  {
    if n == 0 then 0 else Expiries(steps, n - 1) + if steps[n - 1].Expire? then 1 else 0
  }

  lemma ChainNext(lib: Library, q: seq<Hash>, steps: seq<Step>, n: nat)
    requires 0 < n <= |steps| && q == [Chain(lib, Expiries(steps, n - 1))]
    ensures NextQueue(lib, q, steps[n - 1]) == [Chain(lib, Expiries(steps, n))]
  {
  }

  lemma {:induction false} ChainAlong(lib: Library, states: seq<State>, steps: seq<Step>, n: nat)
    requires IsRun(lib, states, steps) && n < |states| && states[0].blockhashes == [Chain(lib, 0)]
    ensures states[n].blockhashes == [Chain(lib, Expiries(steps, n))]
  {
    if n > 0 {
      ChainAlong(lib, states, steps, n - 1);
      QuietAt(lib, states, steps, n - 1);
      ChainNext(lib, states[n - 1].blockhashes, steps, n);
    }
  }

  /** Right after an expiry the cached RecentBlockhashes is the new hash alone, with the governor's
      fee. */
  lemma ExpiryQueue(lib: Library, s: State, h: Hash)
    requires s.blockhashes == [h]
    ensures Queue(ExpireBlockhash(lib, s).cache) == [RecentEntry(lib.sha256(h), s.governorFee)]
  {
    assert RecentQueue([lib.sha256(h)], s.governorFee) == [RecentEntry(lib.sha256(h), s.governorFee)];
  }

  /** Its account decodes to it as well. */
  lemma ExpiryInstallsQueue(lib: Library, s: State, h: Hash)
    requires LawfulCodec(lib) && s.blockhashes == [h]
    ensures var s' := ExpireBlockhash(lib, s);
            && SysvarKey(RecentBlockhashesVar) in s'.store
            && lib.decodeSysvar(RecentBlockhashesVar, s'.store[SysvarKey(RecentBlockhashesVar)].data)
               == Some(RecentValue([RecentEntry(lib.sha256(h), s.governorFee)]))
  {
    ExpiryQueue(lib, s, h);
    var v := RecentValue(RecentQueue([lib.sha256(h)], s.governorFee));
    assert Encodable(RecentBlockhashesVar, v);
    var data := lib.encodeSysvar(RecentBlockhashesVar, v);
    assert Padded(RecentBlockhashesVar, data) == data;
  }

  /** In every reachable state the queue is the single hash that the expiries so far have chained
      from "genesis", whatever else ran; right after an expiry RecentBlockhashes holds that hash. */
  lemma BlockhashChain(lib: Library, o: Origin, states: seq<State>, steps: seq<Step>, n: nat)
    requires FreshRun(lib, o, states, steps) && n < |states|
    ensures states[n].blockhashes == [Chain(lib, Expiries(steps, n))]
    ensures n > 0 && steps[n - 1].Expire? ==>
              Queue(states[n].cache) == [RecentEntry(Chain(lib, Expiries(steps, n)), DEFAULT_FEE)]
  {
    GenesisQueue(lib, o);
    ChainAlong(lib, states, steps, n);
    if n > 0 && steps[n - 1].Expire? {
      QueueAfterExpiry(lib, states, steps, n);
    }
  }

  lemma QueueAfterExpiry(lib: Library, states: seq<State>, steps: seq<Step>, n: nat)
    requires IsRun(lib, states, steps) && states[0].blockhashes == [Chain(lib, 0)]
    requires 0 < n < |states| && steps[n - 1].Expire?
    ensures Queue(states[n].cache) == [RecentEntry(Chain(lib, Expiries(steps, n)), states[0].governorFee)]
  {
    var s := states[n - 1];
    ChainAlong(lib, states, steps, n - 1);
    ChainNext(lib, s.blockhashes, steps, n);
    RunConstants(lib, states, steps, n - 1);
    ExpiryQueueAt(lib, states, steps, n - 1, s.blockhashes[0]);
  }

  lemma ExpiryQueueAt(lib: Library, states: seq<State>, steps: seq<Step>, i: nat, h: Hash)
    requires IsRun(lib, states, steps) && i < |steps| && steps[i].Expire? && states[i].blockhashes == [h]
    ensures Queue(states[i + 1].cache) == [RecentEntry(lib.sha256(h), states[i].governorFee)]
  {
    ExpiryQueue(lib, states[i], h);
    assert StepAt(lib, states, steps, i);
  }

  lemma GenesisQueue(lib: Library, o: Origin)
    ensures Genesis(lib, o).blockhashes == [Chain(lib, 0)] && Genesis(lib, o).governorFee == DEFAULT_FEE
  {
  }

  /** What happens to a duplicate right after an expiry: it is reported as already processed while
      its age is valid or not checked, that is for the fresh hash, the sentinel and a usable nonce;
      otherwise, the old hash included, it goes on to replay, which reports the stale blockhash. */
  lemma ExpiredDuplicateReachesReplay(lib: Library, s: State, tx: Transaction, m: Message, h: Hash)
    requires s.blockhashes == [h] && s.sigverify && lib.verifySignatures(tx)
    requires s.history.capacity > 0 && tx.signatures != [] && tx.signatures[0] in s.history.entries
    requires Resolve(lib, ExpireBlockhash(lib, s), tx.message) == Ok(m)
    ensures var s', first := ExpireBlockhash(lib, s), FirstInstruction(m);
            Admit(lib, s', tx) ==
            if || !s.blockhashCheck
               || m.recent == lib.sha256(h)
               || m.recent == lib.sha256(Ascii(SENTINEL_SEED))
               || (first.Some? && lib.nonceAllows(first.value, m.recent, s'.store))
            then Err("AlreadyProcessed") else Ok(Override(s.budget, m))
  {
    ExpiryQueue(lib, s, h);
    var s' := ExpireBlockhash(lib, s);
    SysvarFrame(lib, s, Expire);
    OneQueued(Queue(s'.cache), RecentEntry(lib.sha256(h), s.governorFee), m.recent);
    assert s'.blockhashCheck == s.blockhashCheck && s'.sigverify == s.sigverify;
  }

  lemma OneQueued(q: seq<RecentEntry>, e: RecentEntry, h: Hash)
    requires q == [e]
    ensures InQueue(q, h) <==> e.hash == h
  {
    assert q[0] == e;
  }
}
