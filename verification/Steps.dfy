/** The public operations of an instance as steps of a state machine, and runs of steps. */
module Steps {
  import opened Types
  import opened Messages
  import opened ComputeBudgets
  import opened Engine
  import opened Sysvars
  import opened Programs
  import opened Histories
  import opened Pipeline

  const DEFAULT_FEE: u64 := 5000
  const AIRDROP_POOL: u64 := 1_000_000_000_000_000
  const DEFAULT_CAPACITY: nat := 32

  function PlainAccount(lamports: u64): Account {
    Account(lamports, [], SystemProgram, false, 0)
  }

  function Empty(lib: Library, airdropKey: Key): State {
    State(map[], Cache(map[], map[]), map[], 0, [lib.sha256(Ascii("genesis"))], DEFAULT_FEE, 0,
          true, true, None, History(DEFAULT_CAPACITY, map[], []), airdropKey)
  }

  /** What `New` is given by fixed data and by chance: the builtin, precompile and feature accounts,
      the default programs, and the airdrop key. */
  datatype Origin = Origin(natives: Store, defaults: seq<DefaultProgram>, airdropKey: Key)

  function GenesisViews(lib: Library, e: State): Views {
    SyncRecentBlockhashes(lib, InstallSysvarDefaults(lib, ViewsOf(e), e.blockhashes), e.blockhashes, e.recentFee)
  }

  /** The state `New` builds: sysvars, blockhash queue, fixed accounts, default programs, and the
      airdrop pool. */
  function Genesis(lib: Library, o: Origin): State {
    var e := Empty(lib, o.airdropKey);
    var w := GenesisViews(lib, e);
    var s := e.(store := w.store + o.natives, cache := w.cache);
    var s' := Installed(s, SetDefaultPrograms(lib, s.cache, o.defaults).accounts);
    s'.(store := s'.store[o.airdropKey := PlainAccount(AIRDROP_POOL)])
  }

  datatype Step =
    | Send(replay: Replay, tx: Transaction)
    | Simulate(replay: Replay, tx: Transaction)
    | PutAccount(key: Key, account: Account)
    | PutProgram(id: Key, elf: Bytes)
    | PutProgramUnder(id: Key, elf: Bytes, loader: Key)
    | PutDefaultPrograms(programs: seq<DefaultProgram>)
    | PutSysvar(key: Key, data: Bytes)
    | Warp(slot: u64)
    | Expire
    | ResetSysvars
    | PutNatives(natives: Store)
    | PutLamports(lamports: u64)
    | PutCapacity(capacity: int)
    | PutBudget(budget: ComputeBudget)
    | PutSigverify(on: bool)
    | PutBlockhashCheck(on: bool)

  /** The accounts that a program install writes; none when it is refused. */
  function InstalledBy(lib: Library, cache: Cache, step: Step): Store {
    match step
    case PutProgram(id, elf) => Accepted(AddProgram(lib, cache, id, elf))
    case PutProgramUnder(id, elf, loader) => Accepted(AddProgramWithLoader(lib, cache, id, elf, loader))
    case PutDefaultPrograms(programs) => SetDefaultPrograms(lib, cache, programs).accounts
    case _ => map[]
  }

  function Apply(lib: Library, s: State, step: Step): State {
    match step
    case Send(replay, tx) => Execute(lib, replay, s, tx, false).state
    case Simulate(replay, tx) => Execute(lib, replay, s, tx, true).state
    case PutAccount(k, a) => Settle(s, SetAccount(lib, s, k, a))
    case PutProgram(_, _) => Installed(s, InstalledBy(lib, s.cache, step))
    case PutProgramUnder(_, _, _) => Installed(s, InstalledBy(lib, s.cache, step))
    case PutDefaultPrograms(_) => Installed(s, InstalledBy(lib, s.cache, step))
    case PutSysvar(k, data) => Settle(s, SetSysvarData(lib, s, k, data))
    case Warp(slot) => WarpToSlot(lib, s, slot)
    case Expire => ExpireBlockhash(lib, s)
    case ResetSysvars => SetSysvars(lib, s)
    case PutNatives(natives) => s.(store := s.store + natives)
    case PutLamports(n) => s.(store := s.store[s.airdropKey := PlainAccount(n)])
    case PutCapacity(c) => s.(history := SetCapacity(s.history, c))
    case PutBudget(b) => if Honored(b) then s.(budget := Some(b)) else s
    case PutSigverify(on) => s.(sigverify := on)
    case PutBlockhashCheck(on) => s.(blockhashCheck := on)
  }

  predicate StepAt(lib: Library, states: seq<State>, steps: seq<Step>, i: nat)
    requires i < |steps| && |states| == |steps| + 1
  {
    states[i + 1] == Apply(lib, states[i], steps[i])
  }

  /** `states` are the states that a run of `steps` goes through, its start included. */
  ghost predicate IsRun(lib: Library, states: seq<State>, steps: seq<Step>) {
    && |states| == |steps| + 1
    && forall i :: 0 <= i < |steps| ==> StepAt(lib, states, steps, i)
  }

  function RunFrom(lib: Library, s: State, steps: seq<Step>): (states: seq<State>)
    ensures |states| == |steps| + 1
  {
    if steps == [] then [s]
    else
      var before := RunFrom(lib, s, steps[..|steps| - 1]);
      before + [Apply(lib, before[|steps| - 1], steps[|steps| - 1])]
  }

  lemma RunSnoc(lib: Library, before: seq<State>, steps: seq<Step>, step: Step)
    requires IsRun(lib, before, steps)
    ensures IsRun(lib, before + [Apply(lib, before[|steps|], step)], steps + [step])
  {
    var states, longer := before + [Apply(lib, before[|steps|], step)], steps + [step];
    forall i | 0 <= i < |longer| ensures StepAt(lib, states, longer, i) {
      if i < |steps| {
        assert StepAt(lib, before, steps, i);
      }
    }
  }

  /** Every sequence of steps is a run from every state. */
  lemma {:induction false} RunsExist(lib: Library, s: State, steps: seq<Step>)
    ensures IsRun(lib, RunFrom(lib, s, steps), steps) && RunFrom(lib, s, steps)[0] == s
  {
    if steps != [] {
      var n := |steps| - 1;
      RunsExist(lib, s, steps[..n]);
      RunSnoc(lib, RunFrom(lib, s, steps[..n]), steps[..n], steps[n]);
      assert steps == steps[..n] + [steps[n]];
    }
  }

  /** A run that starts at a fresh instance. */
  ghost predicate FreshRun(lib: Library, origin: Origin, states: seq<State>, steps: seq<Step>) {
    IsRun(lib, states, steps) && states[0] == Genesis(lib, origin)
  }
}
