/** The instance itself: the fields of svm.go's `LiteSVM` and the methods that update them, each
    proved against the specification of its operation and shown to keep what holds in every
    reachable state. Together they carry out every run of steps. */
module LiteSVMs {
  import opened Types
  import opened Messages
  import opened ComputeBudgets
  import opened Engine
  import opened Ledger
  import opened Sysvars
  import opened SysvarCodecs
  import opened VectorSysvars
  import opened Programs
  import opened Lookups
  import opened Outcomes
  import opened Histories
  import opened Pipeline
  import opened Steps
  import opened Runs
  import opened Invariants
  import opened Trips
  import opened Writes

  /** Fills the programdata buffer: tag, slot, authority flag, then the ELF. */
  method ProgramDataBuffer(elf: Bytes) returns (data: Bytes)
    ensures data == ProgramDataAccountData(elf)
  {
    var buf := new byte[ELF_OFFSET + |elf|](_ => 0);
    buf[0] := 3;
    buf[12] := 1;
    for i := 0 to |elf|
      invariant forall j :: 0 <= j < ELF_OFFSET ==> buf[j] == if j == 0 then 3 else if j == 12 then 1 else 0
      invariant forall j :: 0 <= j < i ==> buf[ELF_OFFSET + j] == elf[j]
    {
      buf[ELF_OFFSET + i] := elf[i];
    }
    data := buf[..];
    assert data[..ELF_OFFSET] == ProgramDataAccountData(elf)[..ELF_OFFSET];
    assert data[ELF_OFFSET..] == elf == ProgramDataAccountData(elf)[ELF_OFFSET..];
    assert data == data[..ELF_OFFSET] + data[ELF_OFFSET..];
    assert ProgramDataAccountData(elf) == ProgramDataAccountData(elf)[..ELF_OFFSET] + ProgramDataAccountData(elf)[ELF_OFFSET..];
  }

  class LiteSVM {
    const lib: Library
    const governorFee: u64
    const airdropKey: Key
    var store: Store
    var cache: Cache
    var programs: map<Key, Bytes>
    var slot: u64
    var blockhashes: seq<Hash>
    var recentFee: u64
    var sigverify: bool
    var blockhashCheck: bool
    var budget: Option<ComputeBudget>
    var historyCap: nat
    var history: map<Signature, Outcome>
    var historyOrder: seq<Signature>

    function Snapshot(): State
      reads this
    {
      State(store, cache, programs, slot, blockhashes, governorFee, recentFee, sigverify, blockhashCheck,
            budget, History(historyCap, history, historyOrder), airdropKey)
    }

    function CurrentViews(): Views
      reads this
    {
      Views(store, cache)
    }

    /** What every public method relies on and keeps: the history is consistent and within its
        capacity, the budget honored, the queue a single hash, the slot the Clock's. */
    ghost predicate Valid()
      reads this
    {
      Sound(lib, Snapshot())
    }

    /** The views of every sysvar were together before and still are, under the codec law. */
    twostate predicate StaysCoherent()
      reads this
    {
      LawfulCodec(lib) && old(Coherent(lib, Snapshot())) ==> Coherent(lib, Snapshot())
    }

    /** The compiled programs were fresh before and still are. */
    twostate predicate StaysFresh()
      reads this
    {
      old(CacheAgrees(Snapshot())) ==> CacheAgrees(Snapshot())
    }

    constructor (lib: Library, origin: Origin)
      ensures Valid() && this.lib == lib
      ensures Snapshot() == Genesis(lib, origin)
    {
      this.lib, airdropKey, governorFee := lib, origin.airdropKey, DEFAULT_FEE;
      store, cache, programs, slot := map[], Cache(map[], map[]), map[], 0;
      blockhashes, recentFee := [lib.sha256(Ascii("genesis"))], 0;
      sigverify, blockhashCheck, budget := true, true, None;
      historyCap, history, historyOrder := DEFAULT_CAPACITY, map[], [];
      new;
      InstallGenesis(origin);
      GenesisSound(lib, origin);
    }

    method InstallGenesis(origin: Origin)
      requires Snapshot() == Empty(lib, origin.airdropKey)
      modifies `store, `cache, `programs
      ensures Snapshot() == Genesis(lib, origin)
    {
      InstallSysvarDefaults();
      SyncRecentBlockhashes();
      assert CurrentViews() == GenesisViews(lib, Empty(lib, origin.airdropKey));
      InstallFixed(origin);
    }

    method InstallFixed(origin: Origin)
      modifies `store, `programs
      ensures var s := old(Snapshot()).(store := old(store) + origin.natives);
              var s' := Installed(s, Programs.SetDefaultPrograms(lib, cache, origin.defaults).accounts);
              Snapshot() == s'.(store := s'.store[airdropKey := PlainAccount(AIRDROP_POOL)])
    {
      store := store + origin.natives;
      var err := InstallDefaultPrograms(origin.defaults);
      store := store[airdropKey := PlainAccount(AIRDROP_POOL)];
    }

    // ----- sysvars -----

    method WriteSysvarAccount(x: Sysvar, data: Bytes)
      modifies `store, `cache
      ensures CurrentViews() == Sysvars.WriteSysvarAccount(lib, old(CurrentViews()), x, data)
    {
      var d := data;
      if |d| < FixedSize(x) {
        d := d + Zeros(FixedSize(x) - |d|);
      }
      var lamports := 1;
      if RentVar in cache.typed {
        lamports := lib.minimumBalance(cache.typed[RentVar], |d|);
      }
      var acct := Account(lamports, d, SysvarOwner, false, 0);
      store := store[SysvarKey(x) := acct];
      cache := cache.(mirror := cache.mirror[x := acct]);
    }

    method Install(x: Sysvar, v: SysvarValue, data: Bytes)
      modifies `store, `cache
      ensures CurrentViews() == Sysvars.Install(lib, old(CurrentViews()), x, v, data)
    {
      cache := cache.(typed := cache.typed[x := v]);
      WriteSysvarAccount(x, data);
    }

    method InstallInOrder(items: seq<Default>)
      modifies `store, `cache
      ensures CurrentViews() == InstallAll(lib, old(CurrentViews()), items)
    {
      for i := 0 to |items|
        invariant CurrentViews() == InstallAll(lib, old(CurrentViews()), items[..i])
      {
        assert items[..i + 1][..i] == items[..i];
        Install(items[i].sysvar, items[i].value, items[i].data);
      }
      assert items[..|items|] == items;
    }

    method InstallSysvarDefaults()
      modifies `store, `cache
      ensures CurrentViews() == Sysvars.InstallSysvarDefaults(lib, old(CurrentViews()), blockhashes)
    {
      var slotHashes := SlotHashesValue(if |blockhashes| > 0 then [Keyed(0, blockhashes[0])] else []);
      InstallInOrder(Defaults(lib, slotHashes));
      store := store[StakeConfigKey := STAKE_CONFIG];
    }

    method RefreshCache(k: Key, data: Bytes) returns (err: Option<SysvarError>)
      modifies `cache, `slot
      ensures match Sysvars.RefreshCache(lib, old(cache), old(slot), k, data)
              case Ok(r) => err == None && cache == r.cache && slot == r.slot
              case Err(e) => err == Some(e) && cache == old(cache) && slot == old(slot)
    {
      if !k.SysvarKey? {
        return Some(UnsupportedSysvar);
      }
      var v := lib.decodeSysvar(k.sysvar, data);
      if v.None? {
        return Some(UndecodableSysvar);
      }
      cache := cache.(typed := cache.typed[k.sysvar := v.value]);
      if k.sysvar.ClockVar? && v.value.ClockValue? {
        slot := v.value.clock.slot;
      }
      err := None;
    }

    method MirrorAccount(k: Key, acct: Account) returns (err: Option<SysvarError>)
      modifies `cache, `slot
      ensures match Sysvars.MirrorAccount(lib, old(cache), old(slot), k, acct)
              case Ok(r) => err == None && cache == r.cache && slot == r.slot
              case Err(e) => err == Some(e) && cache == old(cache) && slot == old(slot)
    {
      if !k.SysvarKey? {
        return None;
      }
      err := RefreshCache(k, acct.data);
      if err.None? {
        cache := cache.(mirror := cache.mirror[k.sysvar := acct]);
      }
    }

    method SetSysvars()
      requires Valid()
      modifies `store, `cache, `slot
      ensures Valid() && StaysCoherent()
      ensures Snapshot() == Sysvars.SetSysvars(lib, old(Snapshot()))
    {
      DefaultClock(lib, CurrentViews(), blockhashes);
      if LawfulCodec(lib) && Coherent(lib, Snapshot()) {
        InstallSysvarDefaultsCoherent(lib, CurrentViews(), blockhashes);
      }
      InstallSysvarDefaults();
      slot := 0;
    }

    /** Decodes first and stores after; a failed decode changes nothing. */
    method SetSysvarData(k: Key, data: Bytes) returns (err: Option<SysvarError>)
      requires Valid()
      modifies `store, `cache, `slot
      ensures Valid() && StaysCoherent()
      ensures var r := Sysvars.SetSysvarData(lib, old(Snapshot()), k, data);
              Snapshot() == Settle(old(Snapshot()), r) && err == if r.Ok? then None else Some(r.error)
    {
      if KindLaw(lib) {
        SetSysvarDataClock(lib, Snapshot(), k, data);
      }
      if LawfulCodec(lib) && Coherent(lib, Snapshot()) {
        SetSysvarDataCoherent(lib, Snapshot(), k, data);
      }
      err := RefreshCache(k, data);
      if err.None? {
        WriteSysvarAccount(k.sysvar, data);
      }
    }

    /** Whatever the entries, the canonical list of them is installed. */
    method SetSlotHashes(items: seq<SlotHash>) returns (err: Option<SysvarError>)
      requires Valid()
      modifies `store, `cache, `slot
      ensures Valid() && StaysCoherent()
      ensures UsesCodecs(lib) ==>
                && err == None
                && SlotHashesVar in cache.typed
                && cache.typed[SlotHashesVar] == SlotHashesValue(Canonical(items, MAX_ENTRIES))
                && SysvarKey(SlotHashesVar) in store && |store[SysvarKey(SlotHashesVar)].data| == 8 + 512 * 40
    {
      var canonical := Canonicalize(items, MAX_ENTRIES);
      err := SetSysvarData(SysvarKey(SlotHashesVar), EncodeSysvar(SlotHashesValue(canonical)));
      if UsesCodecs(lib) {
        SetSlotHashesInstalls(lib, old(Snapshot()), items);
      }
    }

    method SetStakeHistory(items: seq<Keyed<StakeEntry>>) returns (err: Option<SysvarError>)
      requires Valid()
      modifies `store, `cache, `slot
      ensures Valid() && StaysCoherent()
      ensures UsesCodecs(lib) ==>
                && err == None
                && StakeHistoryVar in cache.typed
                && cache.typed[StakeHistoryVar] == StakeHistoryValue(Canonical(items, MAX_ENTRIES))
                && SysvarKey(StakeHistoryVar) in store && |store[SysvarKey(StakeHistoryVar)].data| == 8 + 512 * 32
    {
      var canonical := Canonicalize(items, MAX_ENTRIES);
      err := SetSysvarData(SysvarKey(StakeHistoryVar), EncodeSysvar(StakeHistoryValue(canonical)));
      if UsesCodecs(lib) {
        SetStakeHistoryInstalls(lib, old(Snapshot()), items);
      }
    }

    method WarpToSlot(target: u64)
      requires Valid()
      modifies `store, `cache, `slot
      ensures Valid() && StaysCoherent()
      ensures Snapshot() == Sysvars.WarpToSlot(lib, old(Snapshot()), target)
    {
      WarpAndExpireClock(lib, Snapshot(), target);
      if LawfulCodec(lib) && Coherent(lib, Snapshot()) {
        WarpCoherent(lib, Snapshot(), target);
      }
      var clock := GENESIS_CLOCK;
      if ClockVar in cache.typed && cache.typed[ClockVar].ClockValue? {
        clock := cache.typed[ClockVar].clock;
      }
      clock := clock.(slot := target);
      slot := target;
      Install(ClockVar, ClockValue(clock), lib.encodeSysvar(ClockVar, ClockValue(clock)));
    }

    // ----- blockhashes -----

    method SyncRecentBlockhashes()
      modifies `store, `cache
      ensures CurrentViews() == Sysvars.SyncRecentBlockhashes(lib, old(CurrentViews()), blockhashes, recentFee)
    {
      var rbh: seq<RecentEntry> := [];
      for i := 0 to |blockhashes|
        invariant |rbh| == i
        invariant forall j :: 0 <= j < i ==> rbh[j] == RecentEntry(blockhashes[j], recentFee)
        invariant CurrentViews() == old(CurrentViews())
      {
        rbh := rbh + [RecentEntry(blockhashes[i], recentFee)];
      }
      assert rbh == RecentQueue(blockhashes, recentFee);
      Install(RecentBlockhashesVar, RecentValue(rbh), lib.encodeSysvar(RecentBlockhashesVar, RecentValue(rbh)));
    }

    method RegisterBlockhash(h: Hash)
      modifies `blockhashes, `store, `cache
      ensures blockhashes == Registered(old(blockhashes), h)
      ensures CurrentViews() == Sysvars.SyncRecentBlockhashes(lib, old(CurrentViews()), blockhashes, recentFee)
    {
      blockhashes := [h] + blockhashes;
      if |blockhashes| > MAX_RECENT {
        blockhashes := blockhashes[..MAX_RECENT];
      }
      SyncRecentBlockhashes();
    }

    /** A reachable instance always has one. */
    method LatestBlockhash() returns (h: Option<Hash>)
      ensures h == if blockhashes == [] then None else Some(blockhashes[0])
      ensures Valid() ==> h.Some?
    {
      if |blockhashes| == 0 {
        return None;
      }
      h := Some(blockhashes[0]);
    }

    /** So expiring is never refused. */
    method ExpireBlockhash() returns (ok: bool)
      requires Valid()
      modifies `store, `cache, `blockhashes, `recentFee
      ensures Valid() && StaysCoherent() && ok
      ensures Snapshot() == Sysvars.ExpireBlockhash(lib, old(Snapshot()))
    {
      var prev := LatestBlockhash();
      if prev.None? {
        return false;
      }
      ghost var s := Snapshot();
      blockhashes := [];
      recentFee := governorFee;
      RegisterBlockhash(lib.sha256(prev.value));
      ok := true;
      assert Snapshot() == Sysvars.ExpireBlockhash(lib, s);
      WarpAndExpireClock(lib, s, 0);
      if LawfulCodec(lib) && Coherent(lib, s) {
        ExpireCoherent(lib, s);
      }
    }

    /** Makes `h` valid for one replay call and returns the cache to put back afterwards. */
    method InjectBlockhash(h: Hash) returns (restore: Cache)
      modifies `cache
      ensures cache == Injected(old(cache), h, governorFee)
      ensures restore == old(cache)
    {
      restore := cache;
      var prev := Queue(cache);
      for i := 0 to |prev|
        invariant forall j :: 0 <= j < i ==> prev[j].hash != h
        invariant cache == old(cache)
      {
        if prev[i].hash == h {
          return;
        }
      }
      cache := cache.(typed := cache.typed[RecentBlockhashesVar := RecentValue([RecentEntry(h, governorFee)] + prev)]);
    }

    // ----- accounts and programs -----

    /** Evicts the compiled program, then stores the account or deletes a drained one. */
    method WriteAccount(k: Key, acct: Account)
      modifies `store, `programs
      ensures programs == old(programs) - {k}
      ensures store == if acct.lamports == 0 then old(store) - {k} else old(store)[k := acct]
    {
      programs := programs - {k};
      if acct.lamports == 0 {
        store := store - {k};
      } else {
        store := store[k := acct];
      }
    }

    /** Refresh, evict, then store or delete; nothing on a failed decode. */
    method ReplaceAccount(k: Key, acct: Account) returns (err: Option<SysvarError>)
      modifies `store, `cache, `slot, `programs
      ensures var r := Sysvars.SetAccount(lib, old(Snapshot()), k, acct);
              Snapshot() == Settle(old(Snapshot()), r) && err == if r.Ok? then None else Some(r.error)
    {
      ghost var r := Sysvars.SetAccount(lib, Snapshot(), k, acct);
      err := MirrorAccount(k, acct);
      if err.None? {
        WriteAccount(k, acct);
      }
    }

    method SetAccount(k: Key, acct: Account) returns (err: Option<SysvarError>)
      requires Valid()
      modifies `store, `cache, `slot, `programs
      ensures Valid() && StaysCoherent() && StaysFresh()
      ensures var r := Sysvars.SetAccount(lib, old(Snapshot()), k, acct);
              Snapshot() == Settle(old(Snapshot()), r) && err == if r.Ok? then None else Some(r.error)
      ensures err.Some? <==> RefusesAccount(lib, k, acct)
      ensures err.None? ==> Placed(old(store), store, k, acct)
      ensures err.Some? ==> Snapshot() == old(Snapshot())
    {
      SetAccountPlaces(lib, Snapshot(), k, acct);
      SetAccountSound(lib, Snapshot(), k, acct);
      if Coherent(lib, Snapshot()) {
        SetAccountCoherent(lib, Snapshot(), k, acct);
      }
      if CacheAgrees(Snapshot()) {
        SetAccountAgrees(lib, Snapshot(), k, acct);
      }
      err := ReplaceAccount(k, acct);
    }

    method MinimumBalanceForRentExemption(dataLen: nat) returns (r: Result<u64, ProgramError>)
      ensures r == Rent(lib, cache, dataLen)
    {
      if RentVar !in cache.typed {
        return Err(RentMissing);
      }
      r := Ok(lib.minimumBalance(cache.typed[RentVar], dataLen));
    }

    /** The accounts an install writes, and what it evicts. */
    twostate predicate Wrote(accounts: Store)
      reads this
    {
      store == old(store) + accounts && programs == old(programs) - accounts.Keys
    }

    method AddProgramV1V2(id: Key, elf: Bytes, loader: Key) returns (err: Option<ProgramError>)
      modifies `store, `programs
      ensures Wrote(Accepted(Programs.AddProgramV1V2(lib, cache, id, elf, loader)))
      ensures err == ErrorOf(Programs.AddProgramV1V2(lib, cache, id, elf, loader))
    {
      var rent := MinimumBalanceForRentExemption(|elf|);
      if rent.Err? {
        return Some(rent.error);
      }
      var acct := Account(rent.value, elf, loader, true, 0);
      OneInstalled(store, id, acct);
      store := store[id := acct];
      programs := programs - {id};
      err := None;
    }

    method AddProgramV3(id: Key, elf: Bytes) returns (err: Option<ProgramError>)
      modifies `store, `programs
      ensures Wrote(Accepted(Programs.AddProgramV3(lib, cache, id, elf)))
      ensures err == ErrorOf(Programs.AddProgramV3(lib, cache, id, elf))
    {
      var derived := lib.programData(id);
      if derived.None? {
        return Some(NoProgramData);
      }
      var pd := derived.value;
      var progData := [2, 0, 0, 0] + lib.addressBytes(pd);
      var pdData := ProgramDataBuffer(elf);
      var rentProg := MinimumBalanceForRentExemption(|progData|);
      if rentProg.Err? {
        return Some(rentProg.error);
      }
      var rentPD := MinimumBalanceForRentExemption(|pdData|);
      if rentPD.Err? {
        return Some(rentPD.error);
      }
      var pdAcct := Account(rentPD.value, pdData, UpgradeableLoader, false, 0);
      var progAcct := Account(rentProg.value, progData, UpgradeableLoader, true, 0);
      TwoInstalled(store, programs, pd, pdAcct, id, progAcct);
      store := store[pd := pdAcct];
      store := store[id := progAcct];
      programs := programs - {pd};
      programs := programs - {id};
      err := None;
    }

    method AddProgram(id: Key, elf: Bytes) returns (err: Option<ProgramError>)
      requires Valid()
      modifies `store, `programs
      ensures Valid() && StaysFresh()
      ensures Wrote(Accepted(Programs.AddProgram(lib, cache, id, elf)))
      ensures err == ErrorOf(Programs.AddProgram(lib, cache, id, elf))
    {
      InstallAgreesIfFresh(Snapshot(), Accepted(Programs.AddProgram(lib, cache, id, elf)));
      if !lib.validProgram(elf) {
        return Some(InvalidProgram);
      }
      err := AddProgramV3(id, elf);
    }

    method AddProgramWithLoader(id: Key, elf: Bytes, loader: Key) returns (err: Option<ProgramError>)
      requires Valid()
      modifies `store, `programs
      ensures Valid() && StaysFresh()
      ensures Wrote(Accepted(Programs.AddProgramWithLoader(lib, cache, id, elf, loader)))
      ensures err == ErrorOf(Programs.AddProgramWithLoader(lib, cache, id, elf, loader))
    {
      InstallAgreesIfFresh(Snapshot(), Accepted(Programs.AddProgramWithLoader(lib, cache, id, elf, loader)));
      if |elf| == 0 {
        return Some(EmptyProgram);
      }
      if loader == LoaderV1 || loader == LoaderV2 {
        err := AddProgramV1V2(id, elf, loader);
      } else if loader == UpgradeableLoader {
        err := AddProgram(id, elf);
      } else {
        err := Some(UnknownLoader);
      }
    }

    method AddDefaultProgram(p: DefaultProgram) returns (err: Option<ProgramError>)
      modifies `store, `programs
      ensures Wrote(Accepted(Programs.AddDefaultProgram(lib, cache, p)))
      ensures err == ErrorOf(Programs.AddDefaultProgram(lib, cache, p))
    {
      if p.loader == LoaderV1 || p.loader == LoaderV2 {
        err := AddProgramV1V2(p.id, p.elf, p.loader);
      } else if p.loader == UpgradeableLoader {
        err := AddProgramV3(p.id, p.elf);
      } else {
        err := Some(UnknownLoader);
      }
    }

    method InstallDefaultPrograms(ps: seq<DefaultProgram>) returns (err: Option<ProgramError>)
      modifies `store, `programs
      ensures Wrote(Programs.SetDefaultPrograms(lib, cache, ps).accounts)
      ensures err == Programs.SetDefaultPrograms(lib, cache, ps).err
    {
      err := None;
      for i := 0 to |ps|
        invariant Wrote(Programs.SetDefaultPrograms(lib, cache, ps[..i]).accounts)
        invariant err == Programs.SetDefaultPrograms(lib, cache, ps[..i]).err == None
      {
        DefaultsSnoc(lib, cache, ps, i);
        MoreInstalled(old(store), old(programs), Programs.SetDefaultPrograms(lib, cache, ps[..i]).accounts,
                      Accepted(Programs.AddDefaultProgram(lib, cache, ps[i])));
        err := AddDefaultProgram(ps[i]);
        if err.Some? {
          return;
        }
      }
      assert ps[..|ps|] == ps;
    }

    method SetDefaultPrograms(ps: seq<DefaultProgram>) returns (err: Option<ProgramError>)
      requires Valid()
      modifies `store, `programs
      ensures Valid() && StaysFresh()
      ensures Wrote(Programs.SetDefaultPrograms(lib, cache, ps).accounts)
      ensures err == Programs.SetDefaultPrograms(lib, cache, ps).err
    {
      InstallAgreesIfFresh(Snapshot(), Programs.SetDefaultPrograms(lib, cache, ps).accounts);
      err := InstallDefaultPrograms(ps);
    }

    /** `SetBuiltins`, `SetPrecompiles` and `WithNativeMints`: fixed accounts; nothing is evicted. */
    method SetNatives(natives: Store)
      requires Valid()
      modifies `store
      ensures Valid() && store == old(store) + natives
    {
      store := store + natives;
    }

    method SetLamports(lamports: u64)
      requires Valid()
      modifies `store
      ensures Valid() && store == old(store)[airdropKey := PlainAccount(lamports)]
    {
      store := store[airdropKey := PlainAccount(lamports)];
    }

    // ----- settings -----

    method SetSigverify(enabled: bool)
      requires Valid()
      modifies `sigverify
      ensures Valid() && sigverify == enabled
    {
      sigverify := enabled;
    }

    method SetBlockhashCheck(enabled: bool)
      requires Valid()
      modifies `blockhashCheck
      ensures Valid() && blockhashCheck == enabled
    {
      blockhashCheck := enabled;
    }

    /** A rejected budget leaves the previous one in force. */
    method SetComputeBudget(b: ComputeBudget) returns (r: Result<ComputeBudget, BudgetError>)
      requires Valid()
      modifies `budget
      ensures Valid()
      ensures r.Ok? <==> Honored(b)
      ensures budget == if r.Ok? then Some(b) else old(budget)
    {
      r := CheckBudget(b);
      if r.Ok? {
        budget := Some(b);
      }
    }

    method TrimHistory()
      modifies this`history, this`historyOrder
      ensures Snapshot().history == Trim(old(Snapshot().history))
    {
      ghost var k := 0;
      while historyCap > 0 && |historyOrder| > historyCap
        invariant 0 <= k <= |old(historyOrder)|
        invariant k > 0 ==> historyCap > 0 && |old(historyOrder)| - k >= historyCap
        invariant historyOrder == old(historyOrder)[k..]
        invariant history == old(history) - Members(old(historyOrder)[..k])
        decreases |historyOrder|
      {
        var oldest := historyOrder[0];
        historyOrder := historyOrder[1..];
        history := history - {oldest};
        assert old(historyOrder)[..k + 1] == old(historyOrder)[..k] + [oldest];
        k := k + 1;
      }
    }

    method SetTransactionHistory(capacity: int) returns (ok: bool)
      requires Valid()
      modifies `historyCap, `history, `historyOrder
      ensures Valid()
      ensures Snapshot().history == SetCapacity(old(Snapshot().history), capacity)
      ensures ok <==> capacity >= 0
    {
      ghost var h := Snapshot().history;
      if capacity < 0 {
        return false;
      }
      historyCap := capacity;
      if capacity == 0 {
        history := map[];
        historyOrder := [];
      }
      TrimHistory();
      ok := true;
      assert Snapshot().history == SetCapacity(h, capacity);
      SetCapacityValid(h, capacity);
    }

    // ----- transactions -----

    method Commit(tx: Transaction, out: ReplayOutput) returns (errName: string)
      modifies this`store
      ensures var c := Pipeline.Commit(lib, old(store), Queue(cache), tx, out);
              store == c.store && errName == c.err
    {
      if out.execution.Some? {
        var updates := out.execution.value.updates;
        for i := 0 to |updates|
          invariant store == ApplyUpdates(old(store), updates[..i])
        {
          assert updates[..i + 1][..i] == updates[..i];
          var upd := updates[i];
          if upd.account.lamports == 0 {
            store := store - {upd.key};
          } else {
            store := store[upd.key := upd.account];
          }
        }
        assert updates[..|updates|] == updates;
        return "";
      }
      if out.error.None? || out.context.None? || out.fee.None? {
        return "";
      }
      if out.error.value.kind != InstructionError && out.error.value.kind != InsufficientFundsForRent {
        return "";
      }
      errName := "";
      if |tx.message.keys| > 0 {
        var payer := tx.message.keys[0];
        if payer !in store {
          errName := "AccountNotFound";
        } else if store[payer].lamports < out.fee.value {
          errName := "InsufficientFundsForFee";
        } else {
          var acct := store[payer];
          store := store[payer := acct.(lamports := acct.lamports - out.fee.value)];
        }
      }
      if |out.instructions| > 0 {
        store := lib.advanceNonce(store, Queue(cache), tx, out.instructions[0]);
      }
    }

    method RecordOutcome(tx: Transaction, out: ReplayOutput, outcome: Outcome)
      modifies this`history, this`historyOrder
      ensures Snapshot().history == RecordIf(old(Snapshot().history), tx, out, outcome)
    {
      if historyCap > 0 && |tx.signatures| > 0 && Included(out) {
        var sig := tx.signatures[0];
        if sig !in history {
          historyOrder := historyOrder + [sig];
        }
        history := history[sig := outcome];
        TrimHistory();
      }
    }

    /** Everything before replay: the message to run, or the error name of a rejection. */
    method AdmitTransaction(tx: Transaction) returns (r: Result<Message, string>)
      ensures r == Admit(lib, Snapshot(), tx)
    {
      if sigverify && !lib.verifySignatures(tx) {
        return Err("SignatureFailure");
      }
      var cell := new MessageCell(tx.message);
      var err := ResolveLookups(lib, Snapshot(), cell);
      if err.Some? {
        return Err(ErrorName(err.value));
      }
      if sigverify && historyCap > 0 && |tx.signatures| > 0 && tx.signatures[0] in history {
        if !blockhashCheck {
          return Err("AlreadyProcessed");
        }
        var first := FirstInstrForAgeCheck(cell.Value());
        var m := cell.Value();
        if InQueue(Queue(cache), m.recent) || m.recent == lib.sha256(Ascii(SENTINEL_SEED))
           || (|first| > 0 && lib.nonceAllows(first[0], m.recent, store)) {
          return Err("AlreadyProcessed");
        }
      }
      ApplyComputeBudgetOverride(budget, cell);
      r := Ok(cell.Value());
    }

    /** What follows replay. */
    method Finish(tx: Transaction, out: ReplayOutput, simulate: bool) returns (outcome: Outcome)
      modifies `store, `programs, `history, `historyOrder
      ensures var t := Run(lib, old(Snapshot()), tx, out, simulate);
              Snapshot() == t.state && outcome == t.outcome
    {
      programs := FillCache(programs, store, out.compiled);
      outcome := PopulateOutcome(store, Blank(tx), |tx.message.instructions|, out, simulate);
      if !simulate {
        var errName := Commit(tx, out);
        if errName != "" {
          outcome := outcome.(ok := false, err := Quoted(errName));
        }
        RecordOutcome(tx, out, outcome);
      }
    }

    /** The queue is extended for the replay call only and is back in place before commit. */
    method ExecuteTransaction(replay: Replay, tx: Transaction, simulate: bool) returns (outcome: Outcome)
      requires Valid()
      modifies `store, `cache, `programs, `history, `historyOrder
      ensures Valid()
      ensures var t := Execute(lib, replay, old(Snapshot()), tx, simulate);
              Snapshot() == t.state && outcome == t.outcome
      ensures old(sigverify) && !lib.verifySignatures(tx) ==>
                Snapshot() == old(Snapshot()) && !outcome.ok && outcome.err == "\"SignatureFailure\""
    {
      if sigverify && !lib.verifySignatures(tx) {
        BadSignatureIsRefused(lib, replay, Snapshot(), tx, simulate);
      }
      ExecuteSound(lib, replay, Snapshot(), tx, simulate);
      var admitted := AdmitTransaction(tx);
      if admitted.Err? {
        return Blank(tx).(err := Quoted(admitted.error));
      }
      var rewritten := Transaction(tx.signatures, admitted.value);
      var execSlot := ExecSlot(slot);
      var latest := if |blockhashes| > 0 then blockhashes[0] else NO_HASH;
      var restore := cache;
      if !blockhashCheck {
        restore := InjectBlockhash(rewritten.message.recent);
      }
      var out := replay(View(store, cache, execSlot, latest, rewritten, simulate));
      cache := restore;
      assert Snapshot() == old(Snapshot());
      outcome := Finish(rewritten, out, simulate);
    }

    // ----- runs -----

    method PerformInstall(step: Step)
      requires Valid() && (step.PutProgram? || step.PutProgramUnder? || step.PutDefaultPrograms?)
      modifies `store, `programs
      ensures Valid() && Snapshot() == Installed(old(Snapshot()), InstalledBy(lib, cache, step))
    {
      match step
      case PutProgram(id, elf) => var err := AddProgram(id, elf);
      case PutProgramUnder(id, elf, loader) => var err := AddProgramWithLoader(id, elf, loader);
      case PutDefaultPrograms(ps) => var err := SetDefaultPrograms(ps);
    }

    method PerformSysvar(step: Step)
      requires Valid() && WritesSysvars(step)
      modifies this
      ensures Valid() && Snapshot() == Apply(lib, old(Snapshot()), step)
    {
      match step
      case PutAccount(k, a) => var err := SetAccount(k, a);
      case PutSysvar(k, data) => var err := SetSysvarData(k, data);
      case Warp(target) => WarpToSlot(target);
      case Expire => var ok := ExpireBlockhash();
      case ResetSysvars => SetSysvars();
    }

    method PerformSetting(step: Step)
      requires Valid() && (step.PutBudget? || step.PutSigverify? || step.PutBlockhashCheck?)
      modifies this
      ensures Valid() && Snapshot() == Apply(lib, old(Snapshot()), step)
    {
      match step
      case PutBudget(b) => var r := SetComputeBudget(b);
      case PutSigverify(on) => SetSigverify(on);
      case PutBlockhashCheck(on) => SetBlockhashCheck(on);
    }

    method PerformAmount(step: Step)
      requires Valid() && (step.PutNatives? || step.PutLamports? || step.PutCapacity?)
      modifies this
      ensures Valid() && Snapshot() == Apply(lib, old(Snapshot()), step)
    {
      match step
      case PutNatives(natives) => SetNatives(natives);
      case PutLamports(n) => SetLamports(n);
      case PutCapacity(c) => var ok := SetTransactionHistory(c);
    }

    /** Calls the method of a step. */
    method Perform(step: Step)
      requires Valid()
      modifies this
      ensures Valid() && Snapshot() == Apply(lib, old(Snapshot()), step)
    {
      if step.Send? || step.Simulate? {
        var outcome := ExecuteTransaction(step.replay, step.tx, step.Simulate?);
      } else if step.PutProgram? || step.PutProgramUnder? || step.PutDefaultPrograms? {
        PerformInstall(step);
      } else if WritesSysvars(step) {
        PerformSysvar(step);
      } else if step.PutNatives? || step.PutLamports? || step.PutCapacity? {
        PerformAmount(step);
      } else {
        PerformSetting(step);
      }
    }
  }

  lemma OneInstalled(store: Store, k: Key, a: Account)
    ensures store[k := a] == store + map[k := a] && map[k := a].Keys == {k}
  {
  }

  lemma TwoInstalled(store: Store, programs: map<Key, Bytes>, pd: Key, a: Account, id: Key, b: Account)
    ensures var accounts := map[pd := a][id := b];
            store[pd := a][id := b] == store + accounts && programs - {pd} - {id} == programs - accounts.Keys
  {
  }

  lemma MoreInstalled(store: Store, programs: map<Key, Bytes>, a: Store, b: Store)
    ensures store + a + b == store + (a + b) && programs - a.Keys - b.Keys == programs - (a + b).Keys
    ensures store + map[] == store && programs - {} == programs
  {
  }

  lemma InstallAgreesIfFresh(s: State, accounts: Store)
    ensures CacheAgrees(s) ==> CacheAgrees(Installed(s, accounts))
  {
    if CacheAgrees(s) {
      InstallAgrees(s, accounts);
    }
  }

  lemma SetAccountSound(lib: Library, s: State, k: Key, a: Account)
    requires Sound(lib, s)
    ensures Sound(lib, Settle(s, Sysvars.SetAccount(lib, s, k, a)))
  {
    if KindLaw(lib) {
      SetAccountClock(lib, s, k, a);
    }
  }

  /** Any sequence of public calls on a fresh instance is a run, so whatever holds in every state of
      every run holds of the instance. */
  method RunSteps(lib: Library, origin: Origin, steps: seq<Step>) returns (svm: LiteSVM, ghost states: seq<State>)
    ensures svm.Valid() && svm.lib == lib && fresh(svm)
    ensures FreshRun(lib, origin, states, steps) && svm.Snapshot() == states[|steps|]
  {
    svm := new LiteSVM(lib, origin);
    states := [svm.Snapshot()];
    for i := 0 to |steps|
      invariant svm.Valid() && svm.lib == lib && fresh(svm)
      invariant FreshRun(lib, origin, states, steps[..i]) && svm.Snapshot() == states[i]
    {
      RunSnoc(lib, states, steps[..i], steps[i]);
      assert steps[..i + 1] == steps[..i] + [steps[i]];
      svm.Perform(steps[i]);
      states := states + [svm.Snapshot()];
    }
    assert steps[..|steps|] == steps;
  }
}
