/** What host writes store: accounts, sysvars, warps and expiries, the defaults, and programs; each
    with what it leaves alone (accounts.go, sysvars.go, svm.go). */
module Writes {
  import opened Types
  import opened Engine
  import opened Sysvars
  import opened Programs
  import opened Pipeline
  import opened Steps

  /** The stores agree at `k`. */
  predicate Untouched(before: Store, after: Store, k: Key) {
    (k in after <==> k in before) && (k in before ==> after[k] == before[k])
  }

  /** Everything but the store, the sysvar cache, the slot and the compiled programs is as before. */
  predicate SameElsewhere(s: State, s': State) {
    s' == s.(store := s'.store, cache := s'.cache, slot := s'.slot, programs := s'.programs)
  }

  // ----- accounts -----

  /** `SetAccount` refuses sysvar bytes that do not decode, which changes nothing. */
  predicate RefusesAccount(lib: Library, k: Key, a: Account) {
    k.SysvarKey? && lib.decodeSysvar(k.sysvar, a.data).None?
  }

  /** The account is stored as it is, or deleted if it holds no lamports, and every other account is
      left alone. */
  ghost predicate Placed(before: Store, after: Store, k: Key, a: Account) {
    && (k in after <==> a.lamports != 0)
    && (k in after ==> after[k] == a)
    && (forall q :: q != k ==> Untouched(before, after, q))
  }

  lemma SetAccountPlaces(lib: Library, s: State, k: Key, a: Account)
    ensures var s' := Settle(s, SetAccount(lib, s, k, a));
            if RefusesAccount(lib, k, a) then s' == s else Placed(s.store, s'.store, k, a)
  {
  }

  /** An accepted account is placed, and its compiled program evicted, no other; a sysvar address also
      gets the decoded value and the account itself as its mirror, and a Clock moves the slot. */
  lemma PutAccountExactly(lib: Library, s: State, k: Key, a: Account)
    ensures var s' := Apply(lib, s, PutAccount(k, a));
            && (RefusesAccount(lib, k, a) ==> s' == s)
            && (!RefusesAccount(lib, k, a) ==>
                  && SameElsewhere(s, s') && Placed(s.store, s'.store, k, a) && s'.programs == s.programs - {k}
                  && (!k.SysvarKey? ==> s'.cache == s.cache && s'.slot == s.slot)
                  && (k.SysvarKey? ==>
                        var v := lib.decodeSysvar(k.sysvar, a.data).value;
                        && s'.cache == Cache(s.cache.typed[k.sysvar := v], s.cache.mirror[k.sysvar := a])
                        && s'.slot == if k.sysvar.ClockVar? && v.ClockValue? then v.clock.slot else s.slot))
  {
    SetAccountPlaces(lib, s, k, a);
  }

  // ----- sysvars -----

  /** The account of a sysvar: its bytes, zero-padded to the fixed size if it has one, owned by the
      sysvar program and rent exempt under the Rent in force. */
  predicate IsSysvarAccount(lib: Library, cache: Cache, x: Sysvar, data: Bytes, a: Account) {
    && data <= a.data
    && |a.data| == (if |data| < FixedSize(x) then FixedSize(x) else |data|)
    && (forall i :: |data| <= i < |a.data| ==> a.data[i] == 0)
    && a.owner == SysvarOwner && !a.executable && a.rentEpoch == 0
    && a.lamports == if RentVar in cache.typed then lib.minimumBalance(cache.typed[RentVar], |a.data|) else 1
  }

  /** One sysvar is installed in the store, the typed cache and the mirror alike, and nothing else. */
  predicate OnlyInstalls(lib: Library, w: Views, w': Views, x: Sysvar, v: SysvarValue, data: Bytes) {
    && SysvarKey(x) in w'.store
    && w'.cache.typed == w.cache.typed[x := v]
    && w'.cache.mirror == w.cache.mirror[x := w'.store[SysvarKey(x)]]
    && IsSysvarAccount(lib, w'.cache, x, data, w'.store[SysvarKey(x)])
    && w'.store == w.store[SysvarKey(x) := w'.store[SysvarKey(x)]]
  }

  lemma InstallExactly(lib: Library, w: Views, x: Sysvar, v: SysvarValue, data: Bytes)
    ensures OnlyInstalls(lib, w, Install(lib, w, x, v, data), x, v, data)
  {
  }

  /** A typed setter installs bytes that decode, at their sysvar only; a Clock moves the slot. */
  lemma PutSysvarExactly(lib: Library, s: State, k: Key, data: Bytes)
    ensures var s' := Apply(lib, s, PutSysvar(k, data));
            && (!k.SysvarKey? || lib.decodeSysvar(k.sysvar, data).None? ==> s' == s)
            && (k.SysvarKey? && lib.decodeSysvar(k.sysvar, data).Some? ==>
                  var v := lib.decodeSysvar(k.sysvar, data).value;
                  && SameElsewhere(s, s') && s'.programs == s.programs
                  && OnlyInstalls(lib, ViewsOf(s), ViewsOf(s'), k.sysvar, v, data)
                  && s'.slot == if k.sysvar.ClockVar? && v.ClockValue? then v.clock.slot else s.slot)
  {
    if k.SysvarKey? && lib.decodeSysvar(k.sysvar, data).Some? {
      InstallExactly(lib, ViewsOf(s), k.sysvar, lib.decodeSysvar(k.sysvar, data).value, data);
    }
  }

  /** A warp moves the slot of the Clock, and of the engine, and keeps every other field of the Clock;
      without a cached Clock those are zero. */
  lemma WarpExactly(lib: Library, s: State, slot: u64)
    ensures var s' := Apply(lib, s, Warp(slot));
            && SameElsewhere(s, s') && s'.programs == s.programs && s'.slot == slot
            && ClockIs(s'.cache, slot)
            && OnlyInstalls(lib, ViewsOf(s), ViewsOf(s'), ClockVar, s'.cache.typed[ClockVar],
                            lib.encodeSysvar(ClockVar, s'.cache.typed[ClockVar]))
            && var c := s'.cache.typed[ClockVar].clock;
               if ClockVar in s.cache.typed && s.cache.typed[ClockVar].ClockValue? then
                 var was := s.cache.typed[ClockVar].clock;
                 && c.epochStart == was.epochStart && c.epoch == was.epoch
                 && c.leaderEpoch == was.leaderEpoch && c.unixTime == was.unixTime
               else c.epochStart == 0 && c.epoch == 0 && c.leaderEpoch == 0 && c.unixTime == 0
  {
    var v := WarpToSlot(lib, s, slot).cache.typed[ClockVar];
    InstallExactly(lib, ViewsOf(s), ClockVar, v, lib.encodeSysvar(ClockVar, v));
  }

  /** An expiry replaces the queue by the hash of its newest entry, lists it at the governor's fee,
      and touches nothing else; on an empty queue it does nothing. */
  lemma ExpireExactly(lib: Library, s: State)
    ensures var s' := Apply(lib, s, Expire);
            && (s.blockhashes == [] ==> s' == s)
            && (s.blockhashes != [] ==>
                  var h := lib.sha256(s.blockhashes[0]);
                  var v := RecentValue([RecentEntry(h, s.governorFee)]);
                  && s' == s.(store := s'.store, cache := s'.cache, blockhashes := [h], recentFee := s.governorFee)
                  && OnlyInstalls(lib, ViewsOf(s), ViewsOf(s'), RecentBlockhashesVar, v, lib.encodeSysvar(RecentBlockhashesVar, v)))
  {
    if s.blockhashes != [] {
      var h := lib.sha256(s.blockhashes[0]);
      assert RecentQueue([h], s.governorFee) == [RecentEntry(h, s.governorFee)];
      var v := RecentValue([RecentEntry(h, s.governorFee)]);
      InstallExactly(lib, ViewsOf(s), RecentBlockhashesVar, v, lib.encodeSysvar(RecentBlockhashesVar, v));
    }
  }

  // ----- the defaults -----

  /** What `installSysvarDefaults` gives each sysvar but the recent blockhashes. */
  function DefaultValue(lib: Library, x: Sysvar, blockhashes: seq<Hash>): SysvarValue {
    match x
    case ClockVar => ClockValue(Clock(0, 0, 0, 0, 0))
    case SlotHashesVar => SlotHashesValue(if blockhashes == [] then [] else [Keyed(0, blockhashes[0])])
    case StakeHistoryVar => StakeHistoryValue([])
    case _ => OpaqueValue(lib.defaultSysvar(x))
  }

  /** The account bytes: the encoded value, but plain zeros for the deprecated Fees. */
  function DefaultData(lib: Library, x: Sysvar, blockhashes: seq<Hash>): Bytes {
    if x.FeesVar? then Zeros(lib.feesLength) else lib.encodeSysvar(x, DefaultValue(lib, x, blockhashes))
  }

  /** The position of a sysvar in the installation order. */
  function DefaultPosition(x: Sysvar): nat {
    match x
    case ClockVar => 0
    case RentVar => 1
    case FeesVar => 2
    case EpochScheduleVar => 3
    case SlotHashesVar => 4
    case StakeHistoryVar => 5
    case LastRestartSlotVar => 6
    case EpochRewardsVar => 7
    case SlotHistoryVar => 8
    case RecentBlockhashesVar => 9
  }

  lemma DefaultsListed(lib: Library, x: Sysvar, blockhashes: seq<Hash>)
    requires !x.RecentBlockhashesVar?
    ensures var items := Defaults(lib, DefaultSlotHashes(blockhashes));
            && |items| == 9
            && items[DefaultPosition(x)] == Default(x, DefaultValue(lib, x, blockhashes), DefaultData(lib, x, blockhashes))
            && forall i :: 0 <= i < 9 ==> DefaultPosition(items[i].sysvar) == i
  {
  }

  /** The account of a sysvar whose installation is the last one of it. */
  lemma {:induction false} InstallAllAt(lib: Library, w: Views, items: seq<Default>, j: nat)
    requires j < |items| && forall i :: j < i < |items| ==> items[i].sysvar != items[j].sysvar
    ensures var w', item := InstallAll(lib, w, items), items[j];
            && item.sysvar in w'.cache.typed && w'.cache.typed[item.sysvar] == item.value
            && SysvarKey(item.sysvar) in w'.store
            && item.sysvar in w'.cache.mirror && w'.cache.mirror[item.sysvar] == w'.store[SysvarKey(item.sysvar)]
            && IsSysvarAccount(lib, InstallAll(lib, w, items[..j + 1]).cache, item.sysvar, item.data, w'.store[SysvarKey(item.sysvar)])
  {
    var rest, last := items[..|items| - 1], items[|items| - 1];
    InstallExactly(lib, InstallAll(lib, w, rest), last.sysvar, last.value, last.data);
    if j < |rest| {
      InstallAllAt(lib, w, rest, j);
      assert rest[..j + 1] == items[..j + 1];
    } else {
      assert items[..j + 1] == items;
    }
  }

  lemma {:induction false} InstallAllElsewhere(lib: Library, w: Views, items: seq<Default>, x: Sysvar, k: Key)
    requires forall i :: 0 <= i < |items| ==> items[i].sysvar != x
    ensures var w' := InstallAll(lib, w, items);
            && (x in w'.cache.typed <==> x in w.cache.typed) && (x in w.cache.typed ==> w'.cache.typed[x] == w.cache.typed[x])
            && (x in w'.cache.mirror <==> x in w.cache.mirror) && (x in w.cache.mirror ==> w'.cache.mirror[x] == w.cache.mirror[x])
            && (k == SysvarKey(x) || !k.SysvarKey? ==> Untouched(w.store, w'.store, k))
  {
    if items != [] {
      var rest, last := items[..|items| - 1], items[|items| - 1];
      InstallAllElsewhere(lib, w, rest, x, k);
      InstallExactly(lib, InstallAll(lib, w, rest), last.sysvar, last.value, last.data);
    }
  }

  /** Every sysvar but the recent blockhashes gets its default in the typed cache, the mirror and the
      store. The Clock is written first, under the Rent in force before; all others under the default
      Rent. */
  lemma DefaultsExactly(lib: Library, w: Views, blockhashes: seq<Hash>, x: Sysvar)
    requires !x.RecentBlockhashesVar?
    ensures var w' := InstallSysvarDefaults(lib, w, blockhashes);
            && x in w'.cache.typed && w'.cache.typed[x] == DefaultValue(lib, x, blockhashes)
            && SysvarKey(x) in w'.store && x in w'.cache.mirror && w'.cache.mirror[x] == w'.store[SysvarKey(x)]
            && IsSysvarAccount(lib, if x.ClockVar? then w.cache else w'.cache, x, DefaultData(lib, x, blockhashes), w'.store[SysvarKey(x)])
  {
    var items, j := Defaults(lib, DefaultSlotHashes(blockhashes)), DefaultPosition(x);
    DefaultsListed(lib, x, blockhashes);
    InstallAllAt(lib, w, items, j);
    RentAt(lib, w, items, j);
  }

  lemma RentAt(lib: Library, w: Views, items: seq<Default>, j: nat)
    requires |items| == 9 && j < 9 && items[1].sysvar == RentVar
    requires forall i :: 0 <= i < 9 ==> DefaultPosition(items[i].sysvar) == i
    ensures var typed := InstallAll(lib, w, items[..j + 1]).cache.typed;
            && (j == 0 ==> (RentVar in typed <==> RentVar in w.cache.typed)
                           && (RentVar in w.cache.typed ==> typed[RentVar] == w.cache.typed[RentVar]))
            && (j > 0 ==> RentVar in typed && typed[RentVar] == items[1].value)
            && RentVar in InstallAll(lib, w, items).cache.typed
            && InstallAll(lib, w, items).cache.typed[RentVar] == items[1].value
  {
    InstallAllTyped(lib, w, items, 1);
    if j == 0 {
      InstallAllElsewhere(lib, w, items[..1], RentVar, SystemProgram);
    } else {
      InstallAllTyped(lib, w, items[..j + 1], 1);
    }
  }

  /** The recent blockhashes, the stake config aside every other account, and everything outside the
      two views are left alone. */
  lemma DefaultsElsewhere(lib: Library, w: Views, blockhashes: seq<Hash>, k: Key)
    ensures var w' := InstallSysvarDefaults(lib, w, blockhashes);
            && (!k.SysvarKey? && k != StakeConfigKey ==> Untouched(w.store, w'.store, k))
            && Untouched(w.store, w'.store, SysvarKey(RecentBlockhashesVar))
            && (RecentBlockhashesVar in w'.cache.typed <==> RecentBlockhashesVar in w.cache.typed)
            && (RecentBlockhashesVar in w.cache.typed ==>
                  w'.cache.typed[RecentBlockhashesVar] == w.cache.typed[RecentBlockhashesVar])
    ensures var w' := InstallSysvarDefaults(lib, w, blockhashes);
            StakeConfigKey in w'.store && IsStakeConfig(w'.store[StakeConfigKey])
  {
    var items := Defaults(lib, DefaultSlotHashes(blockhashes));
    InstallAllElsewhere(lib, w, items, RecentBlockhashesVar, k);
    InstallAllElsewhere(lib, w, items, RecentBlockhashesVar, SysvarKey(RecentBlockhashesVar));
  }

  /** No config keys, the double 0.25, and a slash penalty of 12. */
  predicate IsStakeConfig(a: Account) {
    && a.lamports == 1 && a.owner == ConfigProgram && !a.executable && a.rentEpoch == 0
    && a.data == [0, 0, 0, 0, 0, 0, 0, 0, 0, 0, 0, 0, 0, 0, 0xD0, 0x3F, 12]
  }

  /** `SetSysvars` installs the defaults and puts the slot back to 0. */
  lemma ResetExactly(lib: Library, s: State)
    ensures var s' := Apply(lib, s, ResetSysvars);
            && SameElsewhere(s, s') && s'.programs == s.programs && s'.slot == 0
            && ViewsOf(s') == InstallSysvarDefaults(lib, ViewsOf(s), s.blockhashes)
  {
  }

  /** What `New` sets up: the default settings, an empty history of 32 entries, the genesis hash, and
      the airdrop pool. */
  lemma GenesisSettings(lib: Library, o: Origin)
    ensures var g := Genesis(lib, o);
            && g.slot == 0 && g.blockhashes == [lib.sha256(Ascii("genesis"))] && g.governorFee == 5000
            && g.sigverify && g.blockhashCheck && g.budget == None && g.programs == map[]
            && g.history == History(32, map[], []) && g.airdropKey == o.airdropKey
            && o.airdropKey in g.store
            && g.store[o.airdropKey] == Account(1_000_000_000_000_000, [], SystemProgram, false, 0)
  {
  }

  lemma GenesisViewsExactly(lib: Library, e: State, x: Sysvar)
    ensures var w := GenesisViews(lib, e);
            && x in w.cache.typed && x in w.cache.mirror && SysvarKey(x) in w.store && w.store[SysvarKey(x)] == w.cache.mirror[x]
            && w.cache.typed[x] == if x.RecentBlockhashesVar? then RecentValue(RecentQueue(e.blockhashes, e.recentFee))
                                   else DefaultValue(lib, x, e.blockhashes)
  {
    var w := InstallSysvarDefaults(lib, ViewsOf(e), e.blockhashes);
    var v := RecentValue(RecentQueue(e.blockhashes, e.recentFee));
    InstallExactly(lib, w, RecentBlockhashesVar, v, lib.encodeSysvar(RecentBlockhashesVar, v));
    if !x.RecentBlockhashesVar? {
      DefaultsExactly(lib, ViewsOf(e), e.blockhashes, x);
    }
  }

  /** Every sysvar of a fresh instance is at its default; the recent blockhashes list the genesis hash,
      without a fee yet. A fixed account stays unless a default program or the airdrop pool takes its
      address. */
  lemma GenesisExactly(lib: Library, o: Origin, x: Sysvar, k: Key)
    ensures var g, h := Genesis(lib, o), lib.sha256(Ascii("genesis"));
            && x in g.cache.typed && x in g.cache.mirror
            && g.cache.typed[x] == (if x.RecentBlockhashesVar? then RecentValue([RecentEntry(h, 0)]) else DefaultValue(lib, x, [h]))
            && (k in o.natives && k != o.airdropKey && k !in SetDefaultPrograms(lib, g.cache, o.defaults).accounts ==>
                  k in g.store && g.store[k] == o.natives[k])
  {
    var h := lib.sha256(Ascii("genesis"));
    GenesisViewsExactly(lib, Empty(lib, o.airdropKey), x);
    assert RecentQueue([h], 0) == [RecentEntry(h, 0)];
  }

  // ----- programs -----

  /** Installs touch nothing but the accounts they write and the programs compiled from them. */
  lemma InstallsElsewhere(lib: Library, s: State, step: Step, k: Key)
    requires step.PutProgram? || step.PutProgramUnder? || step.PutDefaultPrograms?
    ensures var s', written := Apply(lib, s, step), InstalledBy(lib, s.cache, step);
            && s' == s.(store := s'.store, programs := s'.programs)
            && (k !in written ==> Untouched(s.store, s'.store, k) && (k in s'.programs <==> k in s.programs)
                                  && (k in s.programs ==> s'.programs[k] == s.programs[k]))
            && (k in written ==> k in s'.store && s'.store[k] == written[k] && k !in s'.programs)
  {
  }

  /** A program under loader v1 or v2: one executable account that holds the given bytes, owned by the
      loader and rent exempt. */
  predicate IsLoaderAccount(lib: Library, s: State, a: Account, elf: Bytes, loader: Key) {
    && RentVar in s.cache.typed
    && a == Account(lib.minimumBalance(s.cache.typed[RentVar], |elf|), elf, loader, true, 0)
  }

  /** The programdata account: tag 3 in 32 bits, deployed at slot 0, with an authority present whose 32
      bytes are zero, then the ELF. */
  predicate DeployedAtZero(data: Bytes, elf: Bytes) {
    && |data| == 45 + |elf|
    && data[..4] == [3, 0, 0, 0]
    && (forall i :: 4 <= i < 12 ==> data[i] == 0)
    && data[12] == 1
    && (forall i :: 13 <= i < 45 ==> data[i] == 0)
    && data[45..] == elf
  }

  /** The upgradeable install is in place: the id serves the ELF through its programdata account, both
      accounts belong to the upgradeable loader and are rent exempt, and only the program executes. */
  predicate Upgradeable(lib: Library, s: State, s': State, id: Key, elf: Bytes)
    requires lib.programData(id).Some? && RentVar in s.cache.typed
  {
    var pd, rent := lib.programData(id).value, s.cache.typed[RentVar];
    && id in s'.store && pd in s'.store && id !in s'.programs && pd !in s'.programs
    && PointsAt(lib, s', id) == Some(pd) && ServedElf(lib, s', id) == Some(elf)
    && s'.store[id].owner == s'.store[pd].owner == UpgradeableLoader
    && DeployedAtZero(s'.store[pd].data, elf)
    && s'.store[id].executable && !s'.store[pd].executable
    && s'.store[id].lamports == lib.minimumBalance(rent, 36)
    && s'.store[pd].lamports == lib.minimumBalance(rent, 45 + |elf|)
  }

  /** The bytes an upgradeable install can be made of, and the address it needs. */
  predicate CanUpgrade(lib: Library, s: State, id: Key) {
    RentVar in s.cache.typed && lib.programData(id).Some?
  }

  lemma UpgradeableInPlace(lib: Library, s: State, id: Key, elf: Bytes)
    requires CanUpgrade(lib, s, id) && lib.programData(id) != Some(id) && Recoverable(lib, lib.programData(id).value)
    ensures AddProgramV3(lib, s.cache, id, elf).Ok?
    ensures var accounts := AddProgramV3(lib, s.cache, id, elf).value;
            accounts.Keys == {id, lib.programData(id).value} && Upgradeable(lib, s, Installed(s, accounts), id, elf)
  {
    InstalledElfIsServed(lib, s, id, elf);
    DeploymentHeader(elf);
  }

  lemma DeploymentHeader(elf: Bytes)
    ensures DeployedAtZero(ProgramDataAccountData(elf), elf)
  {
    var d := ProgramDataAccountData(elf);
    assert d[..4] == [3, 0, 0, 0] && d[45..] == elf;
  }

  lemma NothingInstalled(s: State)
    ensures Installed(s, map[]) == s
  {
    assert s.store + map[] == s.store && s.programs - {} == s.programs;
  }

  /** `AddProgram` installs every valid program whose address derives, and changes nothing otherwise. */
  lemma PutProgramExactly(lib: Library, s: State, id: Key, elf: Bytes)
    ensures !lib.validProgram(elf) || !CanUpgrade(lib, s, id) ==> Apply(lib, s, PutProgram(id, elf)) == s
    ensures lib.validProgram(elf) && CanUpgrade(lib, s, id)
            && lib.programData(id) != Some(id) && Recoverable(lib, lib.programData(id).value) ==>
              Upgradeable(lib, s, Apply(lib, s, PutProgram(id, elf)), id, elf)
  {
    var r := AddProgram(lib, s.cache, id, elf);
    assert Apply(lib, s, PutProgram(id, elf)) == Installed(s, Accepted(r));
    if !lib.validProgram(elf) || !CanUpgrade(lib, s, id) {
      NothingInstalled(s);
    } else if lib.programData(id) != Some(id) && Recoverable(lib, lib.programData(id).value) {
      UpgradeableInPlace(lib, s, id, elf);
    }
  }

  /** One account written and evicted. */
  predicate OneLoaderAccount(lib: Library, s: State, s': State, id: Key, elf: Bytes, loader: Key) {
    && id in s'.store && IsLoaderAccount(lib, s, s'.store[id], elf, loader)
    && ServedBytes(s', id) == Some(elf)
    && s' == s.(store := s.store[id := s'.store[id]], programs := s.programs - {id})
  }

  lemma LoaderAccountInPlace(lib: Library, s: State, id: Key, elf: Bytes, loader: Key)
    requires RentVar in s.cache.typed
    ensures AddProgramV1V2(lib, s.cache, id, elf, loader).Ok?
    ensures OneLoaderAccount(lib, s, Installed(s, AddProgramV1V2(lib, s.cache, id, elf, loader).value), id, elf, loader)
  {
    var a := Account(lib.minimumBalance(s.cache.typed[RentVar], |elf|), elf, loader, true, 0);
    assert s.store + map[id := a] == s.store[id := a];
  }

  /** `AddProgramWithLoader` refuses empty bytes and unknown loaders, installs under v1 and v2 whatever
      else it is given, and under the upgradeable loader what `AddProgram` accepts. */
  lemma PutProgramUnderExactly(lib: Library, s: State, id: Key, elf: Bytes, loader: Key)
    ensures var s' := Apply(lib, s, PutProgramUnder(id, elf, loader));
            if elf == [] || loader !in {LoaderV1, LoaderV2, UpgradeableLoader} then s' == s
            else if loader == UpgradeableLoader then s' == Apply(lib, s, PutProgram(id, elf))
            else if RentVar !in s.cache.typed then s' == s
            else OneLoaderAccount(lib, s, s', id, elf, loader)
  {
    var r := AddProgramWithLoader(lib, s.cache, id, elf, loader);
    assert Apply(lib, s, PutProgramUnder(id, elf, loader)) == Installed(s, Accepted(r));
    NothingInstalled(s);
    if RentVar in s.cache.typed {
      LoaderAccountInPlace(lib, s, id, elf, loader);
    }
  }

  /** The default programs go in one after the other up to the first that fails, which is reported. */
  lemma {:induction false} DefaultProgramsStop(lib: Library, cache: Cache, ps: seq<DefaultProgram>, n: nat)
    requires n <= |ps| && forall i :: 0 <= i < n ==> AddDefaultProgram(lib, cache, ps[i]).Ok?
    requires n < |ps| ==> AddDefaultProgram(lib, cache, ps[n]).Err?
    ensures var d := SetDefaultPrograms(lib, cache, ps);
            && d.err == (if n < |ps| then Some(AddDefaultProgram(lib, cache, ps[n]).error) else None)
            && d.accounts == SetDefaultPrograms(lib, cache, ps[..n]).accounts
  {
    if n < |ps| {
      DefaultProgramsStop(lib, cache, ps[..n], n);
      assert ps[..n][..n] == ps[..n];
      StopsEarly(lib, cache, ps, n);
    } else {
      assert ps[..n] == ps;
      if n > 0 {
        DefaultProgramsStop(lib, cache, ps[..n - 1], n - 1);
      }
    }
  }

  /** Stores laid over each other, the last one on top. */
  function Merged(parts: seq<Store>): Store {
    if parts == [] then map[] else Merged(parts[..|parts| - 1]) + parts[|parts| - 1]
  }

  lemma {:induction false} MergedAt(parts: seq<Store>, i: nat, k: Key)
    requires i < |parts| && k in parts[i] && forall j :: i < j < |parts| ==> k !in parts[j]
    ensures k in Merged(parts) && Merged(parts)[k] == parts[i][k]
  {
    if i < |parts| - 1 {
      MergedAt(parts[..|parts| - 1], i, k);
    }
  }

  lemma {:induction false} MergedNowhere(parts: seq<Store>, k: Key)
    requires forall j :: 0 <= j < |parts| ==> k !in parts[j]
    ensures k !in Merged(parts)
  {
    if parts != [] {
      MergedNowhere(parts[..|parts| - 1], k);
    }
  }

  /** Without a failure the accounts are those of all programs, the later ones on top. */
  lemma {:induction false} DefaultProgramsMerge(lib: Library, cache: Cache, ps: seq<DefaultProgram>, parts: seq<Store>)
    requires |parts| == |ps| && forall i :: 0 <= i < |ps| ==> AddDefaultProgram(lib, cache, ps[i]) == Ok(parts[i])
    ensures SetDefaultPrograms(lib, cache, ps) == DefaultInstalls(Merged(parts), None)
  {
    if ps != [] {
      DefaultProgramsMerge(lib, cache, ps[..|ps| - 1], parts[..|ps| - 1]);
    }
  }

  /** Each of them under its own loader, without validation of its bytes. */
  lemma DefaultProgramExactly(lib: Library, s: State, p: DefaultProgram)
    ensures p.loader in {LoaderV1, LoaderV2} && RentVar in s.cache.typed ==>
              var r := AddDefaultProgram(lib, s.cache, p);
              r.Ok? && r.value.Keys == {p.id} && IsLoaderAccount(lib, s, r.value[p.id], p.elf, p.loader)
    ensures p.loader == UpgradeableLoader && CanUpgrade(lib, s, p.id)
            && lib.programData(p.id) != Some(p.id) && Recoverable(lib, lib.programData(p.id).value) ==>
              var r := AddDefaultProgram(lib, s.cache, p);
              r.Ok? && Upgradeable(lib, s, Installed(s, r.value), p.id, p.elf)
    ensures p.loader !in {LoaderV1, LoaderV2, UpgradeableLoader} ==>
              AddDefaultProgram(lib, s.cache, p) == Err(UnknownLoader)
  {
    if CanUpgrade(lib, s, p.id) && lib.programData(p.id) != Some(p.id) && Recoverable(lib, lib.programData(p.id).value) {
      UpgradeableInPlace(lib, s, p.id, p.elf);
    }
  }
}
