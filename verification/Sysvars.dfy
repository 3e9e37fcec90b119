/** Sysvars live twice: as account bytes in the store and as typed values (with an account
    mirror) in the cache. Every operation that writes one view keeps both in agreement
    (sysvars.go, accounts.go, svm.go). */
module Sysvars {
  import opened Types
  import opened Engine

  datatype SysvarError = UnsupportedSysvar | UndecodableSysvar

  /** Keeps the state of a rejected operation. */
  function Settle<E>(s: State, r: Result<State, E>): State {
    if r.Ok? then r.value else s
  }

  /** The two places a sysvar lives in. */
  datatype Views = Views(store: Store, cache: Cache)

  function ViewsOf(s: State): Views {
    Views(s.store, s.cache)
  }

  // ----- operations -----

  function RentFor(lib: Library, cache: Cache, size: nat): u64 {
    if RentVar in cache.typed then lib.minimumBalance(cache.typed[RentVar], size) else 1
  }

  function SysvarAccount(lib: Library, cache: Cache, x: Sysvar, data: Bytes): Account {
    var d := Padded(x, data);
    Account(RentFor(lib, cache, |d|), d, SysvarOwner, false, 0)
  }

  /** `writeSysvarAccount`: installs the padded bytes in the store and in the mirror. */
  function WriteSysvarAccount(lib: Library, w: Views, x: Sysvar, data: Bytes): Views {
    var a := SysvarAccount(lib, w.cache, x, data);
    Views(w.store[SysvarKey(x) := a], Cache(w.cache.typed, w.cache.mirror[x := a]))
  }

  function Install(lib: Library, w: Views, x: Sysvar, v: SysvarValue, data: Bytes): Views {
    WriteSysvarAccount(lib, Views(w.store, Cache(w.cache.typed[x := v], w.cache.mirror)), x, data)
  }

  datatype Refreshed = Refreshed(cache: Cache, slot: u64)

  /** `refreshCache`: decodes into the typed slot; a new Clock also moves the slot counter. */
  function RefreshCache(lib: Library, cache: Cache, slot: u64, k: Key, data: Bytes): Result<Refreshed, SysvarError> {
    if !k.SysvarKey? then Err(UnsupportedSysvar)
    else
      match lib.decodeSysvar(k.sysvar, data)
      case None => Err(UndecodableSysvar)
      case Some(v) =>
        Ok(Refreshed(Cache(cache.typed[k.sysvar := v], cache.mirror),
                     if k.sysvar.ClockVar? && v.ClockValue? then v.clock.slot else slot))
  }

  function SetSysvarData(lib: Library, s: State, k: Key, data: Bytes): Result<State, SysvarError> {
    match RefreshCache(lib, s.cache, s.slot, k, data)
    case Err(e) => Err(e)
    case Ok(r) =>
      var w := WriteSysvarAccount(lib, Views(s.store, r.cache), k.sysvar, data);
      Ok(s.(store := w.store, cache := w.cache, slot := r.slot))
  }

  /** The cache refresh of `SetAccount`, done for a sysvar address only. */
  function MirrorAccount(lib: Library, cache: Cache, slot: u64, k: Key, a: Account): Result<Refreshed, SysvarError> {
    if !k.SysvarKey? then Ok(Refreshed(cache, slot))
    else
      match RefreshCache(lib, cache, slot, k, a.data)
      case Err(e) => Err(e)
      case Ok(r) => Ok(r.(cache := Cache(r.cache.typed, r.cache.mirror[k.sysvar := a])))
  }

  /** `SetAccount`: refreshes the cache for a sysvar address, evicts the compiled program, and
      deletes instead of storing a zero-lamport account. */
  function SetAccount(lib: Library, s: State, k: Key, a: Account): Result<State, SysvarError> {
    match MirrorAccount(lib, s.cache, s.slot, k, a)
    case Err(e) => Err(e)
    case Ok(r) =>
      Ok(s.(cache := r.cache, slot := r.slot, programs := s.programs - {k},
            store := if a.lamports == 0 then s.store - {k} else s.store[k := a]))
  }

  const GENESIS_CLOCK: Clock := Clock(0, 0, 0, 0, 0)

  /** Stake config: no config keys, warmup rate 0.25 as a little-endian double, slash penalty 12. */
  const STAKE_CONFIG: Account :=
    Account(1, Zeros(8) + [0, 0, 0, 0, 0, 0, 0xD0, 0x3F] + [12], ConfigProgram, false, 0)

  function DefaultSlotHashes(blockhashes: seq<Hash>): SysvarValue {
    SlotHashesValue(if blockhashes == [] then [] else [Keyed(0, blockhashes[0])])
  }

  /** A sysvar with the value its typed slot gets and the bytes its account gets. */
  datatype Default = Default(sysvar: Sysvar, value: SysvarValue, data: Bytes)

  function Encoded(lib: Library, x: Sysvar, v: SysvarValue): Default {
    Default(x, v, lib.encodeSysvar(x, v))
  }

  function Opaque(lib: Library, x: Sysvar): Default {
    Encoded(lib, x, OpaqueValue(lib.defaultSysvar(x)))
  }

  function InstallAll(lib: Library, w: Views, items: seq<Default>): Views {
    if items == [] then w
    else
      var item := items[|items| - 1];
      Install(lib, InstallAll(lib, w, items[..|items| - 1]), item.sysvar, item.value, item.data)
  }

  /** The nine defaults in installation order; the recent-blockhash queue is not among them. */
  function Defaults(lib: Library, hashes: SysvarValue): seq<Default> {
    [ Encoded(lib, ClockVar, ClockValue(GENESIS_CLOCK)),
      Opaque(lib, RentVar),
      Default(FeesVar, OpaqueValue(lib.defaultSysvar(FeesVar)), Zeros(lib.feesLength)),
      Opaque(lib, EpochScheduleVar),
      Encoded(lib, SlotHashesVar, hashes),
      Encoded(lib, StakeHistoryVar, StakeHistoryValue([])),
      Opaque(lib, LastRestartSlotVar),
      Opaque(lib, EpochRewardsVar),
      Opaque(lib, SlotHistoryVar) ]
  }

  /** `installSysvarDefaults`: the sysvars in order, then the stake-config account. */
  function InstallSysvarDefaults(lib: Library, w: Views, blockhashes: seq<Hash>): Views {
    var w' := InstallAll(lib, w, Defaults(lib, DefaultSlotHashes(blockhashes)));
    Views(w'.store[StakeConfigKey := STAKE_CONFIG], w'.cache)
  }

  function SetSysvars(lib: Library, s: State): State {
    var w := InstallSysvarDefaults(lib, ViewsOf(s), s.blockhashes);
    s.(store := w.store, cache := w.cache, slot := 0)
  }

  const MAX_RECENT: nat := 150

  function RecentQueue(hashes: seq<Hash>, fee: u64): (q: seq<RecentEntry>) {
    seq(|hashes|, i requires 0 <= i < |hashes| => RecentEntry(hashes[i], fee))
  }

  function SyncRecentBlockhashes(lib: Library, w: Views, hashes: seq<Hash>, fee: u64): Views {
    var v := RecentValue(RecentQueue(hashes, fee));
    Install(lib, w, RecentBlockhashesVar, v, lib.encodeSysvar(RecentBlockhashesVar, v))
  }

  /** The queue with a newest hash, capped. */
  function Registered(hashes: seq<Hash>, h: Hash): seq<Hash> {
    var q := [h] + hashes;
    if |q| > MAX_RECENT then q[..MAX_RECENT] else q
  }

  /** `ExpireBlockhash`: the queue is emptied before the new hash is registered; refused on an
      empty queue. */
  function ExpireBlockhash(lib: Library, s: State): State {
    if s.blockhashes == [] then s
    else
      var q := Registered([], lib.sha256(s.blockhashes[0]));
      var w := SyncRecentBlockhashes(lib, ViewsOf(s), q, s.governorFee);
      s.(store := w.store, cache := w.cache, blockhashes := q, recentFee := s.governorFee)
  }

  function WarpToSlot(lib: Library, s: State, slot: u64): State {
    var clock :=
      if ClockVar in s.cache.typed && s.cache.typed[ClockVar].ClockValue?
      then s.cache.typed[ClockVar].clock else GENESIS_CLOCK;
    var v := ClockValue(clock.(slot := slot));
    var w := Install(lib, ViewsOf(s), ClockVar, v, lib.encodeSysvar(ClockVar, v));
    s.(store := w.store, cache := w.cache, slot := slot)
  }

  // ----- coherence -----

  /** The three views of one sysvar agree: a stored sysvar account is the mirrored account, and
      the mirrored bytes decode to the typed value. */
  predicate CoherentAt(lib: Library, store: Store, cache: Cache, x: Sysvar) {
    && (SysvarKey(x) in store ==> x in cache.mirror && cache.mirror[x] == store[SysvarKey(x)])
    && (x in cache.mirror <==> x in cache.typed)
    && (x in cache.mirror ==> lib.decodeSysvar(x, cache.mirror[x].data) == Some(cache.typed[x]))
  }

  ghost predicate CoherentViews(lib: Library, w: Views) {
    forall x :: CoherentAt(lib, w.store, w.cache, x)
  }

  ghost predicate Coherent(lib: Library, s: State) {
    CoherentViews(lib, ViewsOf(s))
  }

  /** The internal slot counter is the slot of the cached Clock. */
  predicate ClockAgrees(s: State) {
    ClockIs(s.cache, s.slot)
  }

  predicate ClockIs(cache: Cache, slot: u64) {
    && ClockVar in cache.typed
    && cache.typed[ClockVar].ClockValue?
    && cache.typed[ClockVar].clock.slot == slot
  }

  /** Giving one sysvar a new mirror and the value it decodes to, while storing that account or
      none, keeps every sysvar coherent. */
  lemma RefreshedCoherent(lib: Library, w: Views, x: Sysvar, v: SysvarValue, a: Account, kept: bool)
    requires CoherentViews(lib, w)
    requires lib.decodeSysvar(x, a.data) == Some(v)
    ensures CoherentViews(lib, Views(if kept then w.store[SysvarKey(x) := a] else w.store - {SysvarKey(x)},
                                     Cache(w.cache.typed[x := v], w.cache.mirror[x := a])))
  {
    var cache' := Cache(w.cache.typed[x := v], w.cache.mirror[x := a]);
    var store' := if kept then w.store[SysvarKey(x) := a] else w.store - {SysvarKey(x)};
    forall y ensures CoherentAt(lib, store', cache', y) {
      assert CoherentAt(lib, w.store, w.cache, y);
    }
  }

  lemma InstallCoherent(lib: Library, w: Views, x: Sysvar, v: SysvarValue, data: Bytes)
    requires LawfulCodec(lib) && CoherentViews(lib, w)
    requires lib.decodeSysvar(x, data) == Some(v)
    ensures CoherentViews(lib, Install(lib, w, x, v, data))
  {
    var a := SysvarAccount(lib, Cache(w.cache.typed[x := v], w.cache.mirror), x, data);
    assert a.data == Padded(x, data);
    RefreshedCoherent(lib, w, x, v, a, true);
  }

  lemma {:induction false} InstallAllCoherent(lib: Library, w: Views, items: seq<Default>)
    requires LawfulCodec(lib) && CoherentViews(lib, w)
    requires forall i :: 0 <= i < |items| ==> lib.decodeSysvar(items[i].sysvar, items[i].data) == Some(items[i].value)
    ensures CoherentViews(lib, InstallAll(lib, w, items))
  {
    if items != [] {
      var rest, item := items[..|items| - 1], items[|items| - 1];
      InstallAllCoherent(lib, w, rest);
      InstallCoherent(lib, InstallAll(lib, w, rest), item.sysvar, item.value, item.data);
    }
  }

  /** The last installation of a sysvar decides its typed value. */
  lemma {:induction false} InstallAllTyped(lib: Library, w: Views, items: seq<Default>, j: nat)
    requires j < |items|
    requires forall i :: j < i < |items| ==> items[i].sysvar != items[j].sysvar
    ensures var typed := InstallAll(lib, w, items).cache.typed;
            items[j].sysvar in typed && typed[items[j].sysvar] == items[j].value
  {
    if j < |items| - 1 {
      InstallAllTyped(lib, w, items[..|items| - 1], j);
    }
  }

  lemma DefaultsDecode(lib: Library, hashes: SysvarValue)
    requires LawfulCodec(lib) && Encodable(SlotHashesVar, hashes)
    ensures var items := Defaults(lib, hashes);
            forall i :: 0 <= i < |items| ==> lib.decodeSysvar(items[i].sysvar, items[i].data) == Some(items[i].value)
  {
    assert Encodable(ClockVar, ClockValue(GENESIS_CLOCK)) && Encodable(StakeHistoryVar, StakeHistoryValue([]));
  }

  /** Installing the defaults over any coherent views, the empty ones included, is coherent. */
  lemma InstallSysvarDefaultsCoherent(lib: Library, w: Views, blockhashes: seq<Hash>)
    requires LawfulCodec(lib) && CoherentViews(lib, w)
    ensures CoherentViews(lib, InstallSysvarDefaults(lib, w, blockhashes))
  {
    var items := Defaults(lib, DefaultSlotHashes(blockhashes));
    DefaultsDecode(lib, DefaultSlotHashes(blockhashes));
    InstallAllCoherent(lib, w, items);
    var w' := InstallAll(lib, w, items);
    OtherWritesCoherent(lib, w', w'.store[StakeConfigKey := STAKE_CONFIG]);
  }

  /** The defaults put the Clock at slot 0. */
  lemma DefaultClock(lib: Library, w: Views, blockhashes: seq<Hash>)
    ensures ClockIs(InstallSysvarDefaults(lib, w, blockhashes).cache, 0)
  {
    InstallAllTyped(lib, w, Defaults(lib, DefaultSlotHashes(blockhashes)), 0);
  }

  lemma SetSysvarDataCoherent(lib: Library, s: State, k: Key, data: Bytes)
    requires LawfulCodec(lib) && Coherent(lib, s)
    ensures Coherent(lib, Settle(s, SetSysvarData(lib, s, k, data)))
    ensures SetSysvarData(lib, s, k, data).Err? <==> !k.SysvarKey? || lib.decodeSysvar(k.sysvar, data).None?
  {
    if k.SysvarKey? && lib.decodeSysvar(k.sysvar, data).Some? {
      InstallCoherent(lib, ViewsOf(s), k.sysvar, lib.decodeSysvar(k.sysvar, data).value, data);
    }
  }

  /** Overwriting any account, a sysvar's own included, keeps the views together; deleting a
      sysvar by storing zero lamports refreshes the cache and drops only the stored copy. Only
      undecodable sysvar bytes are rejected. No law of the codecs is needed. */
  lemma SetAccountCoherent(lib: Library, s: State, k: Key, a: Account)
    requires Coherent(lib, s)
    ensures Coherent(lib, Settle(s, SetAccount(lib, s, k, a)))
    ensures SetAccount(lib, s, k, a).Err? <==> k.SysvarKey? && lib.decodeSysvar(k.sysvar, a.data).None?
  {
    var r := SetAccount(lib, s, k, a);
    if k.SysvarKey? && r.Ok? {
      RefreshedCoherent(lib, ViewsOf(s), k.sysvar, lib.decodeSysvar(k.sysvar, a.data).value, a, a.lamports != 0);
    } else if r.Ok? {
      OtherWritesCoherent(lib, ViewsOf(s), r.value.store);
    }
  }

  lemma SyncCoherent(lib: Library, w: Views, hashes: seq<Hash>, fee: u64)
    requires LawfulCodec(lib) && CoherentViews(lib, w) && |hashes| <= MAX_RECENT
    ensures CoherentViews(lib, SyncRecentBlockhashes(lib, w, hashes, fee))
  {
    var v := RecentValue(RecentQueue(hashes, fee));
    assert Encodable(RecentBlockhashesVar, v);
    InstallCoherent(lib, w, RecentBlockhashesVar, v, lib.encodeSysvar(RecentBlockhashesVar, v));
  }

  lemma ExpireCoherent(lib: Library, s: State)
    requires LawfulCodec(lib) && Coherent(lib, s)
    ensures Coherent(lib, ExpireBlockhash(lib, s))
  {
    if s.blockhashes != [] {
      SyncCoherent(lib, ViewsOf(s), Registered([], lib.sha256(s.blockhashes[0])), s.governorFee);
    }
  }

  lemma WarpCoherent(lib: Library, s: State, slot: u64)
    requires LawfulCodec(lib) && Coherent(lib, s)
    ensures Coherent(lib, WarpToSlot(lib, s, slot))
  {
    var v := WarpToSlot(lib, s, slot).cache.typed[ClockVar];
    assert Encodable(ClockVar, v);
    InstallCoherent(lib, ViewsOf(s), ClockVar, v, lib.encodeSysvar(ClockVar, v));
  }

  /** A store rewrite that leaves every sysvar address alone keeps coherence. */
  lemma OtherWritesCoherent(lib: Library, w: Views, store: Store)
    requires CoherentViews(lib, w)
    requires forall x :: SysvarKey(x) in store ==> SysvarKey(x) in w.store && store[SysvarKey(x)] == w.store[SysvarKey(x)]
    ensures CoherentViews(lib, Views(store, w.cache))
  {
    forall x ensures CoherentAt(lib, store, w.cache, x) {
      assert CoherentAt(lib, w.store, w.cache, x);
    }
  }

  // ----- the slot counter -----

  /** Every path that can replace the cached Clock moves the slot counter with it. */
  lemma RefreshClock(lib: Library, cache: Cache, slot: u64, k: Key, data: Bytes)
    requires KindLaw(lib) && ClockIs(cache, slot)
    ensures var r := RefreshCache(lib, cache, slot, k, data); r.Ok? ==> ClockIs(r.value.cache, r.value.slot)
  {
  }

  lemma SetAccountClock(lib: Library, s: State, k: Key, a: Account)
    requires KindLaw(lib) && ClockAgrees(s)
    ensures ClockAgrees(Settle(s, SetAccount(lib, s, k, a)))
  {
    RefreshClock(lib, s.cache, s.slot, k, a.data);
  }

  lemma SetSysvarDataClock(lib: Library, s: State, k: Key, data: Bytes)
    requires KindLaw(lib) && ClockAgrees(s)
    ensures ClockAgrees(Settle(s, SetSysvarData(lib, s, k, data)))
  {
    RefreshClock(lib, s.cache, s.slot, k, data);
  }

  lemma WarpAndExpireClock(lib: Library, s: State, slot: u64)
    ensures ClockAgrees(WarpToSlot(lib, s, slot))
    ensures ClockAgrees(s) ==> ClockAgrees(ExpireBlockhash(lib, s))
  {
  }
}
