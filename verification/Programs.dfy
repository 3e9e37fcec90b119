/** Program installation and the compiled-program cache that must never serve stale bytes
    (accounts.go). A cache entry is identified with the account data it was compiled from. */
module Programs {
  import opened Types
  import opened Engine
  import opened Sysvars

  datatype ProgramError = EmptyProgram | UnknownLoader | InvalidProgram | NoProgramData | RentMissing

  const ELF_OFFSET: nat := 45

  /** Enum tag `Program`, then the programdata address. */
  function ProgramAccountData(lib: Library, programData: Key): Bytes {
    [2, 0, 0, 0] + lib.addressBytes(programData)
  }

  /** Enum tag `ProgramData`, deployment slot 0, a present all-zero authority, then the ELF. */
  function ProgramDataAccountData(elf: Bytes): (d: Bytes)
    ensures |d| == ELF_OFFSET + |elf|
  {
    [3, 0, 0, 0] + Zeros(8) + [1] + Zeros(32) + elf
  }

  function Rent(lib: Library, cache: Cache, size: nat): Result<u64, ProgramError> {
    if RentVar in cache.typed then Ok(lib.minimumBalance(cache.typed[RentVar], size)) else Err(RentMissing)
  }

  /** `addProgramV1V2`: one loader-owned account. The installs are given by the accounts they
      write; they read nothing but the cached Rent. */
  function AddProgramV1V2(lib: Library, cache: Cache, id: Key, elf: Bytes, loader: Key): Result<Store, ProgramError> {
    var rent := Rent(lib, cache, |elf|);
    if rent.Err? then Err(rent.error) else Ok(map[id := Account(rent.value, elf, loader, true, 0)])
  }

  /** `addProgramV3`: the programdata account, then the program account. */
  function AddProgramV3(lib: Library, cache: Cache, id: Key, elf: Bytes): Result<Store, ProgramError> {
    var derived := lib.programData(id);
    if derived.None? then Err(NoProgramData)
    else
      var pd := derived.value;
      var progData, pdData := ProgramAccountData(lib, pd), ProgramDataAccountData(elf);
      var rentProg, rentPD := Rent(lib, cache, |progData|), Rent(lib, cache, |pdData|);
      if rentProg.Err? || rentPD.Err? then Err(RentMissing)
      else
        Ok(map[pd := Account(rentPD.value, pdData, UpgradeableLoader, false, 0)]
              [id := Account(rentProg.value, progData, UpgradeableLoader, true, 0)])
  }

  /** `AddProgram` validates the ELF, which the v1 and v2 paths do not. */
  function AddProgram(lib: Library, cache: Cache, id: Key, elf: Bytes): Result<Store, ProgramError> {
    if !lib.validProgram(elf) then Err(InvalidProgram) else AddProgramV3(lib, cache, id, elf)
  }

  function AddProgramWithLoader(lib: Library, cache: Cache, id: Key, elf: Bytes, loader: Key): Result<Store, ProgramError> {
    if elf == [] then Err(EmptyProgram)
    else if loader == LoaderV1 || loader == LoaderV2 then AddProgramV1V2(lib, cache, id, elf, loader)
    else if loader == UpgradeableLoader then AddProgram(lib, cache, id, elf)
    else Err(UnknownLoader)
  }

  /** A program of the default set with its loader. */
  datatype DefaultProgram = DefaultProgram(id: Key, elf: Bytes, loader: Key)

  /** The default set is installed without validation. */
  function AddDefaultProgram(lib: Library, cache: Cache, p: DefaultProgram): Result<Store, ProgramError> {
    if p.loader == LoaderV1 || p.loader == LoaderV2 then AddProgramV1V2(lib, cache, p.id, p.elf, p.loader)
    else if p.loader == UpgradeableLoader then AddProgramV3(lib, cache, p.id, p.elf)
    else Err(UnknownLoader)
  }

  datatype DefaultInstalls = DefaultInstalls(accounts: Store, err: Option<ProgramError>)

  /** `SetDefaultPrograms`: installs in order and stops at the first program that cannot be
      installed; those before it stay. */
  function SetDefaultPrograms(lib: Library, cache: Cache, ps: seq<DefaultProgram>): DefaultInstalls {
    if ps == [] then DefaultInstalls(map[], None)
    else
      var before := SetDefaultPrograms(lib, cache, ps[..|ps| - 1]);
      if before.err.Some? then before
      else
        match AddDefaultProgram(lib, cache, ps[|ps| - 1])
        case Err(e) => before.(err := Some(e))
        case Ok(accounts) => before.(accounts := before.accounts + accounts)
  }

  /** The default programs up to and with the one at `i`; a failing one decides the whole list. */
  lemma DefaultsSnoc(lib: Library, cache: Cache, ps: seq<DefaultProgram>, i: nat)
    requires i < |ps| && SetDefaultPrograms(lib, cache, ps[..i]).err == None
    ensures var before, r := SetDefaultPrograms(lib, cache, ps[..i]), AddDefaultProgram(lib, cache, ps[i]);
            if r.Err? then SetDefaultPrograms(lib, cache, ps) == before.(err := Some(r.error))
            else SetDefaultPrograms(lib, cache, ps[..i + 1]) == before.(accounts := before.accounts + r.value)
  {
    assert ps[..i + 1][..i] == ps[..i];
    if AddDefaultProgram(lib, cache, ps[i]).Err? {
      StopsEarly(lib, cache, ps, i);
    }
  }

  /** The first failing program decides what `SetDefaultPrograms` leaves. */
  lemma {:induction false} StopsEarly(lib: Library, cache: Cache, ps: seq<DefaultProgram>, i: nat)
    requires i < |ps|
    requires SetDefaultPrograms(lib, cache, ps[..i]).err == None
    requires AddDefaultProgram(lib, cache, ps[i]).Err?
    ensures SetDefaultPrograms(lib, cache, ps) ==
            SetDefaultPrograms(lib, cache, ps[..i]).(err := Some(AddDefaultProgram(lib, cache, ps[i]).error))
  {
    if i == |ps| - 1 {
      assert ps[..|ps| - 1] == ps[..i];
    } else {
      assert ps[..|ps| - 1][..i] == ps[..i];
      StopsEarly(lib, cache, ps[..|ps| - 1], i);
    }
  }

  /** Writes accounts and evicts what was compiled from the addresses before. */
  function Installed(s: State, accounts: Store): State {
    s.(store := s.store + accounts, programs := s.programs - accounts.Keys)
  }

  /** The accounts of an accepted install; a refused one writes nothing. */
  function Accepted(r: Result<Store, ProgramError>): Store {
    if r.Ok? then r.value else map[]
  }

  function ErrorOf<T>(r: Result<T, ProgramError>): Option<ProgramError> {
    if r.Err? then Some(r.error) else None
  }

  // ----- what the runtime loads -----

  /** The cache is served in preference to the stored account. */
  function ServedBytes(s: State, k: Key): Option<Bytes> {
    if k in s.programs then Some(s.programs[k])
    else if k in s.store then Some(s.store[k].data)
    else None
  }

  /** The programdata address an upgradeable program account points at. */
  function PointsAt(lib: Library, s: State, id: Key): Option<Key> {
    if id in s.store && s.store[id].owner == UpgradeableLoader
       && |s.store[id].data| == 36 && s.store[id].data[..4] == [2, 0, 0, 0]
    then lib.addressOf(s.store[id].data[4..])
    else None
  }

  /** The ELF that an invocation of an upgradeable program runs. */
  function ServedElf(lib: Library, s: State, id: Key): Option<Bytes> {
    match PointsAt(lib, s, id)
    case None => None
    case Some(pd) =>
      match ServedBytes(s, pd)
      case None => None
      case Some(d) => if |d| >= ELF_OFFSET && d[..4] == [3, 0, 0, 0] then Some(d[ELF_OFFSET..]) else None
  }

  // ----- agreement -----

  /** Every cached program was compiled from the bytes stored now. */
  ghost predicate CacheAgrees(s: State) {
    forall k :: k in s.programs ==> k in s.store && s.store[k].data == s.programs[k]
  }

  /** The programs an execution compiles are compiled from the current bytes. */
  function FillCache(programs: map<Key, Bytes>, store: Store, compiled: set<Key>): map<Key, Bytes> {
    map k | k in programs.Keys + compiled * store.Keys :: if k in programs then programs[k] else store[k].data
  }

  lemma FillAgrees(s: State, compiled: set<Key>)
    requires CacheAgrees(s)
    ensures CacheAgrees(s.(programs := FillCache(s.programs, s.store, compiled)))
  {
  }

  /** Host writes evict what they overwrite: `SetAccount` and installs keep the agreement. */
  lemma SetAccountAgrees(lib: Library, s: State, k: Key, a: Account)
    requires CacheAgrees(s)
    ensures CacheAgrees(Settle(s, SetAccount(lib, s, k, a)))
  {
  }

  lemma InstallAgrees(s: State, accounts: Store)
    requires CacheAgrees(s)
    ensures CacheAgrees(Installed(s, accounts))
  {
  }

  /** A programdata address has 32 bytes and is recovered from them. */
  predicate Recoverable(lib: Library, pd: Key) {
    |lib.addressBytes(pd)| == 32 && lib.addressOf(lib.addressBytes(pd)) == Some(pd)
  }

  /** An accepted v3 install makes the id serve exactly the installed ELF, whatever was cached
      or stored under either address before. */
  lemma InstalledElfIsServed(lib: Library, s: State, id: Key, elf: Bytes)
    requires AddProgramV3(lib, s.cache, id, elf).Ok?
    requires lib.programData(id) != Some(id) && Recoverable(lib, lib.programData(id).value)
    ensures var s' := Installed(s, AddProgramV3(lib, s.cache, id, elf).value);
            && PointsAt(lib, s', id) == lib.programData(id)
            && ServedElf(lib, s', id) == Some(elf)
  {
    var s', pd := Installed(s, AddProgramV3(lib, s.cache, id, elf).value), lib.programData(id).value;
    var d := s'.store[id].data;
    assert d[..4] == [2, 0, 0, 0] && d[4..] == lib.addressBytes(pd);
    var e := s'.store[pd].data;
    assert e[..4] == [3, 0, 0, 0] && e[ELF_OFFSET..] == elf;
  }

  /** What an id serves depends only on its two accounts, as long as the cache agrees. */
  lemma ServedElfFollowsStore(lib: Library, s: State, s': State, id: Key)
    requires CacheAgrees(s) && CacheAgrees(s')
    requires ServedElf(lib, s, id).Some?
    requires id in s'.store && s'.store[id].data == s.store[id].data && s'.store[id].owner == s.store[id].owner
    requires var pd := PointsAt(lib, s, id).value;
             pd in s.store && pd in s'.store && s'.store[pd].data == s.store[pd].data
    ensures ServedElf(lib, s', id) == ServedElf(lib, s, id)
  {
  }
}
