/** Resolution of address-table lookups (tx.go, `resolveLookups`). */
module Lookups {
  import opened Types
  import opened Messages
  import opened Engine
  import opened Sysvars

  /** The slot the tables are judged at: the cached Clock's, or the internal counter without one. */
  function CurrentSlot(s: State): u64 {
    if ClockVar in s.cache.typed && s.cache.typed[ClockVar].ClockValue?
    then s.cache.typed[ClockVar].clock.slot else s.slot
  }

  function CachedSlotHashes(s: State): seq<SlotHash> {
    if SlotHashesVar in s.cache.typed && s.cache.typed[SlotHashesVar].SlotHashesValue?
    then s.cache.typed[SlotHashesVar].hashes else []
  }

  /** Addresses appended in the current slot are not visible yet. */
  function Visible(t: Table, slot: u64): seq<Key> {
    if t.meta.lastExtendedSlot == slot && t.meta.startIndex < |t.addresses|
    then t.addresses[..t.meta.startIndex] else t.addresses
  }

  datatype LookupError =
    | AddressLookupTableNotFound
    | InvalidAddressLookupTableOwner
    | InvalidAddressLookupTableData
    | InvalidAddressLookupTableIndex

  function ErrorName(e: LookupError): string {
    match e
    case AddressLookupTableNotFound => "AddressLookupTableNotFound"
    case InvalidAddressLookupTableOwner => "InvalidAddressLookupTableOwner"
    case InvalidAddressLookupTableData => "InvalidAddressLookupTableData"
    case InvalidAddressLookupTableIndex => "InvalidAddressLookupTableIndex"
  }

  /** The visible addresses of one table, or what is wrong with it. */
  function LoadTable(lib: Library, s: State, id: Key): Result<seq<Key>, LookupError> {
    if id !in s.store then Err(AddressLookupTableNotFound)
    else if s.store[id].owner != LookupTableProgram then Err(InvalidAddressLookupTableOwner)
    else
      match lib.decodeTable(s.store[id].data)
      case None => Err(InvalidAddressLookupTableData)
      case Some(t) =>
        if lib.deactivated(t.meta, CurrentSlot(s), CachedSlotHashes(s)) then Err(AddressLookupTableNotFound)
        else Ok(Visible(t, CurrentSlot(s)))
  }

  function Tables(ls: seq<Lookup>): seq<Key> {
    seq(|ls|, i requires 0 <= i < |ls| => ls[i].table)
  }

  function TableIds(ls: seq<Lookup>): (ids: seq<Key>)
    ensures forall i :: 0 <= i < |ls| ==> ls[i].table in ids
    ensures forall k :: k in ids ==> exists i :: 0 <= i < |ls| && ls[i].table == k
  {
    assert forall i :: 0 <= i < |ls| ==> Tables(ls)[i] == ls[i].table && Tables(ls)[i] in Tables(ls);
    FirstOccurrences(Tables(ls))
  }

  /** Loads every table, stopping at the first faulty one. */
  method LoadTables(lib: Library, s: State, ids: seq<Key>) returns (r: Result<map<Key, seq<Key>>, LookupError>)
    ensures r.Ok? ==> forall k :: k in r.value <==> k in ids
    ensures r.Ok? ==> forall k :: k in ids ==> LoadTable(lib, s, k) == Ok(r.value[k])
    ensures r.Err? ==> exists i :: 0 <= i < |ids| && LoadTable(lib, s, ids[i]) == Err(r.error)
                                   && forall j :: 0 <= j < i ==> LoadTable(lib, s, ids[j]).Ok?
  {
    var tables: map<Key, seq<Key>> := map[];
    for i := 0 to |ids|
      invariant forall k :: k in tables <==> k in ids[..i]
      invariant forall j :: 0 <= j < i ==> LoadTable(lib, s, ids[j]).Ok?
      invariant forall k :: k in tables ==> LoadTable(lib, s, k) == Ok(tables[k])
    {
      var id := ids[i];
      if id !in s.store {
        return Err(AddressLookupTableNotFound);
      }
      var acct := s.store[id];
      if acct.owner != LookupTableProgram {
        return Err(InvalidAddressLookupTableOwner);
      }
      var table := lib.decodeTable(acct.data);
      if table.None? {
        return Err(InvalidAddressLookupTableData);
      }
      if lib.deactivated(table.value.meta, CurrentSlot(s), CachedSlotHashes(s)) {
        return Err(AddressLookupTableNotFound);
      }
      var active := table.value.addresses;
      if table.value.meta.lastExtendedSlot == CurrentSlot(s) {
        var n: nat := table.value.meta.startIndex;
        if n > |active| {
          n := |active|;
        }
        active := active[..n];
        assert active == Visible(table.value, CurrentSlot(s));
      }
      tables := tables[id := active];
      assert ids[..i + 1] == ids[..i] + [id];
    }
    assert ids[..|ids|] == ids;
    r := Ok(tables);
  }

  // ----- specification -----

  /** The first table, in order, that cannot be used. */
  function FirstFault(lib: Library, s: State, ids: seq<Key>): Option<LookupError> {
    if ids == [] then None
    else
      match LoadTable(lib, s, ids[0])
      case Err(e) => Some(e)
      case Ok(_) => FirstFault(lib, s, ids[1..])
  }

  /** The addresses a list of indexes selects from one table. */
  function Select(visible: seq<Key>, indexes: seq<u8>): Option<seq<Key>> {
    if exists i :: 0 <= i < |indexes| && indexes[i] >= |visible| then None
    else Some(seq(|indexes|, i requires 0 <= i < |indexes| && indexes[i] < |visible| => visible[indexes[i]]))
  }

  function VisibleOf(lib: Library, s: State, id: Key): seq<Key> {
    match LoadTable(lib, s, id)
    case Ok(v) => v
    case Err(_) => []
  }

  /** All addresses loaded writable (or all loaded readonly), lookup by lookup. */
  function Loaded(lib: Library, s: State, ls: seq<Lookup>, writable: bool): Option<seq<Key>> {
    if ls == [] then Some([])
    else
      var l := ls[|ls| - 1];
      var rest := Loaded(lib, s, ls[..|ls| - 1], writable);
      var here := Select(VisibleOf(lib, s, l.table), if writable then l.writable else l.readonly);
      if rest.None? || here.None? then None else Some(rest.value + here.value)
  }

  function Resolve(lib: Library, s: State, m: Message): Result<Message, LookupError> {
    if !m.versioned || m.resolved || NumLookups(m.lookups) == 0 then Ok(m)
    else
      match FirstFault(lib, s, TableIds(m.lookups))
      case Some(e) => Err(e)
      case None =>
        var w, r := Loaded(lib, s, m.lookups, true), Loaded(lib, s, m.lookups, false);
        if w.None? || r.None? then Err(InvalidAddressLookupTableIndex)
        else Ok(m.(keys := m.keys + w.value + r.value, resolved := true))
  }

  lemma {:induction false} FirstFaultIsFirst(lib: Library, s: State, ids: seq<Key>, i: nat)
    requires i < |ids| && LoadTable(lib, s, ids[i]).Err?
    requires forall j :: 0 <= j < i ==> LoadTable(lib, s, ids[j]).Ok?
    ensures FirstFault(lib, s, ids) == Some(LoadTable(lib, s, ids[i]).error)
  {
    if i > 0 {
      FirstFaultIsFirst(lib, s, ids[1..], i - 1);
    }
  }

  lemma {:induction false} NoFault(lib: Library, s: State, ids: seq<Key>)
    ensures FirstFault(lib, s, ids).None? <==> forall k :: k in ids ==> LoadTable(lib, s, k).Ok?
  {
    if ids != [] {
      NoFault(lib, s, ids[1..]);
      assert ids == [ids[0]] + ids[1..];
    }
  }

  /** `ResolveLookups` of the message library: indexes are read through the loaded tables. */
  method SelectAll(lib: Library, s: State, tables: map<Key, seq<Key>>, ls: seq<Lookup>, writable: bool)
    returns (r: Option<seq<Key>>)
    requires forall i :: 0 <= i < |ls| ==> ls[i].table in tables
    requires forall k :: k in tables ==> LoadTable(lib, s, k) == Ok(tables[k])
    ensures r == Loaded(lib, s, ls, writable)
  {
    var keys: seq<Key> := [];
    for i := 0 to |ls|
      invariant Loaded(lib, s, ls[..i], writable) == Some(keys)
    {
      assert ls[..i + 1][..i] == ls[..i];
      var indexes := if writable then ls[i].writable else ls[i].readonly;
      var here := Select(tables[ls[i].table], indexes);
      if here.None? {
        LoadedStaysNone(lib, s, ls, writable, i + 1);
        return None;
      }
      keys := keys + here.value;
    }
    assert ls[..|ls|] == ls;
    r := Some(keys);
  }

  lemma {:induction false} LoadedStaysNone(lib: Library, s: State, ls: seq<Lookup>, writable: bool, n: nat)
    requires n <= |ls| && Loaded(lib, s, ls[..n], writable).None?
    ensures Loaded(lib, s, ls, writable).None?
  {
    if n < |ls| {
      assert ls[..|ls| - 1][..n] == ls[..n];
      LoadedStaysNone(lib, s, ls[..|ls| - 1], writable, n);
    } else {
      assert ls[..n] == ls;
    }
  }

  method LoadInOrder(lib: Library, s: State, ids: seq<Key>) returns (r: Result<map<Key, seq<Key>>, LookupError>)
    ensures FirstFault(lib, s, ids) == if r.Err? then Some(r.error) else None
    ensures r.Ok? ==> forall k :: k in ids ==> k in r.value
    ensures r.Ok? ==> forall k :: k in r.value ==> LoadTable(lib, s, k) == Ok(r.value[k])
  {
    r := LoadTables(lib, s, ids);
    NoFault(lib, s, ids);
    if r.Err? {
      ghost var i :| 0 <= i < |ids| && LoadTable(lib, s, ids[i]) == Err(r.error)
                     && forall j :: 0 <= j < i ==> LoadTable(lib, s, ids[j]).Ok?;
      FirstFaultIsFirst(lib, s, ids, i);
    }
  }

  /** The addresses that the lookups of a message load, writable ones first. */
  method LoadedKeys(lib: Library, s: State, m: Message) returns (r: Result<seq<Key>, LookupError>)
    requires m.versioned && !m.resolved && NumLookups(m.lookups) > 0
    ensures Resolve(lib, s, m) ==
            if r.Err? then Err(r.error) else Ok(m.(keys := m.keys + r.value, resolved := true))
  {
    var tables := LoadInOrder(lib, s, TableIds(m.lookups));
    if tables.Err? {
      return Err(tables.error);
    }
    var writable := SelectAll(lib, s, tables.value, m.lookups, true);
    var readonly := SelectAll(lib, s, tables.value, m.lookups, false);
    if writable.None? || readonly.None? {
      return Err(InvalidAddressLookupTableIndex);
    }
    assert m.keys + (writable.value + readonly.value) == m.keys + writable.value + readonly.value;
    r := Ok(writable.value + readonly.value);
  }

  /** The in-place resolution of a transaction's message. */
  method ResolveLookups(lib: Library, s: State, tx: MessageCell) returns (err: Option<LookupError>)
    modifies tx
    ensures match Resolve(lib, s, old(tx.Value()))
            case Ok(m) => err == None && tx.Value() == m
            case Err(e) => err == Some(e) && tx.Value() == old(tx.Value())
  {
    if !tx.versioned || tx.resolved || NumLookups(tx.lookups) == 0 {
      return None;
    }
    var loaded := LoadedKeys(lib, s, tx.Value());
    if loaded.Err? {
      return Some(loaded.error);
    }
    tx.keys := tx.keys + loaded.value;
    tx.resolved := true;
    err := None;
  }

  // ----- what resolution guarantees -----

  /** A table that exists, has the right owner, decodes, and is not deactivated. */
  predicate Usable(lib: Library, s: State, id: Key) {
    && id in s.store
    && s.store[id].owner == LookupTableProgram
    && lib.decodeTable(s.store[id].data).Some?
    && !lib.deactivated(lib.decodeTable(s.store[id].data).value.meta, CurrentSlot(s), CachedSlotHashes(s))
  }

  /** Every index of a lookup lies inside the visible prefix of its table. */
  predicate InVisible(lib: Library, s: State, l: Lookup) {
    Within(l, |VisibleOf(lib, s, l.table)|)
  }

  predicate Within(l: Lookup, n: nat) {
    && (forall i :: 0 <= i < |l.writable| ==> l.writable[i] < n)
    && (forall i :: 0 <= i < |l.readonly| ==> l.readonly[i] < n)
  }

  lemma {:induction false} LoadedExactlyWhenVisible(lib: Library, s: State, ls: seq<Lookup>)
    ensures Loaded(lib, s, ls, true).Some? && Loaded(lib, s, ls, false).Some?
            <==> forall i :: 0 <= i < |ls| ==> InVisible(lib, s, ls[i])
  {
    if ls != [] {
      var rest, l := ls[..|ls| - 1], ls[|ls| - 1];
      LoadedExactlyWhenVisible(lib, s, rest);
      assert forall i :: 0 <= i < |rest| ==> rest[i] == ls[i];
      var v := VisibleOf(lib, s, l.table);
      assert Select(v, l.writable).Some? && Select(v, l.readonly).Some? <==> InVisible(lib, s, l);
      if forall i :: 0 <= i < |ls| ==> InVisible(lib, s, ls[i]) {
        assert InVisible(lib, s, ls[|ls| - 1]);
        assert forall i :: 0 <= i < |rest| ==> InVisible(lib, s, ls[i]);
      }
    }
  }

  /** Resolution of an unresolved message with lookups succeeds exactly when every table is
      usable and every index is visible. */
  lemma ResolveSucceedsExactly(lib: Library, s: State, m: Message)
    requires m.versioned && !m.resolved && NumLookups(m.lookups) > 0
    ensures Resolve(lib, s, m).Ok? <==>
            forall i :: 0 <= i < |m.lookups| ==>
                          Usable(lib, s, m.lookups[i].table) && InVisible(lib, s, m.lookups[i])
  {
    NoFault(lib, s, TableIds(m.lookups));
    LoadedExactlyWhenVisible(lib, s, m.lookups);
    assert forall k :: LoadTable(lib, s, k).Ok? <==> Usable(lib, s, k);
  }

  // ----- which addresses a resolved message gets -----

  function NumLoaded(ls: seq<Lookup>, writable: bool): nat {
    if writable then NumWritableLookups(ls) else NumReadonlyLookups(ls)
  }

  function IndexesOf(l: Lookup, writable: bool): seq<u8> {
    if writable then l.writable else l.readonly
  }

  /** What one lookup loads, if all its indexes are visible. */
  function Picked(lib: Library, s: State, l: Lookup, writable: bool): seq<Key> {
    var part := Select(VisibleOf(lib, s, l.table), IndexesOf(l, writable));
    if part.Some? then part.value else []
  }

  function Parts(lib: Library, s: State, ls: seq<Lookup>, writable: bool): (parts: seq<seq<Key>>)
    ensures |parts| == |ls|
  {
    seq(|ls|, i requires 0 <= i < |ls| => Picked(lib, s, ls[i], writable))
  }

  /** Every index of every lookup is visible. */
  predicate PartsFit(parts: seq<seq<Key>>, ls: seq<Lookup>, writable: bool) {
    |parts| == |ls| && forall i :: 0 <= i < |ls| ==> |parts[i]| == |IndexesOf(ls[i], writable)|
  }

  lemma LoadedSnoc(lib: Library, s: State, rest: seq<Lookup>, l: Lookup, writable: bool)
    requires Loaded(lib, s, rest + [l], writable).Some?
    ensures Loaded(lib, s, rest, writable).Some?
    ensures Loaded(lib, s, rest + [l], writable).value == Loaded(lib, s, rest, writable).value + Picked(lib, s, l, writable)
    ensures |Picked(lib, s, l, writable)| == |IndexesOf(l, writable)|
  {
    assert (rest + [l])[..|rest|] == rest;
  }

  lemma PartsSnoc(lib: Library, s: State, rest: seq<Lookup>, l: Lookup, writable: bool)
    ensures Parts(lib, s, rest + [l], writable) == Parts(lib, s, rest, writable) + [Picked(lib, s, l, writable)]
    ensures Concat(Parts(lib, s, rest + [l], writable)) == Concat(Parts(lib, s, rest, writable)) + Picked(lib, s, l, writable)
  {
    var parts := Parts(lib, s, rest, writable);
    assert (parts + [Picked(lib, s, l, writable)])[..|rest|] == parts;
  }

  lemma {:induction false} LoadedIsConcat(lib: Library, s: State, ls: seq<Lookup>, writable: bool)
    requires Loaded(lib, s, ls, writable).Some?
    ensures Loaded(lib, s, ls, writable).value == Concat(Parts(lib, s, ls, writable))
    ensures PartsFit(Parts(lib, s, ls, writable), ls, writable)
  {
    if ls != [] {
      var rest, l := ls[..|ls| - 1], ls[|ls| - 1];
      assert ls == rest + [l];
      LoadedSnoc(lib, s, rest, l, writable);
      LoadedIsConcat(lib, s, rest, writable);
      PartsSnoc(lib, s, rest, l, writable);
    }
  }

  lemma {:induction false} PartsSize(parts: seq<seq<Key>>, ls: seq<Lookup>, writable: bool)
    requires PartsFit(parts, ls, writable)
    ensures |Concat(parts)| == NumLoaded(ls, writable)
  {
    if ls != [] {
      var n := |ls| - 1;
      PartsSize(parts[..n], ls[..n], writable);
      LookupsSnoc(ls[..n], ls[n]);
      assert ls == ls[..n] + [ls[n]];
    }
  }

  predicate SitsAt(keys: seq<Key>, at: nat, visible: seq<Key>, index: nat) {
    at < |keys| && index < |visible| && keys[at] == visible[index]
  }

  lemma PartAt(lib: Library, s: State, ls: seq<Lookup>, writable: bool, i: nat, j: nat)
    requires i < |ls| && j < |Parts(lib, s, ls, writable)[i]|
    ensures j < |IndexesOf(ls[i], writable)|
    ensures SitsAt(Parts(lib, s, ls, writable)[i], j, VisibleOf(lib, s, ls[i].table), IndexesOf(ls[i], writable)[j])
  {
  }

  lemma PartSits(parts: seq<seq<Key>>, ls: seq<Lookup>, writable: bool, i: nat, j: nat, visible: seq<Key>, index: nat)
    requires PartsFit(parts, ls, writable) && i < |ls| && SitsAt(parts[i], j, visible, index)
    ensures SitsAt(Concat(parts), NumLoaded(ls[..i], writable) + j, visible, index)
  {
    PartsSize(parts[..i], ls[..i], writable);
    ConcatSits(parts, i, j);
  }

  /** Static keys, then the writable addresses, then the readonly ones; inside both, lookup by lookup. */
  lemma ResolvedKeys(lib: Library, s: State, m: Message) returns (w: seq<seq<Key>>, r: seq<seq<Key>>)
    requires m.versioned && !m.resolved && NumLookups(m.lookups) > 0 && Resolve(lib, s, m).Ok?
    ensures w == Parts(lib, s, m.lookups, true) && PartsFit(w, m.lookups, true)
    ensures r == Parts(lib, s, m.lookups, false) && PartsFit(r, m.lookups, false)
    ensures Resolve(lib, s, m).value == m.(keys := m.keys + Concat(w) + Concat(r), resolved := true)
  {
    w, r := Parts(lib, s, m.lookups, true), Parts(lib, s, m.lookups, false);
    LoadedIsConcat(lib, s, m.lookups, true);
    LoadedIsConcat(lib, s, m.lookups, false);
  }

  /** A message without open lookups is left as it is; any other resolved message keeps everything
      but its keys, which go on with one address per lookup index. */
  lemma ResolvedShape(lib: Library, s: State, m: Message)
    ensures !m.versioned || m.resolved || NumLookups(m.lookups) == 0 ==> Resolve(lib, s, m) == Ok(m)
    ensures m.versioned && !m.resolved && NumLookups(m.lookups) > 0 && Resolve(lib, s, m).Ok? ==>
              var m' := Resolve(lib, s, m).value;
              && m' == m.(keys := m'.keys, resolved := true)
              && m.keys <= m'.keys
              && |m'.keys| == |m.keys| + NumLookups(m.lookups)
              && NumStatic(m') == |m.keys|
  {
    if m.versioned && !m.resolved && NumLookups(m.lookups) > 0 && Resolve(lib, s, m).Ok? {
      var w, r := ResolvedKeys(lib, s, m);
      PartsSize(w, m.lookups, true);
      PartsSize(r, m.lookups, false);
      LookupsAreCounted(m.lookups);
    }
  }

  /** Where index `j` of lookup `i` ends up in a resolved message: behind the static keys come all
      writable addresses in lookup order, then all readonly ones. */
  function LoadedPosition(m: Message, i: nat, j: nat, writable: bool): nat
    requires i < |m.lookups|
  {
    |m.keys| + (if writable then 0 else NumWritableLookups(m.lookups)) + NumLoaded(m.lookups[..i], writable) + j
  }

  lemma SitsBetween(before: seq<Key>, here: seq<Key>, after: seq<Key>, at: nat, visible: seq<Key>, index: nat)
    requires SitsAt(here, at, visible, index)
    ensures SitsAt(before + here + after, |before| + at, visible, index)
  {
  }

  lemma LoadedAddressSits(m: Message, w: seq<seq<Key>>, r: seq<seq<Key>>, i: nat, j: nat, writable: bool,
                          visible: seq<Key>, index: nat)
    requires PartsFit(w, m.lookups, true) && PartsFit(r, m.lookups, false) && i < |m.lookups|
    requires SitsAt(if writable then w[i] else r[i], j, visible, index)
    ensures SitsAt(m.keys + Concat(w) + Concat(r), LoadedPosition(m, i, j, writable), visible, index)
  {
    PartsSize(w, m.lookups, true);
    if writable {
      PartSits(w, m.lookups, true, i, j, visible, index);
      SitsBetween(m.keys, Concat(w), Concat(r), NumLoaded(m.lookups[..i], true) + j, visible, index);
    } else {
      PartSits(r, m.lookups, false, i, j, visible, index);
      SitsBetween(m.keys + Concat(w), Concat(r), [], NumLoaded(m.lookups[..i], false) + j, visible, index);
      assert m.keys + Concat(w) + Concat(r) + [] == m.keys + Concat(w) + Concat(r);
    }
  }

  lemma LoadedRole(m: Message, m': Message, i: nat, j: nat, writable: bool)
    requires i < |m.lookups| && j < |IndexesOf(m.lookups[i], writable)|
    requires m'.lookups == m.lookups && m'.header == m.header && NumStatic(m') == |m.keys|
    requires LoadedPosition(m, i, j, writable) < |m'.keys|
    ensures var at := LoadedPosition(m, i, j, writable);
            MetaAt(m', at) == Meta(m'.keys[at], at < m.header.required, writable)
  {
    LookupCounts(m.lookups, i, j, writable);
  }

  lemma {:induction false} LookupCounts(ls: seq<Lookup>, i: nat, j: nat, writable: bool)
    requires i < |ls| && j < |IndexesOf(ls[i], writable)|
    ensures NumLoaded(ls[..i], writable) + j < NumLoaded(ls, writable) <= NumLookups(ls)
  {
    var rest, l := ls[..|ls| - 1], ls[|ls| - 1];
    LookupsAreCounted(ls);
    LookupsSnoc(rest, l);
    assert ls == rest + [l];
    if i < |rest| {
      LookupCounts(rest, i, j, writable);
      assert rest[..i] == ls[..i];
    }
  }

  /** Every loaded address is the one its table lists at that index, in its place, with the role its
      list gives it; it signs only if the header claims more signers than there are static keys. */
  lemma LoadedAddressExactly(lib: Library, s: State, m: Message, i: nat, j: nat, writable: bool)
    requires m.versioned && !m.resolved && Resolve(lib, s, m).Ok?
    requires i < |m.lookups| && j < |IndexesOf(m.lookups[i], writable)|
    ensures Usable(lib, s, m.lookups[i].table)
    ensures var m', at := Resolve(lib, s, m).value, LoadedPosition(m, i, j, writable);
            var addresses, index := TableOf(lib, s, m.lookups[i].table).addresses, IndexesOf(m.lookups[i], writable)[j];
            && at < |m'.keys| && index < |addresses|
            && MetaAt(m', at) == Meta(addresses[index], at < m.header.required, writable)
  {
    LookupCounts(m.lookups, i, j, writable);
    LoadedKeyExactly(lib, s, m, i, j, writable);
    ResolvedShape(lib, s, m);
    LoadedRole(m, Resolve(lib, s, m).value, i, j, writable);
  }

  lemma LoadedKeyExactly(lib: Library, s: State, m: Message, i: nat, j: nat, writable: bool)
    requires m.versioned && !m.resolved && NumLookups(m.lookups) > 0 && Resolve(lib, s, m).Ok?
    requires i < |m.lookups| && j < |IndexesOf(m.lookups[i], writable)|
    ensures Usable(lib, s, m.lookups[i].table)
    ensures SitsAt(Resolve(lib, s, m).value.keys, LoadedPosition(m, i, j, writable),
                   TableOf(lib, s, m.lookups[i].table).addresses, IndexesOf(m.lookups[i], writable)[j])
  {
    var w, r := ResolvedKeys(lib, s, m);
    var visible, index := VisibleOf(lib, s, m.lookups[i].table), IndexesOf(m.lookups[i], writable)[j];
    PartAt(lib, s, m.lookups, writable, i, j);
    LoadedAddressSits(m, w, r, i, j, writable, visible, index);
    VisibleAddress(lib, s, m.lookups[i].table, index);
  }

  lemma VisibleAddress(lib: Library, s: State, id: Key, index: nat)
    requires index < |VisibleOf(lib, s, id)|
    ensures Usable(lib, s, id)
    ensures index < |TableOf(lib, s, id).addresses| && VisibleOf(lib, s, id)[index] == TableOf(lib, s, id).addresses[index]
  {
  }

  lemma {:induction false} FaultAtEnd(lib: Library, s: State, ids: seq<Key>, id: Key)
    ensures FirstFault(lib, s, ids + [id]) ==
            if FirstFault(lib, s, ids).Some? then FirstFault(lib, s, ids) else FirstFault(lib, s, [id])
  {
    if ids == [] {
      assert [] + [id] == [id];
    } else {
      FaultAtEnd(lib, s, ids[1..], id);
      assert (ids + [id])[1..] == ids[1..] + [id];
    }
  }

  lemma {:induction false} FaultsIgnoreRepeats(lib: Library, s: State, ids: seq<Key>)
    ensures FirstFault(lib, s, FirstOccurrences(ids)) == FirstFault(lib, s, ids)
  {
    if ids != [] {
      var rest, id := ids[..|ids| - 1], ids[|ids| - 1];
      assert ids == rest + [id];
      FaultsIgnoreRepeats(lib, s, rest);
      FaultAtEnd(lib, s, rest, id);
      FaultAtEnd(lib, s, FirstOccurrences(rest), id);
      NoFault(lib, s, rest);
    }
  }

  /** A table fault is reported by the first lookup, in message order, whose table is faulty. */
  lemma ResolveReportsFirstFault(lib: Library, s: State, m: Message, i: nat)
    requires m.versioned && !m.resolved && NumLookups(m.lookups) > 0
    requires i < |m.lookups| && !Usable(lib, s, m.lookups[i].table)
    requires forall j :: 0 <= j < i ==> Usable(lib, s, m.lookups[j].table)
    ensures Resolve(lib, s, m) == Err(LoadTable(lib, s, m.lookups[i].table).error)
  {
    FaultsIgnoreRepeats(lib, s, Tables(m.lookups));
    FirstFaultIsFirst(lib, s, Tables(m.lookups), i);
  }

  /** Moving from one slot to a later one hides an address in one case only: the move lands
      exactly on the slot of the table's last extension, from before it. */
  lemma AdvancingHidesExactly(t: Table, from: u64, to: u64)
    requires from <= to
    ensures |Visible(t, to)| < |Visible(t, from)|
            <==> from < t.meta.lastExtendedSlot == to && t.meta.startIndex < |t.addresses|
    ensures Visible(t, from) <= t.addresses && Visible(t, to) <= t.addresses
  {
  }

  function TableOf(lib: Library, s: State, id: Key): Table
    requires Usable(lib, s, id)
  {
    lib.decodeTable(s.store[id].data).value
  }

  /** A lookup read from a table that was last extended at `slot` stays below the extension. */
  predicate StaysVisible(t: Table, l: Lookup, slot: u64) {
    t.meta.lastExtendedSlot == slot ==> Within(l, t.meta.startIndex)
  }

  /** The table of a lookup that resolves now can be used at another slot: it is not the Clock
      account, which a warp rewrites, and is not deactivated at that slot. */
  predicate StaysUsable(lib: Library, s: State, l: Lookup, slot: u64)
    requires Usable(lib, s, l.table)
  {
    l.table != SysvarKey(ClockVar) && !lib.deactivated(TableOf(lib, s, l.table).meta, slot, CachedSlotHashes(s))
  }

  /** A lookup that resolves now goes on to resolve at another slot. */
  predicate Survives(lib: Library, s: State, l: Lookup, slot: u64) {
    Usable(lib, s, l.table) && StaysUsable(lib, s, l, slot) && StaysVisible(TableOf(lib, s, l.table), l, slot)
  }

  /** A message that resolves now resolves to the same keys after a warp, forward or backward,
      exactly when no table is deactivated at the new slot and no index reaches past the start of
      an extension made at that very slot. When the tables stay usable, the index is reported. */
  lemma WarpKeepsResolutionExactly(lib: Library, s: State, m: Message, slot: u64)
    requires m.versioned && !m.resolved && NumLookups(m.lookups) > 0
    requires Resolve(lib, s, m).Ok?
    ensures Resolve(lib, WarpToSlot(lib, s, slot), m) == Resolve(lib, s, m) <==>
            forall i :: 0 <= i < |m.lookups| ==> Survives(lib, s, m.lookups[i], slot)
    ensures Resolve(lib, WarpToSlot(lib, s, slot), m) != Resolve(lib, s, m) ==>
              || Resolve(lib, WarpToSlot(lib, s, slot), m) == Err(InvalidAddressLookupTableIndex)
              || exists i :: 0 <= i < |m.lookups| && !Usable(lib, WarpToSlot(lib, s, slot), m.lookups[i].table)
  {
    var s' := WarpToSlot(lib, s, slot);
    ResolveSucceedsExactly(lib, s, m);
    ResolveSucceedsExactly(lib, s', m);
    forall i | 0 <= i < |m.lookups|
      ensures Usable(lib, s', m.lookups[i].table) && InVisible(lib, s', m.lookups[i]) <==> Survives(lib, s, m.lookups[i], slot)
      ensures Survives(lib, s, m.lookups[i], slot) ==>
                SameAddresses(VisibleOf(lib, s, m.lookups[i].table), VisibleOf(lib, s', m.lookups[i].table))
    {
      WarpedTable(lib, s, m.lookups[i], slot);
    }
    if forall i :: 0 <= i < |m.lookups| ==> Survives(lib, s, m.lookups[i], slot) {
      SameSelection(lib, s, s', m.lookups, true);
      SameSelection(lib, s, s', m.lookups, false);
      SameResult(lib, s, s', m);
    } else if forall i :: 0 <= i < |m.lookups| ==> Usable(lib, s', m.lookups[i].table) {
      HiddenIsReported(lib, s', m);
    }
  }

  lemma HiddenIsReported(lib: Library, s: State, m: Message)
    requires Resolve(lib, s, m).Err?
    requires forall i :: 0 <= i < |m.lookups| ==> Usable(lib, s, m.lookups[i].table)
    ensures Resolve(lib, s, m) == Err(InvalidAddressLookupTableIndex)
  {
    NoFault(lib, s, TableIds(m.lookups));
    assert forall k :: LoadTable(lib, s, k).Ok? <==> Usable(lib, s, k);
  }

  lemma SameResult(lib: Library, s: State, s': State, m: Message)
    requires Resolve(lib, s, m).Ok? && Resolve(lib, s', m).Ok?
    requires Loaded(lib, s', m.lookups, true) == Loaded(lib, s, m.lookups, true)
    requires Loaded(lib, s', m.lookups, false) == Loaded(lib, s, m.lookups, false)
    ensures Resolve(lib, s', m) == Resolve(lib, s, m)
  {
  }

  /** Two views of one address list. */
  predicate SameAddresses(a: seq<Key>, b: seq<Key>) {
    forall j :: 0 <= j < |a| && j < |b| ==> a[j] == b[j]
  }

  lemma WarpedTable(lib: Library, s: State, l: Lookup, slot: u64)
    requires Usable(lib, s, l.table) && InVisible(lib, s, l)
    ensures var s' := WarpToSlot(lib, s, slot);
            && (Usable(lib, s', l.table) && InVisible(lib, s', l) <==> Survives(lib, s, l, slot))
            && (Survives(lib, s, l, slot) ==> SameAddresses(VisibleOf(lib, s, l.table), VisibleOf(lib, s', l.table)))
  {
    var s' := WarpToSlot(lib, s, slot);
    assert CurrentSlot(s') == slot && CachedSlotHashes(s') == CachedSlotHashes(s);
    if l.table == SysvarKey(ClockVar) {
      assert s'.store[l.table].owner == SysvarOwner;
    } else {
      assert l.table in s'.store && s'.store[l.table] == s.store[l.table];
      VisibleIndexes(TableOf(lib, s, l.table), l, CurrentSlot(s), slot);
    }
  }

  lemma VisibleIndexes(t: Table, l: Lookup, from: u64, to: u64)
    requires Within(l, |Visible(t, from)|)
    ensures Within(l, |Visible(t, to)|) <==> StaysVisible(t, l, to)
    ensures SameAddresses(Visible(t, from), Visible(t, to))
  {
    assert |Visible(t, from)| <= |t.addresses|;
  }

  lemma {:induction false} SameSelection(lib: Library, s: State, s': State, ls: seq<Lookup>, writable: bool)
    requires forall i :: 0 <= i < |ls| ==> SameAddresses(VisibleOf(lib, s, ls[i].table), VisibleOf(lib, s', ls[i].table))
    requires forall i :: 0 <= i < |ls| ==> InVisible(lib, s, ls[i]) && InVisible(lib, s', ls[i])
    ensures Loaded(lib, s', ls, writable) == Loaded(lib, s, ls, writable)
  {
    if ls != [] {
      var rest, l := ls[..|ls| - 1], ls[|ls| - 1];
      SameSelection(lib, s, s', rest, writable);
      var idx := if writable then l.writable else l.readonly;
      assert InVisible(lib, s, l) && InVisible(lib, s', l);
      assert Select(VisibleOf(lib, s', l.table), idx).value == Select(VisibleOf(lib, s, l.table), idx).value;
    }
  }

  /** In particular a result is kept when the bank is warped forward, provided no table was extended
      after the current slot and none is deactivated at the new one. */
  lemma WarpingForwardKeepsResolution(lib: Library, s: State, m: Message, slot: u64)
    requires m.versioned && !m.resolved && NumLookups(m.lookups) > 0
    requires Resolve(lib, s, m).Ok? && CurrentSlot(s) <= slot
    requires forall i :: 0 <= i < |m.lookups| ==> NotExtendedAhead(lib, s, m.lookups[i], slot)
    ensures Resolve(lib, WarpToSlot(lib, s, slot), m) == Resolve(lib, s, m)
  {
    ResolveSucceedsExactly(lib, s, m);
    forall i | 0 <= i < |m.lookups| ensures Survives(lib, s, m.lookups[i], slot) {
      assert NotExtendedAhead(lib, s, m.lookups[i], slot);
      VisibleIndexes(TableOf(lib, s, m.lookups[i].table), m.lookups[i], CurrentSlot(s), slot);
    }
    WarpKeepsResolutionExactly(lib, s, m, slot);
  }

  predicate NotExtendedAhead(lib: Library, s: State, l: Lookup, slot: u64) {
    Usable(lib, s, l.table) ==>
      && StaysUsable(lib, s, l, slot)
      && TableOf(lib, s, l.table).meta.lastExtendedSlot <= CurrentSlot(s)
  }
}
