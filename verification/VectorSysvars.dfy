/** The vector sysvars SlotHashes and StakeHistory: the canonical list a setter installs, and the
    fixed-size account that holds it (sysvars.go). */
module VectorSysvars {
  import opened Types
  import opened Engine
  import opened Sysvars
  import opened SysvarCodecs

  const MAX_ENTRIES: nat := 512

  // ----- canonical lists -----

  /** Inserts into a descending list, replacing the entry with the same key. */
  function Insert<V>(l: seq<Keyed<V>>, e: Keyed<V>): seq<Keyed<V>> {
    if l == [] || e.key > l[0].key then [e] + l
    else if e.key == l[0].key then [e] + l[1..]
    else [l[0]] + Insert(l[1..], e)
  }

  /** The library's `Add`: insert, then keep at most `max` entries. */
  function Add<V>(l: seq<Keyed<V>>, e: Keyed<V>, max: nat): seq<Keyed<V>> {
    var r := Insert(l, e);
    if |r| > max then r[..max] else r
  }

  function Canonical<V>(items: seq<Keyed<V>>, max: nat): seq<Keyed<V>> {
    if items == [] then [] else Add(Canonical(items[..|items| - 1], max), items[|items| - 1], max)
  }

  /** The loop of `SetSlotHashes` and `SetStakeHistory`. */
  method Canonicalize<V>(items: seq<Keyed<V>>, max: nat) returns (r: seq<Keyed<V>>)
    ensures r == Canonical(items, max)
  {
    r := [];
    for i := 0 to |items|
      invariant r == Canonical(items[..i], max)
    {
      assert items[..i + 1][..i] == items[..i];
      r := Add(r, items[i], max);
    }
    assert items[..|items|] == items;
  }

  /** The value given last for each key. */
  function Latest<V>(items: seq<Keyed<V>>): map<u64, V> {
    if items == [] then map[]
    else Latest(items[..|items| - 1])[items[|items| - 1].key := items[|items| - 1].value]
  }

  ghost predicate Descending<V>(l: seq<Keyed<V>>) {
    forall i, j :: 0 <= i < j < |l| ==> l[i].key > l[j].key
  }

  ghost predicate HasKey<V>(l: seq<Keyed<V>>, k: u64) {
    exists i :: 0 <= i < |l| && l[i].key == k
  }

  /** `l` is the newest part of `m`: descending, at most `max` entries, each with its value in `m`,
      and a key left out means that the list is full of newer ones. */
  ghost predicate NewestOf<V(!new)>(l: seq<Keyed<V>>, m: map<u64, V>, max: nat) {
    && Descending(l)
    && |l| <= max
    && (forall i :: 0 <= i < |l| ==> l[i].key in m && m[l[i].key] == l[i].value)
    && (forall k :: k in m && !HasKey(l, k) ==> |l| == max && forall i :: 0 <= i < |l| ==> l[i].key > k)
  }

  lemma HasKeyCons<V>(e: Keyed<V>, l: seq<Keyed<V>>, k: u64)
    ensures HasKey([e] + l, k) <==> e.key == k || HasKey(l, k)
  {
    var r := [e] + l;
    if HasKey(l, k) {
      var i :| 0 <= i < |l| && l[i].key == k;
      assert r[i + 1].key == k;
    }
    if e.key == k {
      assert r[0].key == k;
    }
  }

  lemma {:induction false} InsertKeys<V>(l: seq<Keyed<V>>, e: Keyed<V>, k: u64)
    ensures HasKey(Insert(l, e), k) <==> HasKey(l, k) || k == e.key
    ensures |l| <= |Insert(l, e)| <= |l| + 1
  {
    if l == [] || e.key > l[0].key {
      HasKeyCons(e, l, k);
    } else {
      var head, tail := l[0], l[1..];
      assert l == [head] + tail;
      HasKeyCons(head, tail, k);
      if e.key == head.key {
        HasKeyCons(e, tail, k);
      } else {
        InsertKeys(tail, e, k);
        HasKeyCons(head, Insert(tail, e), k);
      }
    }
  }

  lemma {:induction false} InsertDescending<V>(l: seq<Keyed<V>>, e: Keyed<V>)
    requires Descending(l)
    ensures Descending(Insert(l, e))
    ensures forall i :: 0 <= i < |Insert(l, e)| ==>
              Insert(l, e)[i] == e || (Insert(l, e)[i] in l && Insert(l, e)[i].key != e.key)
  {
    if l != [] && e.key < l[0].key {
      InsertDescending(l[1..], e);
    }
  }

  /** A key that `Add` leaves out is older than a full list of others. */
  lemma LeftOutIsOlder<V(!new)>(l: seq<Keyed<V>>, m: map<u64, V>, e: Keyed<V>, max: nat, k: u64)
    requires NewestOf(l, m, max)
    requires (k in m || k == e.key) && !HasKey(Add(l, e, max), k)
    ensures |Add(l, e, max)| == max && forall i :: 0 <= i < |Add(l, e, max)| ==> Add(l, e, max)[i].key > k
  {
    var full, r := Insert(l, e), Add(l, e, max);
    InsertDescending(l, e);
    InsertKeys(l, e, k);
    assert forall i :: 0 <= i < |r| ==> r[i] == full[i];
    if HasKey(full, k) {
      var j :| 0 <= j < |full| && full[j].key == k;
      assert j >= |r|;
    } else {
      OlderThanFull(l, e, max, k);
    }
  }

  lemma AddKeepsNewest<V(!new)>(l: seq<Keyed<V>>, m: map<u64, V>, e: Keyed<V>, max: nat)
    requires NewestOf(l, m, max)
    ensures NewestOf(Add(l, e, max), m[e.key := e.value], max)
  {
    var full, r, m' := Insert(l, e), Add(l, e, max), m[e.key := e.value];
    InsertDescending(l, e);
    forall i | 0 <= i < |r| ensures r[i].key in m' && m'[r[i].key] == r[i].value {
      assert r[i] == full[i];
    }
    forall k | k in m' && !HasKey(r, k) ensures |r| == max && forall i :: 0 <= i < |r| ==> r[i].key > k {
      LeftOutIsOlder(l, m, e, max, k);
    }
  }

  /** A key older than every entry of a full list stays out whatever is added. */
  lemma OlderThanFull<V>(l: seq<Keyed<V>>, e: Keyed<V>, max: nat, k: u64)
    requires Descending(l) && |l| == max && e.key != k
    requires forall i :: 0 <= i < |l| ==> l[i].key > k
    ensures |Add(l, e, max)| == max
    ensures forall i :: 0 <= i < |Add(l, e, max)| ==> Add(l, e, max)[i].key > k
  {
    InsertKeys(l, e, k);
    InsertDescending(l, e);
    if e.key < k {
      InsertOldest(l, e);
    }
  }

  lemma {:induction false} InsertOldest<V>(l: seq<Keyed<V>>, e: Keyed<V>)
    requires forall i :: 0 <= i < |l| ==> l[i].key > e.key
    ensures Insert(l, e) == l + [e]
  {
    if l != [] {
      InsertOldest(l[1..], e);
      assert l == [l[0]] + l[1..];
    }
  }

  /** For every input list, in any order and with any repeats: the installed list is strictly
      descending, holds the last value given for each of its keys, has at most `max` entries, and
      drops a key only for `max` newer ones. */
  lemma {:induction false} CanonicalIsNewest<V(!new)>(items: seq<Keyed<V>>, max: nat)
    ensures NewestOf(Canonical(items, max), Latest(items), max)
  {
    if items != [] {
      var rest := items[..|items| - 1];
      CanonicalIsNewest(rest, max);
      AddKeepsNewest(Canonical(rest, max), Latest(rest), items[|items| - 1], max);
    }
  }

  /** Where two such lists agree so far, the second one goes on with a key at least as new. */
  lemma RankAtLeast<V(!new)>(a: seq<Keyed<V>>, b: seq<Keyed<V>>, m: map<u64, V>, max: nat, i: nat)
    requires NewestOf(a, m, max) && NewestOf(b, m, max)
    requires i < |a| && i <= |b| && forall j :: 0 <= j < i ==> a[j].key == b[j].key
    ensures i < |b| && b[i].key >= a[i].key
  {
    var k := a[i].key;
    if HasKey(b, k) {
      var j :| 0 <= j < |b| && b[j].key == k;
      assert j >= i;
    } else {
      assert k in m;
      assert |b| == max;
    }
  }

  lemma SameAt<V(!new)>(a: seq<Keyed<V>>, b: seq<Keyed<V>>, m: map<u64, V>, max: nat, i: nat)
    requires NewestOf(a, m, max) && NewestOf(b, m, max)
    requires i < |a| && i <= |b| && forall j :: 0 <= j < i ==> a[j].key == b[j].key
    ensures i < |b| && a[i] == b[i]
  {
    RankAtLeast(a, b, m, max, i);
    RankAtLeast(b, a, m, max, i);
  }

  lemma {:induction false} SameUpTo<V(!new)>(a: seq<Keyed<V>>, b: seq<Keyed<V>>, m: map<u64, V>, max: nat, i: nat)
    requires NewestOf(a, m, max) && NewestOf(b, m, max) && i < |a|
    ensures i < |b| && a[i] == b[i]
    decreases i
  {
    forall j | 0 <= j < i ensures j < |b| && a[j].key == b[j].key {
      SameUpTo(a, b, m, max, j);
    }
    if i > 0 {
      SameUpTo(a, b, m, max, i - 1);
    }
    SameAt(a, b, m, max, i);
  }

  /** The description leaves no freedom: two lists that meet it are equal. */
  lemma NewestIsUnique<V(!new)>(a: seq<Keyed<V>>, b: seq<Keyed<V>>, m: map<u64, V>, max: nat)
    requires NewestOf(a, m, max) && NewestOf(b, m, max)
    ensures a == b
  {
    forall i | 0 <= i < |a| ensures i < |b| && a[i] == b[i] {
      SameUpTo(a, b, m, max, i);
    }
    if |b| > |a| {
      SameUpTo(b, a, m, max, |a|);
    }
    if a != [] {
      SameUpTo(a, b, m, max, |a| - 1);
    }
  }

  // ----- the accounts -----

  /** The two vector sysvars with a fixed account size. */
  predicate FixedVector(x: Sysvar) {
    x.SlotHashesVar? || x.StakeHistoryVar?
  }

  lemma PaddedWithZeros(x: Sysvar, d: Bytes)
    requires FixedVector(x) && |d| <= FixedSize(x)
    ensures Padded(x, d) == d + Zeros(FixedSize(x) - |d|)
  {
    assert d + Zeros(0) == d;
  }

  lemma AcceptedData(lib: Library, s: State, x: Sysvar, v: SysvarValue, data: Bytes)
    requires lib.decodeSysvar(x, data) == Some(v)
    ensures var r := SetSysvarData(lib, s, SysvarKey(x), data);
            && r.Ok?
            && x in r.value.cache.typed && r.value.cache.typed[x] == v
            && SysvarKey(x) in r.value.store && r.value.store[SysvarKey(x)].data == Padded(x, data)
  {
  }

  /** Installing an encoded list of at most 512 entries: the list becomes the typed value, and the
      account is its encoding followed by zeros, exactly as long as programs expect. */
  lemma VectorInstalls(lib: Library, s: State, x: Sysvar, v: SysvarValue)
    requires FixedVector(x) && Encodable(x, v) && |EncodeSysvar(v)| <= FixedSize(x)
    requires forall d :: lib.decodeSysvar(x, d) == DecodeSysvar(x, d)
    ensures var r := SetSysvarData(lib, s, SysvarKey(x), EncodeSysvar(v));
            && r.Ok?
            && x in r.value.cache.typed && r.value.cache.typed[x] == v
            && SysvarKey(x) in r.value.store
            && r.value.store[SysvarKey(x)].data == EncodeSysvar(v) + Zeros(FixedSize(x) - |EncodeSysvar(v)|)
            && DecodeSysvar(x, r.value.store[SysvarKey(x)].data) == Some(v)
  {
    var d := EncodeSysvar(v);
    SysvarRoundTrip(x, v, []);
    assert d + [] == d;
    SysvarRoundTrip(x, v, Zeros(FixedSize(x) - |d|));
    AcceptedData(lib, s, x, v, d);
    PaddedWithZeros(x, d);
  }

  /** `SetSlotHashes` over any list installs the canonical list: it is the typed value, the account
      has exactly 8 + 512 * 40 bytes, and those bytes decode back to it. */
  lemma SetSlotHashesInstalls(lib: Library, s: State, items: seq<SlotHash>)
    requires forall d :: lib.decodeSysvar(SlotHashesVar, d) == DecodeSysvar(SlotHashesVar, d)
    ensures var l := Canonical(items, MAX_ENTRIES);
            var r := SetSysvarData(lib, s, SysvarKey(SlotHashesVar), EncodeSysvar(SlotHashesValue(l)));
            && NewestOf(l, Latest(items), MAX_ENTRIES)
            && r.Ok?
            && SlotHashesVar in r.value.cache.typed && r.value.cache.typed[SlotHashesVar] == SlotHashesValue(l)
            && SysvarKey(SlotHashesVar) in r.value.store
            && |r.value.store[SysvarKey(SlotHashesVar)].data| == 8 + 512 * 40
            && DecodeSysvar(SlotHashesVar, r.value.store[SysvarKey(SlotHashesVar)].data) == Some(SlotHashesValue(l))
  {
    var l := Canonical(items, MAX_ENTRIES);
    CanonicalIsNewest(items, MAX_ENTRIES);
    SlotHashCodec();
    VectorRoundTrip(l, [], PutSlotHash, GetSlotHash, SLOT_HASH_WIDTH);
    VectorInstalls(lib, s, SlotHashesVar, SlotHashesValue(l));
  }

  /** `SetStakeHistory` likewise, in exactly 8 + 512 * 32 bytes. */
  lemma SetStakeHistoryInstalls(lib: Library, s: State, items: seq<Keyed<StakeEntry>>)
    requires forall d :: lib.decodeSysvar(StakeHistoryVar, d) == DecodeSysvar(StakeHistoryVar, d)
    ensures var l := Canonical(items, MAX_ENTRIES);
            var r := SetSysvarData(lib, s, SysvarKey(StakeHistoryVar), EncodeSysvar(StakeHistoryValue(l)));
            && NewestOf(l, Latest(items), MAX_ENTRIES)
            && r.Ok?
            && StakeHistoryVar in r.value.cache.typed && r.value.cache.typed[StakeHistoryVar] == StakeHistoryValue(l)
            && SysvarKey(StakeHistoryVar) in r.value.store
            && |r.value.store[SysvarKey(StakeHistoryVar)].data| == 8 + 512 * 32
            && DecodeSysvar(StakeHistoryVar, r.value.store[SysvarKey(StakeHistoryVar)].data) == Some(StakeHistoryValue(l))
  {
    var l := Canonical(items, MAX_ENTRIES);
    CanonicalIsNewest(items, MAX_ENTRIES);
    StakeCodec();
    VectorRoundTrip(l, [], PutStake, GetStake, STAKE_WIDTH);
    VectorInstalls(lib, s, StakeHistoryVar, StakeHistoryValue(l));
  }
}
