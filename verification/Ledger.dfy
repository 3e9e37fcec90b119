/** The account store as a ledger of lamports: the in-place commit of a successful
    execution, the balances it leaves, and the total it conserves (tx.go, `commit`). */
module Ledger {
  import opened Types

  /** The balance of an address; an absent account counts as zero. */
  function Balance(store: Store, k: Key): u64 {
    if k in store then store[k].lamports else 0
  }

  /** The sum of `f` over a finite set of keys. */
  ghost function Sum(ks: set<Key>, f: Key -> int): int {
    if ks == {} then 0 else
    var k :| k in ks;
    f(k) + Sum(ks - {k}, f)
  }

  lemma {:induction false} SumPick(ks: set<Key>, f: Key -> int, k: Key)
    requires k in ks
    ensures Sum(ks, f) == f(k) + Sum(ks - {k}, f)
    decreases ks
  {
    var p :| p in ks && Sum(ks, f) == f(p) + Sum(ks - {p}, f);
    if p != k {
      SumPick(ks - {p}, f, k);
      SumPick(ks - {k}, f, p);
      assert ks - {p} - {k} == ks - {k} - {p};
    }
  }

  lemma {:induction false} SumWiden(small: set<Key>, big: set<Key>, f: Key -> int)
    requires small <= big
    requires forall k :: k in big && k !in small ==> f(k) == 0
    ensures Sum(big, f) == Sum(small, f)
    decreases big
  {
    if k :| k in big && k !in small {
      SumPick(big, f, k);
      SumWiden(small, big - {k}, f);
    } else {
      assert big == small;
    }
  }

  lemma {:induction false} SumPlus(ks: set<Key>, f: Key -> int, g: Key -> int, h: Key -> int)
    requires forall k :: k in ks ==> h(k) == f(k) + g(k)
    ensures Sum(ks, h) == Sum(ks, f) + Sum(ks, g)
    decreases ks
  {
    if ks != {} {
      var k :| k in ks;
      SumPick(ks, f, k);
      SumPick(ks, g, k);
      SumPick(ks, h, k);
      SumPlus(ks - {k}, f, g, h);
    }
  }

  /** All lamports held by stored accounts, as a mathematical integer. */
  ghost function Total(store: Store): int {
    Sum(store.Keys, k => Balance(store, k))
  }

  /** How far the accounts in `writes`, taken together, move away from their balance in `store`. */
  ghost function NetChange(store: Store, writes: map<Key, Account>): int {
    Sum(writes.Keys, k => (if k in writes then writes[k].lamports else 0) - Balance(store, k))
  }

  /** Two stores whose balances differ only on `ks` differ in total by the sum of the differences. */
  lemma TotalShift(before: Store, after: Store, ks: set<Key>, d: Key -> int)
    requires forall k :: k in ks ==> d(k) == Balance(after, k) - Balance(before, k)
    requires forall k :: k !in ks ==> Balance(after, k) == Balance(before, k)
    ensures Total(after) == Total(before) + Sum(ks, d)
  {
    var all := before.Keys + after.Keys + ks;
    var f := (k: Key) => Balance(before, k);
    var g := (k: Key) => if k in ks then d(k) else 0;
    var h := (k: Key) => Balance(after, k);
    SumWiden(before.Keys, all, f);
    SumWiden(after.Keys, all, h);
    SumPlus(all, f, g, h);
    SumWiden(ks, all, g);
    SumAgree(ks, g, d);
  }

  lemma {:induction false} SumAgree(ks: set<Key>, f: Key -> int, g: Key -> int)
    requires forall k :: k in ks ==> f(k) == g(k)
    ensures Sum(ks, f) == Sum(ks, g)
    decreases ks
  {
    if ks != {} {
      var k :| k in ks;
      SumPick(ks, f, k);
      SumPick(ks, g, k);
      SumAgree(ks - {k}, f, g);
    }
  }

  /** The loop body of the success path: a drained account is deleted, any other is stored. */
  function ApplyUpdate(store: Store, u: Update): Store {
    if u.account.lamports == 0 then store - {u.key} else store[u.key := u.account]
  }

  /** The store after the success path has applied every update in order. */
  function ApplyUpdates(store: Store, us: seq<Update>): Store {
    if us == [] then store
    else ApplyUpdate(ApplyUpdates(store, us[..|us| - 1]), us[|us| - 1])
  }

  /** The last account each key was updated to. */
  function LastWrites(us: seq<Update>): map<Key, Account> {
    if us == [] then map[]
    else
      var u := us[|us| - 1];
      LastWrites(us[..|us| - 1])[u.key := u.account]
  }

  /** Applying updates one by one is the same as applying only the last update of each key:
      a key whose last update is drained disappears, whatever was stored for it before. */
  lemma {:induction false} UpdatesAreLastWrites(store: Store, us: seq<Update>, k: Key)
    ensures k in LastWrites(us) <==> exists i :: 0 <= i < |us| && us[i].key == k
    ensures var after, last := ApplyUpdates(store, us), LastWrites(us);
            if k !in last then (k in after <==> k in store) && (k in store ==> after[k] == store[k])
            else if last[k].lamports == 0 then k !in after
            else k in after && after[k] == last[k]
  {
    if us != [] {
      var rest := us[..|us| - 1];
      UpdatesAreLastWrites(store, rest, k);
      if us[|us| - 1].key != k && k in LastWrites(us) {
        var i :| 0 <= i < |rest| && rest[i].key == k;
        assert us[i].key == k;
      }
      assert forall i :: 0 <= i < |rest| ==> us[i] == rest[i];
    }
  }

  /** Committing a success moves the total by exactly the net change of the last updates,
      however often a key is repeated in the update list. */
  lemma CommitMovesTotalByNetChange(store: Store, us: seq<Update>)
    ensures Total(ApplyUpdates(store, us)) == Total(store) + NetChange(store, LastWrites(us))
  {
    var last, after := LastWrites(us), ApplyUpdates(store, us);
    var d := (k: Key) => (if k in last then last[k].lamports else 0) - Balance(store, k);
    forall k: Key
      ensures k in last.Keys ==> d(k) == Balance(after, k) - Balance(store, k)
      ensures k !in last.Keys ==> Balance(after, k) == Balance(store, k)
    {
      UpdatesAreLastWrites(store, us, k);
    }
    TotalShift(store, after, last.Keys, d);
    SumAgree(last.Keys, d, k => (if k in last then last[k].lamports else 0) - Balance(store, k));
  }

  /** Changing one stored account's lamports moves the total by that change. */
  lemma ReplaceMovesTotal(store: Store, k: Key, a: Account)
    requires k in store
    ensures Total(store[k := a]) == Total(store) + a.lamports - store[k].lamports
  {
    var d := (q: Key) => Balance(store[k := a], q) - Balance(store, q);
    TotalShift(store, store[k := a], {k}, d);
    SumPick({k}, d, k);
    assert {k} - {k} == {};
  }

  /** A rewrite that keeps every balance keeps the total. */
  lemma SameBalancesSameTotal(before: Store, after: Store)
    requires forall k :: Balance(after, k) == Balance(before, k)
    ensures Total(after) == Total(before)
  {
    TotalShift(before, after, {}, k => 0);
  }
}
