/** The bounded transaction history: a map from signature to outcome and the order in which the
    signatures were first recorded (svm.go, tx.go). */
module Histories {
  import opened Types
  import opened Engine

  function Members(order: seq<Signature>): set<Signature> {
    set sig | sig in order
  }

  ghost predicate Distinct(order: seq<Signature>) {
    forall i, j :: 0 <= i < j < |order| ==> order[i] != order[j]
  }

  /** No duplicates, no more than the capacity (so nothing at capacity 0), and the listed
      signatures are exactly the recorded ones. */
  ghost predicate Valid(h: History) {
    && |h.order| <= h.capacity
    && Distinct(h.order)
    && h.entries.Keys == Members(h.order)
  }

  /** `trimHistory`: the oldest entries go until the capacity is respected. */
  function Trim(h: History): History {
    if h.capacity > 0 && |h.order| > h.capacity then
      var k := |h.order| - h.capacity;
      History(h.capacity, h.entries - Members(h.order[..k]), h.order[k..])
    else h
  }

  function SetCapacity(h: History, capacity: int): History {
    if capacity < 0 then h
    else if capacity == 0 then History(0, map[], [])
    else Trim(h.(capacity := capacity))
  }

  /** The recording done for an included transaction; capacity 0 records nothing. */
  function Record(h: History, sig: Signature, o: Outcome): History {
    if h.capacity == 0 then h
    else Trim(History(h.capacity, h.entries[sig := o], if sig in h.entries then h.order else h.order + [sig]))
  }

  lemma MembersSplit(order: seq<Signature>, k: nat)
    requires Distinct(order) && k <= |order|
    ensures Members(order) - Members(order[..k]) == Members(order[k..])
  {
    assert order == order[..k] + order[k..];
    assert forall sig :: sig in order[k..] ==> sig !in order[..k];
  }

  lemma TrimValid(h: History)
    requires Distinct(h.order) && h.entries.Keys == Members(h.order)
    requires h.capacity == 0 ==> h.order == []
    ensures Valid(Trim(h))
  {
    if h.capacity > 0 && |h.order| > h.capacity {
      MembersSplit(h.order, |h.order| - h.capacity);
    }
  }

  lemma SetCapacityValid(h: History, capacity: int)
    requires Valid(h)
    ensures Valid(SetCapacity(h, capacity))
  {
    if capacity > 0 {
      TrimValid(h.(capacity := capacity));
    }
  }

  lemma RecordValid(h: History, sig: Signature, o: Outcome)
    requires Valid(h)
    ensures Valid(Record(h, sig, o))
  {
    if h.capacity > 0 {
      TrimValid(History(h.capacity, h.entries[sig := o], if sig in h.entries then h.order else h.order + [sig]));
    }
  }

  // ----- the abstract log -----

  datatype Entry = Entry(signature: Signature, outcome: Outcome)

  /** The history as one list, oldest first. */
  ghost function Log(h: History): seq<Entry>
    requires Valid(h)
  {
    seq(|h.order|, i requires 0 <= i < |h.order| =>
      assert h.order[i] in Members(h.order); Entry(h.order[i], h.entries[h.order[i]]))
  }

  /** The newest `capacity` entries. */
  function Newest(log: seq<Entry>, capacity: nat): seq<Entry> {
    if |log| > capacity then log[|log| - capacity..] else log
  }

  /** A bounded FIFO log: a repeated signature updates its entry in place, a new one is
      appended and pushes out the oldest entries beyond the capacity. */
  function LogRecord(log: seq<Entry>, capacity: nat, e: Entry): seq<Entry> {
    if exists i :: 0 <= i < |log| && log[i].signature == e.signature then
      seq(|log|, i requires 0 <= i < |log| => if log[i].signature == e.signature then e else log[i])
    else Newest(log + [e], capacity)
  }

  lemma TrimRefines(h: History, log: seq<Entry>)
    requires Distinct(h.order) && h.entries.Keys == Members(h.order) && h.capacity > 0
    requires |log| == |h.order|
    requires forall i :: 0 <= i < |log| ==> h.order[i] in h.entries && log[i] == Entry(h.order[i], h.entries[h.order[i]])
    ensures Valid(Trim(h)) && Log(Trim(h)) == Newest(log, h.capacity)
  {
    TrimValid(h);
    var t, newest := Trim(h), Newest(log, h.capacity);
    var k := |h.order| - |t.order|;
    assert t.order == h.order[k..] && newest == log[k..];
    forall i | 0 <= i < |t.order| ensures Log(t)[i] == newest[i] {
      assert t.order[i] == h.order[k + i] && t.order[i] in Members(t.order);
    }
  }

  lemma RecordRepeatRefines(h: History, sig: Signature, o: Outcome)
    requires Valid(h) && sig in h.entries
    ensures Valid(Record(h, sig, o))
    ensures Log(Record(h, sig, o)) == LogRecord(Log(h), h.capacity, Entry(sig, o))
  {
    RecordValid(h, sig, o);
    assert sig in h.order;
    var p :| 0 <= p < |h.order| && h.order[p] == sig;
    assert Log(h)[p].signature == sig;
    assert Record(h, sig, o).order == h.order;
  }

  lemma RecordFreshRefines(h: History, sig: Signature, o: Outcome)
    requires Valid(h) && sig !in h.entries && h.capacity > 0
    ensures Valid(Record(h, sig, o))
    ensures Log(Record(h, sig, o)) == LogRecord(Log(h), h.capacity, Entry(sig, o))
  {
    var log := Log(h);
    forall i | 0 <= i < |log| ensures log[i].signature != sig {
      assert h.order[i] in Members(h.order);
    }
    TrimRefines(History(h.capacity, h.entries[sig := o], h.order + [sig]), log + [Entry(sig, o)]);
  }

  /** The two-part history refines the bounded FIFO log under recording and resizing. */
  lemma RecordRefines(h: History, sig: Signature, o: Outcome)
    requires Valid(h)
    ensures Valid(Record(h, sig, o))
    ensures Log(Record(h, sig, o)) == if h.capacity == 0 then [] else LogRecord(Log(h), h.capacity, Entry(sig, o))
  {
    if sig in h.entries {
      assert sig in h.order;
      RecordRepeatRefines(h, sig, o);
    } else if h.capacity > 0 {
      RecordFreshRefines(h, sig, o);
    }
  }

  lemma SetCapacityRefines(h: History, capacity: nat)
    requires Valid(h)
    ensures Valid(SetCapacity(h, capacity))
    ensures Log(SetCapacity(h, capacity)) == Newest(Log(h), capacity)
  {
    if capacity > 0 {
      TrimRefines(h.(capacity := capacity), Log(h));
    }
  }

  // ----- eviction -----

  lemma {:induction false} DistinctSize(order: seq<Signature>)
    requires Distinct(order)
    ensures |Members(order)| == |order|
  {
    if order != [] {
      var rest, last := order[..|order| - 1], order[|order| - 1];
      DistinctSize(rest);
      assert Members(order) == Members(rest) + {last};
      assert last !in Members(rest);
    }
  }

  lemma {:induction false} SubsetSize(small: set<Signature>, big: set<Signature>)
    requires small <= big
    ensures |small| <= |big|
  {
    if small != {} {
      var x :| x in small;
      SubsetSize(small - {x}, big - {x});
    }
  }

  /** `sig` is still listed with only `others` recorded after it, or enough others have been
      recorded to have pushed it out. */
  ghost predicate Guarded(order: seq<Signature>, sig: Signature, others: set<Signature>, c: nat) {
    || |others - {sig}| >= c
    || exists p :: 0 <= p < |order| && order[p] == sig && forall q :: p < q < |order| ==> order[q] in others - {sig}
  }

  /** Dropping old entries down to a capacity of at least `c` evicts a guarded signature only
      once `c` distinct others have been recorded after it. */
  lemma DropGuards(order: seq<Signature>, k: nat, sig: Signature, others: set<Signature>, c: nat)
    requires Distinct(order) && k <= |order| && |order| - k >= c
    requires Guarded(order, sig, others, c)
    ensures Guarded(order[k..], sig, others, c)
  {
    if |others - {sig}| < c {
      var p :| 0 <= p < |order| && order[p] == sig && forall q :: p < q < |order| ==> order[q] in others - {sig};
      if p < k {
        var suffix := order[k..];
        DistinctSize(suffix);
        SubsetSize(Members(suffix), others - {sig});
      } else {
        assert order[k..][p - k] == sig;
        assert forall q :: p - k < q < |order[k..]| ==> order[k..][q] == order[k + q];
      }
    }
  }

  lemma SetCapacityGuards(h: History, capacity: int, sig: Signature, others: set<Signature>, c: nat)
    requires Valid(h) && 0 < c <= SetCapacity(h, capacity).capacity
    requires Guarded(h.order, sig, others, c)
    ensures Guarded(SetCapacity(h, capacity).order, sig, others, c)
  {
    if capacity > 0 && |h.order| > capacity {
      DropGuards(h.order, |h.order| - capacity, sig, others, c);
    }
  }

  lemma RecordGuards(h: History, sig: Signature, other: Signature, o: Outcome, others: set<Signature>, c: nat)
    requires Valid(h) && 0 < c <= h.capacity
    requires other !in h.entries
    requires Guarded(h.order, sig, others, c)
    requires other != sig
    ensures Guarded(Record(h, other, o).order, sig, others + {other}, c)
  {
    var grown, more := h.order + [other], others + {other};
    SubsetSize(others - {sig}, more - {sig});
    if |others - {sig}| < c {
      var p :| 0 <= p < |h.order| && h.order[p] == sig && forall q :: p < q < |h.order| ==> h.order[q] in others - {sig};
      assert grown[p] == sig && forall q :: p < q < |grown| ==> grown[q] in more - {sig};
    }
    assert Guarded(grown, sig, more, c);
    if |grown| > h.capacity {
      DropGuards(grown, |grown| - h.capacity, sig, more, c);
    }
  }

  /** A signature recorded just now is listed last. */
  lemma FreshlyGuarded(h: History, sig: Signature, o: Outcome, c: nat)
    requires Valid(h) && h.capacity > 0 && sig !in h.entries
    ensures Guarded(Record(h, sig, o).order, sig, {}, c)
  {
    var order := Record(h, sig, o).order;
    assert order[|order| - 1] == sig;
  }

  /** Where a guarded signature is no longer recorded, at least `c` others have been. */
  lemma GuardedButGone(h: History, sig: Signature, others: set<Signature>, c: nat)
    requires Valid(h) && Guarded(h.order, sig, others, c) && sig !in h.entries
    ensures |others - {sig}| >= c
  {
    assert sig !in Members(h.order);
    assert sig !in h.order;
  }

  // ----- traces -----

  /** What one operation does to the history. */
  datatype Effect = Inclusion(signature: Signature, outcome: Outcome) | Resize(capacity: int) | NoEffect

  function ApplyEffect(h: History, e: Effect): History {
    match e
    case Inclusion(sig, o) => Record(h, sig, o)
    case Resize(c) => SetCapacity(h, c)
    case NoEffect => h
  }

  predicate EffectAt(hs: seq<History>, es: seq<Effect>, i: nat)
    requires i < |es| && |hs| == |es| + 1
  {
    hs[i + 1] == ApplyEffect(hs[i], es[i])
  }

  /** `hs` are the histories that the effects `es` lead through, the first one included. */
  ghost predicate IsTrace(hs: seq<History>, es: seq<Effect>) {
    && |hs| == |es| + 1
    && forall i :: 0 <= i < |es| ==> EffectAt(hs, es, i)
  }

  lemma EffectValid(h: History, e: Effect)
    requires Valid(h)
    ensures Valid(ApplyEffect(h, e))
  {
    match e
    case Inclusion(sig, o) => RecordValid(h, sig, o);
    case Resize(c) => SetCapacityValid(h, c);
    case NoEffect =>
  }

  lemma {:induction false} AlwaysValid(hs: seq<History>, es: seq<Effect>, n: nat)
    requires IsTrace(hs, es) && n < |hs| && Valid(hs[0])
    ensures Valid(hs[n])
  {
    if n > 0 {
      AlwaysValid(hs, es, n - 1);
      assert EffectAt(hs, es, n - 1);
      EffectValid(hs[n - 1], es[n - 1]);
    }
  }

  datatype BoundedLog = BoundedLog(capacity: nat, log: seq<Entry>)

  function LogEffect(b: BoundedLog, e: Effect): BoundedLog {
    match e
    case Inclusion(sig, o) => if b.capacity == 0 then b else b.(log := LogRecord(b.log, b.capacity, Entry(sig, o)))
    case Resize(c) => if c < 0 then b else BoundedLog(c, Newest(b.log, c))
    case NoEffect => b
  }

  /** The bounded FIFO log of a trace. */
  function LogAfter(b: BoundedLog, es: seq<Effect>, n: nat): BoundedLog
    requires n <= |es|
  {
    if n == 0 then b else LogEffect(LogAfter(b, es, n - 1), es[n - 1])
  }

  lemma EffectRefines(h: History, e: Effect)
    requires Valid(h)
    ensures Valid(ApplyEffect(h, e))
    ensures BoundedLog(ApplyEffect(h, e).capacity, Log(ApplyEffect(h, e)))
            == LogEffect(BoundedLog(h.capacity, Log(h)), e)
  {
    EffectValid(h, e);
    match e
    case Inclusion(sig, o) => RecordRefines(h, sig, o);
    case Resize(c) => if c >= 0 { SetCapacityRefines(h, c); }
    case NoEffect =>
  }

  /** The map-and-order history refines the bounded FIFO log over every trace. */
  lemma {:induction false} RefinesLog(hs: seq<History>, es: seq<Effect>, n: nat)
    requires IsTrace(hs, es) && n < |hs| && Valid(hs[0])
    ensures Valid(hs[n])
    ensures BoundedLog(hs[n].capacity, Log(hs[n])) == LogAfter(BoundedLog(hs[0].capacity, Log(hs[0])), es, n)
  {
    if n > 0 {
      RefinesLog(hs, es, n - 1);
      assert EffectAt(hs, es, n - 1);
      EffectRefines(hs[n - 1], es[n - 1]);
    }
  }

  /** The outcome of the latest inclusion of a signature among the first `n` effects. */
  function LatestOutcome(es: seq<Effect>, n: nat, sig: Signature): Option<Outcome>
    requires n <= |es|
  {
    if n == 0 then None
    else if es[n - 1].Inclusion? && es[n - 1].signature == sig then Some(es[n - 1].outcome)
    else LatestOutcome(es, n - 1, sig)
  }

  lemma RecordRetains(h: History, recorded: Signature, o: Outcome, sig: Signature)
    requires Valid(h) && sig in Record(h, recorded, o).entries
    ensures if sig == recorded then Record(h, recorded, o).entries[sig] == o
            else sig in h.entries && Record(h, recorded, o).entries[sig] == h.entries[sig]
  {
    assert h.capacity == 0 ==> h.order == [];
  }

  /** Whatever a history that started empty still retains is the outcome of the latest inclusion. */
  lemma {:induction false} RetainedIsLatest(hs: seq<History>, es: seq<Effect>, n: nat, sig: Signature)
    requires IsTrace(hs, es) && n < |hs| && Valid(hs[0]) && hs[0].order == []
    requires sig in hs[n].entries
    ensures LatestOutcome(es, n, sig) == Some(hs[n].entries[sig])
  {
    if n > 0 {
      var e := es[n - 1];
      AlwaysValid(hs, es, n - 1);
      assert EffectAt(hs, es, n - 1);
      if e.Inclusion? {
        RecordRetains(hs[n - 1], e.signature, e.outcome, sig);
      }
      if !e.Inclusion? || e.signature != sig {
        RetainedIsLatest(hs, es, n - 1, sig);
      }
    }
  }

  /** The signatures included from position `lo` up to, but not with, `hi`. */
  function IncludedBetween(es: seq<Effect>, lo: nat, hi: nat): set<Signature>
    requires lo <= hi <= |es|
  {
    if lo == hi then {}
    else IncludedBetween(es, lo, hi - 1) + if es[hi - 1].Inclusion? then {es[hi - 1].signature} else {}
  }

  lemma {:induction false} IncludedBetweenIs(es: seq<Effect>, lo: nat, hi: nat, sig: Signature)
    requires lo <= hi <= |es|
    ensures sig in IncludedBetween(es, lo, hi) <==> exists k :: lo <= k < hi && es[k].Inclusion? && es[k].signature == sig
  {
    if lo < hi {
      IncludedBetweenIs(es, lo, hi - 1, sig);
    }
  }

  /** The capacity is at least `c`, and a signature still recorded is not included. */
  predicate Guarding(h: History, e: Effect, c: nat) {
    h.capacity >= c && (e.Inclusion? ==> e.signature !in h.entries)
  }

  lemma EffectGuards(h: History, e: Effect, sig: Signature, others: set<Signature>, c: nat)
    requires Valid(h) && 0 < c <= h.capacity && c <= ApplyEffect(h, e).capacity
    requires e.Inclusion? ==> e.signature !in h.entries
    requires Guarded(h.order, sig, others, c)
    ensures Guarded(ApplyEffect(h, e).order, sig, others + if e.Inclusion? then {e.signature} else {}, c)
  {
    match e
    case Inclusion(included, o) =>
      if included == sig {
        GuardedButGone(h, sig, others, c);
        assert others + {sig} - {sig} == others - {sig};
      } else {
        RecordGuards(h, sig, included, o, others, c);
      }
    case Resize(capacity) =>
      SetCapacityGuards(h, capacity, sig, others, c);
      assert others + {} == others;
    case NoEffect =>
      assert others + {} == others;
  }

  lemma GuardStep(h: History, e: Effect, h': History, sig: Signature, others: set<Signature>, others': set<Signature>, c: nat)
    requires Valid(h) && h' == ApplyEffect(h, e) && 0 < c <= h.capacity && c <= h'.capacity
    requires others' == others + if e.Inclusion? then {e.signature} else {}
    requires e.Inclusion? ==> e.signature !in h.entries
    requires Guarded(h.order, sig, others, c)
    ensures Guarded(h'.order, sig, others', c)
  {
    EffectGuards(h, e, sig, others, c);
  }

  lemma GuardStart(h: History, e: Effect, h': History, c: nat)
    requires Valid(h) && h' == ApplyEffect(h, e) && h.capacity > 0
    requires e.Inclusion? && e.signature !in h.entries
    ensures Guarded(h'.order, e.signature, {}, c)
  {
    FreshlyGuarded(h, e.signature, e.outcome, c);
  }

  /** The signature included at `i` is guarded at `j` by what was included after it. */
  ghost predicate GuardedSince(hs: seq<History>, es: seq<Effect>, i: nat, j: nat, c: nat)
    requires i < j <= |es| && j < |hs| && es[i].Inclusion?
  {
    Guarded(hs[j].order, es[i].signature, IncludedBetween(es, i + 1, j), c)
  }

  ghost predicate GuardingAt(hs: seq<History>, es: seq<Effect>, k: nat, c: nat) {
    k < |es| && k < |hs| && Guarding(hs[k], es[k], c)
  }

  lemma GuardedFirst(hs: seq<History>, es: seq<Effect>, i: nat, j: nat, c: nat)
    requires IsTrace(hs, es) && Valid(hs[0]) && i < |es| && j == i + 1
    requires c > 0 && es[i].Inclusion? && GuardingAt(hs, es, i, c)
    ensures GuardedSince(hs, es, i, j, c)
  {
    AlwaysValid(hs, es, i);
    assert EffectAt(hs, es, i);
    assert IncludedBetween(es, i + 1, j) == {};
    GuardStart(hs[i], es[i], hs[j], c);
  }

  lemma GuardedNext(hs: seq<History>, es: seq<Effect>, i: nat, k: nat, j: nat, c: nat)
    requires IsTrace(hs, es) && Valid(hs[0]) && i < k && j == k + 1 && j < |es| && es[i].Inclusion?
    requires c > 0 && GuardingAt(hs, es, k, c) && GuardingAt(hs, es, j, c)
    requires GuardedSince(hs, es, i, k, c)
    ensures GuardedSince(hs, es, i, j, c)
  {
    AlwaysValid(hs, es, k);
    assert EffectAt(hs, es, k);
    GuardStep(hs[k], es[k], hs[j], es[i].signature, IncludedBetween(es, i + 1, k), IncludedBetween(es, i + 1, j), c);
  }

  lemma {:induction false} GuardedAlong(hs: seq<History>, es: seq<Effect>, i: nat, j: nat, c: nat)
    requires IsTrace(hs, es) && Valid(hs[0]) && i < j < |es| && c > 0 && es[i].Inclusion?
    requires forall k :: i <= k <= j ==> GuardingAt(hs, es, k, c)
    ensures GuardedSince(hs, es, i, j, c)
    decreases j
  {
    if j == i + 1 {
      GuardedFirst(hs, es, i, j, c);
    } else {
      var k := j - 1;
      GuardedAlong(hs, es, i, k, c);
      GuardedNext(hs, es, i, k, j, c);
    }
  }

  /** Two inclusions of one signature have at least `c` distinct other inclusions between them. */
  lemma RepeatsAreFarApart(hs: seq<History>, es: seq<Effect>, i: nat, j: nat, c: nat)
    requires IsTrace(hs, es) && Valid(hs[0]) && i < j < |es| && c > 0
    requires forall k :: i <= k <= j ==> GuardingAt(hs, es, k, c)
    requires es[i].Inclusion? && es[j].Inclusion? && es[i].signature == es[j].signature
    ensures |IncludedBetween(es, i + 1, j) - {es[i].signature}| >= c
  {
    GuardedAlong(hs, es, i, j, c);
    AlwaysValid(hs, es, j);
    assert GuardingAt(hs, es, j, c);
    GuardedButGone(hs[j], es[i].signature, IncludedBetween(es, i + 1, j), c);
  }
}
