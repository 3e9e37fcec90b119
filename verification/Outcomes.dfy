/** How replay's report becomes a `TxOutcome` (tx.go, `populateOutcome` and `innerFromGroups`). */
module Outcomes {
  import opened Types
  import opened Messages
  import opened ComputeBudgets
  import opened Engine
  import opened Ledger

  // ----- inner instructions -----

  function Convert(r: Recorded): InnerInstruction {
    InnerInstruction(
      Compiled(ToU16(r.program), seq(|r.accounts|, i requires 0 <= i < |r.accounts| => ToU16(r.accounts[i])), r.data),
      ToU16(r.stackHeight))
  }

  function ConvertAll(rs: seq<Recorded>): seq<InnerInstruction> {
    seq(|rs|, i requires 0 <= i < |rs| => Convert(rs[i]))
  }

  /** Everything recorded for top-level instruction `i`, in recording order. */
  function CallsOf(groups: seq<Group>, i: nat): seq<InnerInstruction> {
    if groups == [] then []
    else
      var g := groups[|groups| - 1];
      CallsOf(groups[..|groups| - 1], i) + if g.index == i then ConvertAll(g.instructions) else []
  }

  /** One list per top-level instruction; groups naming no instruction are dropped. */
  method InnerFromGroups(numInstrs: nat, groups: seq<Group>) returns (inner: seq<seq<InnerInstruction>>)
    ensures |inner| == numInstrs
    ensures forall i :: 0 <= i < numInstrs ==> inner[i] == CallsOf(groups, i)
  {
    inner := seq(numInstrs, _ => []);
    for g := 0 to |groups|
      invariant |inner| == numInstrs
      invariant forall i :: 0 <= i < numInstrs ==> inner[i] == CallsOf(groups[..g], i)
    {
      var group := groups[g];
      assert groups[..g + 1][..g] == groups[..g];
      if group.index < |inner| {
        ghost var before := inner[group.index];
        ghost var others := inner;
        for q := 0 to |group.instructions|
          invariant |inner| == numInstrs
          invariant inner[group.index] == before + ConvertAll(group.instructions[..q])
          invariant forall i :: 0 <= i < numInstrs && i != group.index ==> inner[i] == others[i]
        {
          var instr := group.instructions[q];
          var accts: seq<u16> := [];
          for i := 0 to |instr.accounts|
            invariant |accts| == i
            invariant forall j :: 0 <= j < i ==> accts[j] == ToU16(instr.accounts[j])
          {
            accts := accts + [ToU16(instr.accounts[i])];
          }
          var call := InnerInstruction(Compiled(ToU16(instr.program), accts, instr.data), ToU16(instr.stackHeight));
          assert accts == Convert(instr).instruction.accounts;
          assert ConvertAll(group.instructions[..q + 1]) == ConvertAll(group.instructions[..q]) + [call];
          inner := inner[group.index := inner[group.index] + [call]];
        }
        assert group.instructions[..|group.instructions|] == group.instructions;
      }
    }
    assert groups[..|groups|] == groups;
  }

  function Inner(numInstrs: nat, groups: seq<Group>): (inner: seq<seq<InnerInstruction>>) {
    seq(numInstrs, i requires 0 <= i < numInstrs => CallsOf(groups, i))
  }

  /** The number of calls recorded for top-level instruction `i`. */
  function CallCount(groups: seq<Group>, i: nat): nat {
    if groups == [] then 0
    else
      var g := groups[|groups| - 1];
      CallCount(groups[..|groups| - 1], i) + if g.index == i then |g.instructions| else 0
  }

  /** A recorded call as the outcome lists it: the same data, every number cut to 16 bits. */
  predicate ListedAs(call: InnerInstruction, r: Recorded) {
    && call.instruction.program == r.program % 0x1_0000
    && call.stackHeight == r.stackHeight % 0x1_0000
    && call.instruction.data == r.data
    && |call.instruction.accounts| == |r.accounts|
    && forall k :: 0 <= k < |r.accounts| ==> call.instruction.accounts[k] == r.accounts[k] % 0x1_0000
  }

  /** Every call sits behind the calls recorded for the same instruction before it, and there are no
      others. */
  lemma {:induction false} CallsSit(groups: seq<Group>, g: nat, q: nat)
    requires g < |groups| && q < |groups[g].instructions|
    ensures var i := groups[g].index; var calls, at := CallsOf(groups, i), CallCount(groups[..g], i) + q;
            |calls| == CallCount(groups, i) && at < |calls| && ListedAs(calls[at], groups[g].instructions[q])
  {
    var i, rest := groups[g].index, groups[..|groups| - 1];
    CallsCounted(groups, i);
    if g < |rest| {
      CallsSit(rest, g, q);
      assert rest[..g] == groups[..g];
    } else {
      CallsCounted(rest, i);
      assert rest == groups[..g];
    }
  }

  lemma {:induction false} CallsCounted(groups: seq<Group>, i: nat)
    ensures |CallsOf(groups, i)| == CallCount(groups, i)
  {
    if groups != [] {
      CallsCounted(groups[..|groups| - 1], i);
    }
  }

  /** The converted instructions of the groups whose index is below `n`, with their multiplicity. */
  ghost function Recordings(groups: seq<Group>, n: nat): multiset<InnerInstruction> {
    if groups == [] then multiset{}
    else
      var g := groups[|groups| - 1];
      Recordings(groups[..|groups| - 1], n) + if g.index < n then multiset(ConvertAll(g.instructions)) else multiset{}
  }

  ghost function Entries(inner: seq<seq<InnerInstruction>>): multiset<InnerInstruction> {
    if inner == [] then multiset{} else Entries(inner[..|inner| - 1]) + multiset(inner[|inner| - 1])
  }

  lemma {:induction false} OneListOfRecordings(groups: seq<Group>, n: nat)
    ensures Recordings(groups, n + 1) == Recordings(groups, n) + multiset(CallsOf(groups, n))
  {
    if groups != [] {
      OneListOfRecordings(groups[..|groups| - 1], n);
    }
  }

  /** Regrouping keeps every recorded instruction as often as it was recorded, and loses exactly
      those of the groups whose index names no instruction. */
  lemma {:induction false} RegroupingLosesOnlyOutOfRange(n: nat, groups: seq<Group>)
    ensures Entries(Inner(n, groups)) == Recordings(groups, n)
  {
    if n == 0 {
      NoRecordingsBelowZero(groups);
    } else {
      RegroupingLosesOnlyOutOfRange(n - 1, groups);
      OneListOfRecordings(groups, n - 1);
      assert Inner(n, groups)[..n - 1] == Inner(n - 1, groups);
    }
  }

  lemma {:induction false} NoRecordingsBelowZero(groups: seq<Group>)
    ensures Recordings(groups, 0) == multiset{}
  {
    if groups != [] {
      NoRecordingsBelowZero(groups[..|groups| - 1]);
    }
  }

  // ----- post accounts -----

  const ABSENT: Account := Account(0, [], SystemProgram, false, 0)

  /** The post-execution account a simulation reports for a writable key. */
  function Reported(store: Store, us: seq<Update>, k: Key): Account {
    var last := LastWrites(us);
    if k in last then last[k] else if k in store then store[k] else ABSENT
  }

  function PostAccounts(store: Store, e: Execution): seq<PostAccount> {
    var ks := FirstOccurrences(e.writables);
    seq(|ks|, i requires 0 <= i < |ks| => PostAccount(ks[i], Reported(store, e.updates, ks[i])))
  }

  method CollectUpdated(us: seq<Update>) returns (updated: map<Key, Account>)
    ensures updated == LastWrites(us)
  {
    updated := map[];
    for i := 0 to |us|
      invariant updated == LastWrites(us[..i])
    {
      assert us[..i + 1][..i] == us[..i];
      updated := updated[us[i].key := us[i].account];
    }
    assert us[..|us|] == us;
  }

  lemma PostAccountsSnoc(store: Store, us: seq<Update>, ws: seq<Key>, k: Key)
    ensures PostAccounts(store, Execution(us, ws + [k])) ==
            PostAccounts(store, Execution(us, ws)) + if k in ws then [] else [PostAccount(k, Reported(store, us, k))]
  {
    assert (ws + [k])[..|ws|] == ws;
  }

  method CollectPostAccounts(store: Store, e: Execution) returns (posts: seq<PostAccount>)
    ensures posts == PostAccounts(store, e)
  {
    var updated := CollectUpdated(e.updates);
    var seen: set<Key> := {};
    posts := [];
    for i := 0 to |e.writables|
      invariant forall k :: k in seen <==> k in e.writables[..i]
      invariant posts == PostAccounts(store, Execution(e.updates, e.writables[..i]))
    {
      var pk := e.writables[i];
      assert e.writables[..i + 1] == e.writables[..i] + [pk];
      PostAccountsSnoc(store, e.updates, e.writables[..i], pk);
      if pk !in seen {
        seen := seen + {pk};
        var acct := if pk in updated then updated[pk] else if pk in store then store[pk] else ABSENT;
        posts := posts + [PostAccount(pk, acct)];
      }
    }
    assert e.writables[..|e.writables|] == e.writables;
  }

  // ----- the outcome -----

  /** The metadata of a processed transaction. */
  function FromDetails(o: Outcome, d: Details, numInstrs: nat): Outcome {
    o.(units := d.units,
       logs := if d.logs.Some? then d.logs.value else [],
       returned := if d.returned.Some? then d.returned else o.returned,
       inner := Inner(numInstrs, d.groups))
  }

  /** The metadata recovered from the execution context of a transaction that failed while
      executing: logs only when a recorder was attached, return data only when there is any. */
  function FromContext(o: Outcome, c: Details, numInstrs: nat): Outcome {
    o.(units := c.units,
       logs := if c.logs.Some? then c.logs.value else o.logs,
       returned := if c.returned.Some? && c.returned.value.data != [] then c.returned else o.returned,
       inner := Inner(numInstrs, c.groups))
  }

  function Populate(store: Store, o: Outcome, numInstrs: nat, out: ReplayOutput, simulate: bool): Outcome {
    var o1 := if out.error.Some? then o.(err := out.error.value.rendering) else o.(ok := true);
    var o2 := if out.fee.Some? then o1.(fee := out.fee.value) else o1;
    if !out.processed || out.details.None? then
      if out.context.Some? then FromContext(o2, out.context.value, numInstrs) else o2
    else
      var o3 := FromDetails(o2, out.details.value, numInstrs);
      if simulate && out.execution.Some? then o3.(postAccounts := PostAccounts(store, out.execution.value)) else o3
  }

  method ReportDetails(o: Outcome, det: Details, numInstrs: nat) returns (r: Outcome)
    ensures r == FromDetails(o, det, numInstrs)
  {
    r := o.(units := det.units, logs := if det.logs.Some? then det.logs.value else []);
    if det.returned.Some? {
      r := r.(returned := det.returned);
    }
    var inner := InnerFromGroups(numInstrs, det.groups);
    assert inner == Inner(numInstrs, det.groups);
    r := r.(inner := inner);
  }

  method ReportContext(o: Outcome, c: Details, numInstrs: nat) returns (r: Outcome)
    ensures r == FromContext(o, c, numInstrs)
  {
    r := o;
    if c.logs.Some? {
      r := r.(logs := c.logs.value);
    }
    var inner := InnerFromGroups(numInstrs, c.groups);
    assert inner == Inner(numInstrs, c.groups);
    r := r.(units := c.units, inner := inner);
    if c.returned.Some? && |c.returned.value.data| > 0 {
      r := r.(returned := c.returned);
    }
  }

  method PopulateOutcome(store: Store, o: Outcome, numInstrs: nat, out: ReplayOutput, simulate: bool)
    returns (r: Outcome)
    ensures r == Populate(store, o, numInstrs, out, simulate)
  {
    r := o;
    if out.error.Some? {
      r := r.(err := out.error.value.rendering);
    } else {
      r := r.(ok := true);
    }
    if out.fee.Some? {
      r := r.(fee := out.fee.value);
    }
    if !out.processed || out.details.None? {
      if out.context.Some? {
        r := ReportContext(r, out.context.value, numInstrs);
      }
      return;
    }
    r := ReportDetails(r, out.details.value, numInstrs);
    if simulate && out.execution.Some? {
      var posts := CollectPostAccounts(store, out.execution.value);
      r := r.(postAccounts := posts);
    }
  }

  /** A simulation's report predicts what committing the same execution leaves: each distinct
      writable key once, in first-occurrence order, with the balance the commit leaves, and the
      identical account wherever the commit leaves one. A key the commit leaves absent is
      reported with no lamports. */
  lemma ReportPredictsCommit(store: Store, e: Execution)
    ensures var posts, after := PostAccounts(store, e), ApplyUpdates(store, e.updates);
            && |posts| == |FirstOccurrences(e.writables)|
            && (forall i :: 0 <= i < |posts| ==>
                    && posts[i].address == FirstOccurrences(e.writables)[i]
                    && posts[i].account.lamports == Balance(after, posts[i].address)
                    && (posts[i].address in after ==> posts[i].account == after[posts[i].address])
                    && (posts[i].account.lamports != 0 ==> posts[i].address in after))
  {
    forall k ensures Reported(store, e.updates, k).lamports == Balance(ApplyUpdates(store, e.updates), k)
      ensures k in ApplyUpdates(store, e.updates) ==> Reported(store, e.updates, k) == ApplyUpdates(store, e.updates)[k]
    {
      UpdatesAreLastWrites(store, e.updates, k);
    }
  }
}
