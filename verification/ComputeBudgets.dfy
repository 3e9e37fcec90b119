/** The per-instance compute budget (computebudget.go) and the rewrite that threads it into a
    message by appending compute-budget instructions (tx.go, `applyComputeBudgetOverride`). */
module ComputeBudgets {
  import opened Types
  import opened LittleEndian
  import opened Messages

  const MAX_UNIT_LIMIT: nat := 1_400_000
  const MIN_HEAP: nat := 32 * 1024
  const MAX_HEAP: nat := 256 * 1024
  const HEAP_MULTIPLE: nat := 1024
  const DEFAULT_HEAP: u32 := 32 * 1024
  const STACK_DEPTH: u64 := 5
  const TRACE_LENGTH: u64 := 64

  const COSTS_0_TO_9: seq<u64> := [100, 1500, 1000, 85, 1, 20_000, 64, 4096, 100, 250]
  const COSTS_10_TO_19: seq<u64> := [100, 25_000, 100, 159, 473, 475, 2_177, 2_273, 758, 169]
  const COSTS_20_TO_29: seq<u64> := [521, 519, 2_208, 2_303, 788, 8, 10, 334, 3_840, 36_364]
  const COSTS_30_TO_39: seq<u64> := [12_121, 190, 2, 61, 542, 100, 30, 398, 86, 13_610]

  /** The cost constants that cannot be changed, in the order they are checked. */
  const FIXED_COSTS: Costs := COSTS_0_TO_9 + COSTS_10_TO_19 + COSTS_20_TO_29 + COSTS_30_TO_39

  /** One value for each cost field of the budget. */
  type Costs = c: seq<u64> | |c| == 40 witness seq(40, _ => 0)

  datatype ComputeBudget = ComputeBudget(
    unitLimit: u64, heapSize: u32, stackDepth: u64, traceLength: u64, costs: Costs)

  datatype BudgetError = UnitLimitTooLarge | BadHeapSize | StackDepthFixed | TraceLengthFixed | CostFixed(index: nat)

  /** The budgets the engine installs. */
  predicate Honored(b: ComputeBudget) {
    && b.unitLimit <= MAX_UNIT_LIMIT
    && MIN_HEAP <= b.heapSize <= MAX_HEAP
    && b.heapSize % HEAP_MULTIPLE == 0
    && b.stackDepth == STACK_DEPTH
    && b.traceLength == TRACE_LENGTH
    && b.costs == FIXED_COSTS
  }

  /** The first position where two lists of equal length differ, or their length. */
  method FirstDifference(got: seq<u64>, want: seq<u64>) returns (k: nat)
    requires |got| == |want|
    ensures k <= |got|
    ensures got[..k] == want[..k]
    ensures k < |got| ==> got[k] != want[k]
    ensures k == |got| <==> got == want
  {
    k := 0;
    while k < |got|
      invariant k <= |got|
      invariant got[..k] == want[..k]
    {
      if got[k] != want[k] {
        return;
      }
      k := k + 1;
    }
    assert got == got[..k] && want == want[..k];
  }

  /** Between 32 and 256 KiB, in whole KiB. */
  predicate GoodHeap(size: u32) {
    32 * 1024 <= size <= 256 * 1024 && size % 1024 == 0
  }

  /** The validation of `SetComputeBudget`: accepted exactly when honored; the first limit that is
      not met is reported, and a changed cost constant by its first position. */
  method CheckBudget(b: ComputeBudget) returns (r: Result<ComputeBudget, BudgetError>)
    ensures r.Ok? <==> Honored(b)
    ensures r.Ok? ==> r.value == b
    ensures r == Err(UnitLimitTooLarge) <==> b.unitLimit > 1_400_000
    ensures r == Err(BadHeapSize) <==> b.unitLimit <= 1_400_000 && !GoodHeap(b.heapSize)
    ensures r == Err(StackDepthFixed) <==> b.unitLimit <= 1_400_000 && GoodHeap(b.heapSize) && b.stackDepth != 5
    ensures r == Err(TraceLengthFixed) <==>
            b.unitLimit <= 1_400_000 && GoodHeap(b.heapSize) && b.stackDepth == 5 && b.traceLength != 64
    ensures r.Err? && r.error.CostFixed? ==>
              && r.error.index < |b.costs|
              && b.costs[r.error.index] != FIXED_COSTS[r.error.index]
              && b.costs[..r.error.index] == FIXED_COSTS[..r.error.index]
  {
    if b.unitLimit > MAX_UNIT_LIMIT {
      return Err(UnitLimitTooLarge);
    }
    if b.heapSize < MIN_HEAP || b.heapSize > MAX_HEAP || b.heapSize % HEAP_MULTIPLE != 0 {
      return Err(BadHeapSize);
    }
    if b.stackDepth != STACK_DEPTH {
      return Err(StackDepthFixed);
    }
    if b.traceLength != TRACE_LENGTH {
      return Err(TraceLengthFixed);
    }
    var k := FirstDifference(b.costs, FIXED_COSTS);
    if k < |b.costs| {
      return Err(CostFixed(k));
    }
    r := Ok(b);
  }

  // ----- payloads -----

  const HEAP_FRAME_TAG: byte := 1
  const UNIT_LIMIT_TAG: byte := 2

  /** The conversion to a 32-bit value keeps only the low 32 bits. */
  function ToU32(x: u64): u32 {
    x % 0x1_0000_0000
  }

  function ToU16(x: nat): u16 {
    x % 0x1_0000
  }

  /** The synthetic instructions: the unit limit always, the heap frame only off its default. */
  function BudgetInstructions(b: ComputeBudget, keyIndex: nat): seq<Compiled> {
    var limit := Compiled(ToU16(keyIndex), [], [UNIT_LIMIT_TAG] + PutLE(ToU32(b.unitLimit), 4));
    if b.heapSize == DEFAULT_HEAP then [limit]
    else [limit, Compiled(ToU16(keyIndex), [], [HEAP_FRAME_TAG] + PutLE(b.heapSize, 4))]
  }

  // ----- the rewrite -----

  /** The first position of `k`, or -1. */
  function FirstIndex(keys: seq<Key>, k: Key): (i: int)
    ensures -1 <= i < |keys|
    ensures i >= 0 ==> keys[i] == k && forall j :: 0 <= j < i ==> keys[j] != k
    ensures i == -1 ==> k !in keys
  {
    if keys == [] then -1
    else if keys[0] == k then 0
    else
      var rest := FirstIndex(keys[1..], k);
      if rest == -1 then -1 else rest + 1
  }

  predicate Targets(m: Message, keyIndex: nat) {
    exists j :: 0 <= j < |m.instructions| && m.instructions[j].program == keyIndex
  }

  /** The compute-budget program is added to the static keys. */
  predicate AppendsKey(budget: Option<ComputeBudget>, m: Message) {
    budget.Some? && ComputeBudgetProgram !in m.keys && NumLookups(m.lookups) == 0
  }

  /** The message is rewritten at all. */
  predicate Rewrites(budget: Option<ComputeBudget>, m: Message) {
    budget.Some? &&
    var i := FirstIndex(m.keys, ComputeBudgetProgram);
    if i >= 0 then !Targets(m, i) else NumLookups(m.lookups) == 0
  }

  /** The position of the compute-budget program after the rewrite. */
  function BudgetKeyIndex(m: Message): nat {
    var i := FirstIndex(m.keys, ComputeBudgetProgram);
    if i >= 0 then i else |m.keys|
  }

  function Override(budget: Option<ComputeBudget>, m: Message): Message {
    if !Rewrites(budget, m) then m
    else
      var keyed :=
        if AppendsKey(budget, m) then
          m.(keys := m.keys + [ComputeBudgetProgram],
             header := m.header.(readonlyUnsigned := (m.header.readonlyUnsigned + 1) % 256))
        else m;
      keyed.(instructions := m.instructions + BudgetInstructions(budget.value, BudgetKeyIndex(m)))
  }

  method AppendBudgetInstructions(b: ComputeBudget, keyIdx: nat, tx: MessageCell)
    modifies tx`instructions
    ensures tx.instructions == old(tx.instructions) + BudgetInstructions(b, keyIdx)
  {
    var limitData := [UNIT_LIMIT_TAG] + PutLE(ToU32(b.unitLimit), 4);
    tx.instructions := tx.instructions + [Compiled(ToU16(keyIdx), [], limitData)];
    if b.heapSize != DEFAULT_HEAP {
      var heapData := [HEAP_FRAME_TAG] + PutLE(b.heapSize, 4);
      tx.instructions := tx.instructions + [Compiled(ToU16(keyIdx), [], heapData)];
    }
  }

  /** The in-place edit of a transaction's message (tx.go, `applyComputeBudgetOverride`). */
  method ApplyComputeBudgetOverride(budget: Option<ComputeBudget>, tx: MessageCell)
    modifies tx
    ensures tx.Value() == Override(budget, old(tx.Value()))
  {
    if budget.None? {
      return;
    }
    var b := budget.value;
    var keyIdx := -1;
    var i := 0;
    while i < |tx.keys| && keyIdx == -1
      invariant 0 <= i <= |tx.keys|
      invariant keyIdx == -1 ==> forall j :: 0 <= j < i ==> tx.keys[j] != ComputeBudgetProgram
      invariant keyIdx != -1 ==> 0 <= keyIdx < |tx.keys| && tx.keys[keyIdx] == ComputeBudgetProgram
      invariant keyIdx != -1 ==> forall j :: 0 <= j < keyIdx ==> tx.keys[j] != ComputeBudgetProgram
    {
      if tx.keys[i] == ComputeBudgetProgram {
        keyIdx := i;
      }
      i := i + 1;
    }
    assert keyIdx == FirstIndex(tx.keys, ComputeBudgetProgram);
    if keyIdx >= 0 {
      for j := 0 to |tx.instructions|
        invariant forall q :: 0 <= q < j ==> tx.instructions[q].program != keyIdx
      {
        if tx.instructions[j].program == keyIdx {
          assert Targets(tx.Value(), keyIdx);
          return;
        }
      }
    } else {
      if NumLookups(tx.lookups) > 0 {
        return;
      }
      tx.keys := tx.keys + [ComputeBudgetProgram];
      keyIdx := |tx.keys| - 1;
      tx.header := tx.header.(readonlyUnsigned := (tx.header.readonlyUnsigned + 1) % 256);
    }
    AppendBudgetInstructions(b, keyIdx, tx);
  }

  // ----- when the rewrite happens -----

  /** No instruction names the first position of the compute-budget program. */
  ghost predicate CarriesNoBudget(m: Message) {
    forall k, j :: 0 <= k < |m.keys| && 0 <= j < |m.instructions|
                   && m.keys[k] == ComputeBudgetProgram && ComputeBudgetProgram !in m.keys[..k]
                   ==> m.instructions[j].program != k
  }

  lemma FirstIndexIs(keys: seq<Key>, k: Key, i: nat)
    requires i < |keys| && keys[i] == k && k !in keys[..i]
    ensures FirstIndex(keys, k) == i
  {
    assert forall j :: 0 <= j < i ==> keys[j] == keys[..i][j] && keys[j] in keys[..i];
  }

  /** A compute-budget instruction with a tag, a 32-bit payload and no accounts. */
  predicate Asks(ci: Compiled, keyIndex: nat, tag: byte) {
    ci.program == keyIndex % 0x1_0000 && ci.accounts == [] && |ci.data| == 5 && ci.data[0] == tag
  }

  /** Legacy and versioned messages alike are rewritten exactly when a budget is in force, they carry
      no compute-budget instruction, and the program is listed or can be appended because no
      addresses are looked up. The rewrite adds the program if it is missing, and one or two
      instructions behind the others; nothing else changes but the readonly count. */
  lemma RewrittenExactly(budget: Option<ComputeBudget>, m: Message)
    ensures Override(budget, m) != m <==>
            budget.Some? && CarriesNoBudget(m) && (ComputeBudgetProgram in m.keys || NumLookups(m.lookups) == 0)
    ensures Override(budget, m) != m ==>
              var m' := Override(budget, m);
              && m'.keys == (if ComputeBudgetProgram in m.keys then m.keys else m.keys + [ComputeBudgetProgram])
              && m.instructions <= m'.instructions
              && |m'.instructions| == |m.instructions| + (if budget.value.heapSize == DEFAULT_HEAP then 1 else 2)
              && Asks(m'.instructions[|m.instructions|], BudgetKeyIndex(m), 2)
              && (budget.value.heapSize != DEFAULT_HEAP ==> Asks(m'.instructions[|m.instructions| + 1], BudgetKeyIndex(m), 1))
              && m' == m.(keys := m'.keys, instructions := m'.instructions,
                          header := m.header.(readonlyUnsigned := m'.header.readonlyUnsigned))
              && m'.header.readonlyUnsigned ==
                 if ComputeBudgetProgram in m.keys then m.header.readonlyUnsigned else (m.header.readonlyUnsigned + 1) % 256
  {
    RewritesExactly(budget, m);
    if Rewrites(budget, m) {
      assert |Override(budget, m).instructions| > |m.instructions|;
      AddedAsk(budget.value, BudgetKeyIndex(m));
      var added := BudgetInstructions(budget.value, BudgetKeyIndex(m));
      assert Override(budget, m).instructions == m.instructions + added;
    }
  }

  /** The unit limit first, then the heap frame if it is off its default. */
  lemma AddedAsk(b: ComputeBudget, keyIndex: nat)
    ensures var added := BudgetInstructions(b, keyIndex);
            && |added| == (if b.heapSize == DEFAULT_HEAP then 1 else 2)
            && Asks(added[0], keyIndex, 2)
            && (b.heapSize != DEFAULT_HEAP ==> Asks(added[1], keyIndex, 1))
  {
  }

  lemma RewritesExactly(budget: Option<ComputeBudget>, m: Message)
    ensures Rewrites(budget, m) <==>
            budget.Some? && CarriesNoBudget(m) && (ComputeBudgetProgram in m.keys || NumLookups(m.lookups) == 0)
    ensures ComputeBudgetProgram in m.keys ==>
              && BudgetKeyIndex(m) < |m.keys|
              && m.keys[BudgetKeyIndex(m)] == ComputeBudgetProgram
              && ComputeBudgetProgram !in m.keys[..BudgetKeyIndex(m)]
    ensures ComputeBudgetProgram !in m.keys ==> BudgetKeyIndex(m) == |m.keys|
  {
    var i := FirstIndex(m.keys, ComputeBudgetProgram);
    if i >= 0 {
      assert ComputeBudgetProgram !in m.keys[..i];
      if !Targets(m, i) {
        forall k, j | 0 <= k < |m.keys| && 0 <= j < |m.instructions|
                      && m.keys[k] == ComputeBudgetProgram && ComputeBudgetProgram !in m.keys[..k]
          ensures m.instructions[j].program != k
        {
          FirstIndexIs(m.keys, ComputeBudgetProgram, k);
        }
      }
    }
  }

  /** What a message asks for after the rewrite, without reference to how it is rewritten. */
  lemma BudgetReachesMessage(b: ComputeBudget, m: Message)
    requires Honored(b) && CarriesNoBudget(m) && DistinctKeys(m)
    requires ComputeBudgetProgram in m.keys || (NumLookups(m.lookups) == 0 && m.header.readonlyUnsigned < 255)
    requires BudgetKeyIndex(m) < 0x1_0000
    requires forall j :: 0 <= j < |m.instructions| ==> !PointsPastEnd(m, m.instructions[j])
    ensures UnitLimit(Override(Some(b), m)) == Some(b.unitLimit)
    ensures HeapSize(Override(Some(b), m)) == b.heapSize
  {
    RewritesExactly(Some(b), m);
    OverrideInstallsBudget(b, m);
  }

  // ----- what the rewrite preserves -----

  lemma AppendedRoles(budget: Option<ComputeBudget>, m: Message, i: nat)
    requires AppendsKey(budget, m) && i < |m.keys|
    ensures var meta', meta := MetaAt(Override(budget, m), i), MetaAt(m, i);
            && meta'.key == meta.key && meta'.signer == meta.signer
            && (meta'.writable == meta.writable
                <==> !(m.header.readonlyUnsigned == 255 && m.header.required <= i && |m.keys| - 255 <= i))
  {
    var m' := Override(budget, m);
    assert NumStatic(m) == |m.keys| && NumStatic(m') == |m.keys| + 1;
    assert m'.header.required == m.header.required && m'.header.readonlySigned == m.header.readonlySigned;
  }

  /** Every existing key keeps its signer and writable role, except that the 8-bit count of
      readonly unsigned keys wraps when it already stands at 255. */
  lemma OverrideKeepsRoles(budget: Option<ComputeBudget>, m: Message)
    ensures m.keys <= Override(budget, m).keys
    ensures (forall i :: 0 <= i < |m.keys| ==> MetaAt(Override(budget, m), i) == MetaAt(m, i))
            <==> !(AppendsKey(budget, m) && m.header.readonlyUnsigned == 255 && m.header.required < |m.keys|)
  {
    if AppendsKey(budget, m) {
      forall i | 0 <= i < |m.keys|
        ensures MetaAt(Override(budget, m), i) == MetaAt(m, i)
                <==> !(m.header.readonlyUnsigned == 255 && m.header.required <= i && |m.keys| - 255 <= i)
      {
        AppendedRoles(budget, m, i);
      }
      if m.header.readonlyUnsigned == 255 && m.header.required < |m.keys| {
        var last := |m.keys| - 1;
        assert MetaAt(Override(budget, m), last) != MetaAt(m, last);
      }
    }
  }

  function PlainKeys(n: nat): (keys: seq<Key>)
    ensures |keys| == n && ComputeBudgetProgram !in keys
  {
    seq(n, i requires 0 <= i < n => Other(i))
  }

  /** A message with one signer and 255 readonly keys: the rewrite turns all of them writable. */
  lemma FullHeaderTurnsWritable(b: ComputeBudget, i: nat)
    requires Honored(b) && 1 <= i <= 255
    ensures var m := Message(false, false, PlainKeys(256), Header(1, 0, 255), NO_HASH, [], []);
            !MetaAt(m, i).writable && MetaAt(Override(Some(b), m), i) == MetaAt(m, i).(writable := true)
  {
    AppendedRoles(Some(b), Message(false, false, PlainKeys(256), Header(1, 0, 255), NO_HASH, [], []), i);
  }

  /** The added key is a readonly non-signer unless the header already claims more signers than
      keys, or the readonly count wraps. */
  lemma AddedKeyRole(budget: Option<ComputeBudget>, m: Message)
    requires AppendsKey(budget, m)
    ensures MetaAt(Override(budget, m), |m.keys|) == Meta(ComputeBudgetProgram, false, false)
            <==> m.header.required <= |m.keys| && m.header.readonlyUnsigned != 255
  {
    assert NumStatic(Override(budget, m)) == |m.keys| + 1;
  }

  /** An instruction whose largest index points one past the last key. */
  predicate PointsPastEnd(m: Message, ci: Compiled) {
    && !InRange(m, ci)
    && ci.program <= |m.keys|
    && forall j :: 0 <= j < |ci.accounts| ==> ci.accounts[j] <= |m.keys|
  }

  /** Every original instruction stays in place and keeps its program, its accounts with their
      roles, and its data. The one exception is an instruction that was malformed because it
      pointed one past the last key: the added key makes it resolve. */
  lemma OverrideKeepsMeaning(budget: Option<ComputeBudget>, m: Message, j: nat)
    requires j < |m.instructions|
    requires AppendsKey(budget, m) ==> m.header.readonlyUnsigned < 255
    ensures |m.instructions| <= |Override(budget, m).instructions|
    ensures Override(budget, m).instructions[j] == m.instructions[j]
    ensures Meaning(Override(budget, m), m.instructions[j]) == Meaning(m, m.instructions[j])
            <==> !(AppendsKey(budget, m) && PointsPastEnd(m, m.instructions[j]))
  {
    var m', ci := Override(budget, m), m.instructions[j];
    OverrideKeepsRoles(budget, m);
    if InRange(m, ci) {
      forall q | 0 <= q < |ci.accounts|
        ensures MetaAt(m', ci.accounts[q]) == MetaAt(m, ci.accounts[q])
      {
        assert ci.accounts[q] < |m.keys|;
      }
      assert Meaning(m', ci).value.accounts == Meaning(m, ci).value.accounts;
    } else if !AppendsKey(budget, m) {
      assert m'.keys == m.keys;
    }
  }

  /** A malformed message whose only instruction names the missing key as its program, and
      which the rewrite turns into a well-formed compute-budget instruction. */
  lemma PointingPastEndBecomesValid(b: ComputeBudget)
    requires Honored(b)
    ensures var ci := Compiled(1, [], []);
            var m := Message(false, false, [Other(0)], Header(1, 0, 0), NO_HASH, [ci], []);
            && Meaning(m, ci) == None
            && Override(Some(b), m).instructions[0] == ci
            && Meaning(Override(Some(b), m), ci) == Some(Instruction(ComputeBudgetProgram, [], []))
  {
    var ci := Compiled(1, [], []);
    var m := Message(false, false, [Other(0)], Header(1, 0, 0), NO_HASH, [ci], []);
    assert FirstIndex(m.keys, ComputeBudgetProgram) == -1;
    assert AppendsKey(Some(b), m);
    assert Meaning(Override(Some(b), m), ci).value.accounts == [];
  }

  /** Applying the rewrite again changes nothing, unless the position of the compute-budget
      program does not fit the 16-bit program index of the appended instructions. */
  lemma OverrideIdempotent(budget: Option<ComputeBudget>, m: Message)
    ensures Override(budget, Override(budget, m)) == Override(budget, m)
            <==> !(Rewrites(budget, m) && BudgetKeyIndex(m) >= 0x1_0000)
  {
    if Rewrites(budget, m) {
      var m', at := Override(budget, m), BudgetKeyIndex(m);
      assert m'.keys[at] == ComputeBudgetProgram;
      assert forall j :: 0 <= j < at ==> m'.keys[j] == m.keys[j] != ComputeBudgetProgram;
      assert FirstIndex(m'.keys, ComputeBudgetProgram) == at;
      var added := m'.instructions[|m.instructions|];
      assert added.program == ToU16(at);
      if at < 0x1_0000 {
        assert Targets(m', at);
      } else {
        assert !Targets(m', at);
        assert |Override(budget, m').instructions| > |m'.instructions|;
      }
    }
  }

  /** A message that lists the program behind 65536 other keys: its 16-bit index wraps to the first
      key, so the second rewrite does not recognize the first one and appends again. */
  lemma FarKeyRewrittenTwice(b: ComputeBudget)
    requires Honored(b)
    ensures var keys := PlainKeys(0x1_0000) + [ComputeBudgetProgram];
            var m := Message(false, false, keys, Header(1, 0, 0), NO_HASH, [], []);
            var once := Override(Some(b), m);
            && once.instructions != []
            && once.instructions[0].program == 0
            && Override(Some(b), once).instructions == once.instructions + once.instructions
  {
    var keys := PlainKeys(0x1_0000) + [ComputeBudgetProgram];
    var m := Message(false, false, keys, Header(1, 0, 0), NO_HASH, [], []);
    IndexBehind(PlainKeys(0x1_0000), ComputeBudgetProgram);
    var once := Override(Some(b), m);
    assert once.instructions == BudgetInstructions(b, 0x1_0000);
    assert !Targets(once, 0x1_0000);
  }

  lemma IndexBehind(before: seq<Key>, k: Key)
    requires k !in before
    ensures FirstIndex(before + [k], k) == |before|
  {
    var keys := before + [k];
    assert keys[|before|] == k;
    assert forall j :: 0 <= j < |before| ==> keys[j] == before[j] && before[j] in before;
  }

  // ----- the budget replay derives from a message -----

  /** What a compute-budget instruction with the given tag asks for. */
  function Requested(ins: Option<Instruction>, tag: byte): Option<nat> {
    if ins.Some? && ins.value.program == ComputeBudgetProgram && |ins.value.data| == 5 && ins.value.data[0] == tag
    then Some(GetLE(ins.value.data[1..]))
    else None
  }

  /** The value the first `n` instructions request under `tag`; the last request wins. */
  function RequestedBy(m: Message, n: nat, tag: byte): Option<nat>
    requires n <= |m.instructions|
  {
    if n == 0 then None
    else
      var r := Requested(Meaning(m, m.instructions[n - 1]), tag);
      if r.Some? then r else RequestedBy(m, n - 1, tag)
  }

  function UnitLimit(m: Message): Option<nat> {
    RequestedBy(m, |m.instructions|, UNIT_LIMIT_TAG)
  }

  function HeapSize(m: Message): nat {
    var r := RequestedBy(m, |m.instructions|, HEAP_FRAME_TAG);
    if r.Some? then r.value else DEFAULT_HEAP
  }

  predicate DistinctKeys(m: Message) {
    forall i, j :: 0 <= i < j < |m.keys| ==> m.keys[i] != m.keys[j]
  }

  lemma {:induction false} NoRequestsWithoutTarget(budget: Option<ComputeBudget>, m: Message, n: nat, tag: byte)
    requires n <= |m.instructions|
    requires Rewrites(budget, m) && DistinctKeys(m)
    requires AppendsKey(budget, m) ==> m.header.readonlyUnsigned < 255
    requires forall j :: 0 <= j < |m.instructions| ==> !PointsPastEnd(m, m.instructions[j])
    ensures RequestedBy(m, n, tag) == None
    ensures RequestedBy(Override(budget, m), n, tag) == None
  {
    if n > 0 {
      NoRequestsWithoutTarget(budget, m, n - 1, tag);
      OverrideKeepsMeaning(budget, m, n - 1);
      var ci := m.instructions[n - 1];
      var i := FirstIndex(m.keys, ComputeBudgetProgram);
      if i >= 0 {
        assert !Targets(m, i);
        assert ci.program != i && m.keys[i] == ComputeBudgetProgram;
      }
    }
  }

  /** An appended payload is read back as exactly the value it was built from, under its own tag. */
  lemma PayloadReadsBack(m: Message, ci: Compiled, tag: byte, x: u32)
    requires ci.accounts == [] && ci.data == [tag] + PutLE(x, 4)
    requires ci.program < |m.keys| && m.keys[ci.program] == ComputeBudgetProgram
    ensures Requested(Meaning(m, ci), tag) == Some(x)
    ensures forall other :: other != tag ==> Requested(Meaning(m, ci), other) == None
  {
    assert ci.data[1..] == PutLE(x, 4);
    U32Fits(x);
    LittleEndianRoundTrip(x, 4);
  }

  /** A message that carried no compute-budget instruction requests exactly the configured unit
      limit and heap size afterwards: the 32-bit conversion loses nothing. */
  lemma OverrideInstallsBudget(b: ComputeBudget, m: Message)
    requires Honored(b)
    requires Rewrites(Some(b), m) && DistinctKeys(m) && BudgetKeyIndex(m) < 0x1_0000
    requires AppendsKey(Some(b), m) ==> m.header.readonlyUnsigned < 255
    requires forall j :: 0 <= j < |m.instructions| ==> !PointsPastEnd(m, m.instructions[j])
    ensures UnitLimit(m) == None && HeapSize(m) == DEFAULT_HEAP
    ensures UnitLimit(Override(Some(b), m)) == Some(b.unitLimit)
    ensures HeapSize(Override(Some(b), m)) == b.heapSize
  {
    var m', n := Override(Some(b), m), |m.instructions|;
    NoRequestsWithoutTarget(Some(b), m, n, UNIT_LIMIT_TAG);
    NoRequestsWithoutTarget(Some(b), m, n, HEAP_FRAME_TAG);
    assert ToU32(b.unitLimit) == b.unitLimit;
    InstalledRequests(b, m', m.instructions, BudgetKeyIndex(m));
  }

  lemma InstalledRequests(b: ComputeBudget, m: Message, before: seq<Compiled>, at: nat)
    requires at < |m.keys| && at < 0x1_0000 && m.keys[at] == ComputeBudgetProgram
    requires m.instructions == before + BudgetInstructions(b, at)
    requires RequestedBy(m, |before|, UNIT_LIMIT_TAG) == None
    requires RequestedBy(m, |before|, HEAP_FRAME_TAG) == None
    ensures UnitLimit(m) == Some(ToU32(b.unitLimit))
    ensures HeapSize(m) == b.heapSize
  {
    var added := BudgetInstructions(b, at);
    PayloadReadsBack(m, added[0], UNIT_LIMIT_TAG, ToU32(b.unitLimit));
    if b.heapSize != DEFAULT_HEAP {
      PayloadReadsBack(m, added[1], HEAP_FRAME_TAG, b.heapSize);
    }
    LastRequestsWin(m, before, added, ToU32(b.unitLimit), b.heapSize);
  }

  lemma RequestStep(m: Message, n: nat, ci: Compiled, tag: byte)
    requires n < |m.instructions| && m.instructions[n] == ci
    ensures var r := Requested(Meaning(m, ci), tag);
            RequestedBy(m, n + 1, tag) == if r.Some? then r else RequestedBy(m, n, tag)
  {
  }

  lemma LastRequestsWin(m: Message, before: seq<Compiled>, added: seq<Compiled>, limit: u32, heap: u32)
    requires m.instructions == before + added
    requires |added| == if heap == DEFAULT_HEAP then 1 else 2
    requires Requested(Meaning(m, added[0]), UNIT_LIMIT_TAG) == Some(limit)
    requires Requested(Meaning(m, added[0]), HEAP_FRAME_TAG) == None
    requires |added| == 2 ==> Requested(Meaning(m, added[1]), HEAP_FRAME_TAG) == Some(heap)
    requires |added| == 2 ==> Requested(Meaning(m, added[1]), UNIT_LIMIT_TAG) == None
    requires RequestedBy(m, |before|, HEAP_FRAME_TAG) == None
    ensures UnitLimit(m) == Some(limit)
    ensures HeapSize(m) == heap
  {
    var n := |before|;
    RequestStep(m, n, added[0], UNIT_LIMIT_TAG);
    RequestStep(m, n, added[0], HEAP_FRAME_TAG);
    if |added| == 2 {
      RequestStep(m, n + 1, added[1], UNIT_LIMIT_TAG);
      RequestStep(m, n + 1, added[1], HEAP_FRAME_TAG);
    }
  }

  /** The age check and replay see the same leading instruction: the message before the rewrite
      and after it agree on it whenever the original one had its indexes in range. A message
      without instructions gains a compute-budget one, never a system instruction. */
  lemma OverrideKeepsFirstInstruction(budget: Option<ComputeBudget>, m: Message)
    requires AppendsKey(budget, m) ==> m.header.readonlyUnsigned < 255
    requires BudgetKeyIndex(m) < 0x1_0000
    requires m.instructions != [] ==> !PointsPastEnd(m, m.instructions[0])
    ensures m.instructions != [] ==> FirstInstruction(Override(budget, m)) == FirstInstruction(m)
    ensures m.instructions == [] && Rewrites(budget, m) ==>
              FirstInstruction(Override(budget, m)).Some? &&
              FirstInstruction(Override(budget, m)).value.program == ComputeBudgetProgram
  {
    if m.instructions != [] {
      OverrideKeepsMeaning(budget, m, 0);
    } else if Rewrites(budget, m) {
      OverrideLeads(budget, m);
    }
  }

  lemma OverrideLeads(budget: Option<ComputeBudget>, m: Message)
    requires Rewrites(budget, m) && m.instructions == [] && BudgetKeyIndex(m) < 0x1_0000
    ensures FirstInstruction(Override(budget, m)).Some?
    ensures FirstInstruction(Override(budget, m)).value.program == ComputeBudgetProgram
  {
    var m', added := Override(budget, m), BudgetInstructions(budget.value, BudgetKeyIndex(m));
    assert m'.keys[BudgetKeyIndex(m)] == ComputeBudgetProgram;
    assert m'.instructions == added;
    LeadingMeaning(m', added[0]);
  }

  lemma LeadingMeaning(m: Message, ci: Compiled)
    requires m.instructions != [] && m.instructions[0] == ci && ci.accounts == [] && ci.program < |m.keys|
    ensures FirstInstruction(m) == Some(Instruction(m.keys[ci.program], [], ci.data))
  {
    assert Meaning(m, ci).value.accounts == [];
  }
}
