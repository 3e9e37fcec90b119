/** One trip of a transaction through the engine (tx.go, `execute`): admission checks, message
    rewriting, replay under a temporarily extended blockhash queue, commit, and recording. */
module Pipeline {
  import opened Types
  import opened Messages
  import opened ComputeBudgets
  import opened Engine
  import opened Ledger
  import opened Lookups
  import opened Programs
  import opened Outcomes
  import opened Histories

  /** Replay of one call: any function of what replay may look at. */
  type Replay = View -> ReplayOutput

  // ----- admission -----

  const SENTINEL_SEED: string := "mithrilsvm:latest-evicted-blockhash-sentinel"

  function Queue(cache: Cache): seq<RecentEntry> {
    if RecentBlockhashesVar in cache.typed && cache.typed[RecentBlockhashesVar].RecentValue?
    then cache.typed[RecentBlockhashesVar].queue else []
  }

  predicate InQueue(q: seq<RecentEntry>, h: Hash) {
    exists i :: 0 <= i < |q| && q[i].hash == h
  }

  /** A message is young enough when its blockhash is queued (or is the evicted sentinel), or when
      its leading instruction satisfies the durable-nonce rules. */
  predicate AgeValid(lib: Library, s: State, m: Message) {
    || InQueue(Queue(s.cache), m.recent)
    || m.recent == lib.sha256(Ascii(SENTINEL_SEED))
    || (FirstInstruction(m).Some? && lib.nonceAllows(FirstInstruction(m).value, m.recent, s.store))
  }

  /** A recorded signature is refused, unless its age is checked and has run out: then replay is
      left to report the stale blockhash. */
  predicate Duplicate(lib: Library, s: State, tx: Transaction, m: Message) {
    && s.sigverify
    && s.history.capacity > 0
    && tx.signatures != []
    && tx.signatures[0] in s.history.entries
    && (!s.blockhashCheck || AgeValid(lib, s, m))
  }

  /** The message handed to replay, or the name of the error that stops the transaction first. */
  function Admit(lib: Library, s: State, tx: Transaction): Result<Message, string> {
    if s.sigverify && !lib.verifySignatures(tx) then Err("SignatureFailure")
    else
      match Resolve(lib, s, tx.message)
      case Err(e) => Err(ErrorName(e))
      case Ok(m) => if Duplicate(lib, s, tx, m) then Err("AlreadyProcessed") else Ok(Override(s.budget, m))
  }

  // ----- replay -----

  /** The slot programs execute at; saturates instead of wrapping to 0. */
  function ExecSlot(slot: u64): (e: u64)
    ensures e > 0
    ensures slot < TWO_64 - 1 ==> e == slot + 1
    ensures slot == TWO_64 - 1 ==> e == slot
  {
    var next := (slot + 1) % TWO_64;
    if next == 0 then slot else next
  }

  /** The queue that makes `h` valid: unchanged when `h` is already there. */
  function Injected(cache: Cache, h: Hash, fee: u64): Cache {
    if InQueue(Queue(cache), h) then cache
    else cache.(typed := cache.typed[RecentBlockhashesVar := RecentValue([RecentEntry(h, fee)] + Queue(cache))])
  }

  function ReplayCache(s: State, h: Hash): Cache {
    if s.blockhashCheck then s.cache else Injected(s.cache, h, s.governorFee)
  }

  function ViewFor(s: State, tx: Transaction, m: Message, simulate: bool): View {
    View(s.store, ReplayCache(s, m.recent), ExecSlot(s.slot),
         if s.blockhashes == [] then NO_HASH else s.blockhashes[0],
         Transaction(tx.signatures, m), simulate)
  }

  // ----- commit -----

  /** Executed and failed after fees were charged. */
  predicate FailedIncluded(out: ReplayOutput) {
    && out.error.Some?
    && out.context.Some?
    && out.fee.Some?
    && (out.error.value.kind == InstructionError || out.error.value.kind == InsufficientFundsForRent)
  }

  predicate Included(out: ReplayOutput) {
    out.processed || FailedIncluded(out)
  }

  datatype Committed = Committed(store: Store, err: string)

  /** The fee withdrawal of a failed transaction: all of the fee or nothing; a drained payer stays. */
  function Withdraw(store: Store, keys: seq<Key>, fee: u64): Committed {
    if keys == [] then Committed(store, "")
    else if keys[0] !in store then Committed(store, "AccountNotFound")
    else if store[keys[0]].lamports < fee then Committed(store, "InsufficientFundsForFee")
    else
      var a := store[keys[0]];
      Committed(store[keys[0] := a.(lamports := a.lamports - fee)], "")
  }

  function Commit(lib: Library, store: Store, q: seq<RecentEntry>, tx: Transaction, out: ReplayOutput): Committed {
    if out.execution.Some? then Committed(ApplyUpdates(store, out.execution.value.updates), "")
    else if !FailedIncluded(out) then Committed(store, "")
    else
      var w := Withdraw(store, tx.message.keys, out.fee.value);
      if out.instructions == [] then w
      else Committed(lib.advanceNonce(w.store, q, tx, out.instructions[0]), w.err)
  }

  // ----- the whole trip -----

  function Quoted(name: string): string {
    "\"" + name + "\""
  }

  function Blank(tx: Transaction): Outcome {
    Outcome(false, if tx.signatures == [] then [] else tx.signatures[0], 0, 0, "", None, [], [], [])
  }

  datatype Trip = Trip(state: State, outcome: Outcome)

  function Execute(lib: Library, replay: Replay, s: State, tx: Transaction, simulate: bool): Trip {
    match Admit(lib, s, tx)
    case Err(name) => Trip(s, Blank(tx).(err := Quoted(name)))
    case Ok(m) => Run(lib, s, Transaction(tx.signatures, m), replay(ViewFor(s, tx, m, simulate)), simulate)
  }

  /** What follows replay, given its report. */
  function Run(lib: Library, s: State, tx: Transaction, out: ReplayOutput, simulate: bool): Trip {
    var o := Populate(s.store, Blank(tx), |tx.message.instructions|, out, simulate);
    var filled := s.(programs := FillCache(s.programs, s.store, out.compiled));
    if simulate then Trip(filled, o)
    else
      var c := Commit(lib, s.store, Queue(s.cache), tx, out);
      var o' := if c.err == "" then o else o.(ok := false, err := Quoted(c.err));
      Trip(filled.(store := c.store, history := RecordIf(s.history, tx, out, o')), o')
  }

  function RecordIf(h: History, tx: Transaction, out: ReplayOutput, o: Outcome): History {
    if tx.signatures != [] && Included(out) then Record(h, tx.signatures[0], o) else h
  }

  // ----- contracts of replay -----

  /** A report is well formed: updates come exactly with a processed transaction, and an error
      renders to text. */
  predicate WellFormed(out: ReplayOutput) {
    && (out.execution.Some? <==> out.processed)
    && (out.error.Some? ==> out.error.value.rendering != "")
  }

  /** The nonce advance of a failed transaction rewrites data, never balances. */
  ghost predicate LawfulNonce(lib: Library) {
    forall store, q, tx, ins ::
      var after := lib.advanceNonce(store, q, tx, ins);
      after.Keys == store.Keys && forall k :: k in store ==> after[k].lamports == store[k].lamports
  }

  // ----- frames -----

  /** A rejected transaction changes nothing. A simulation changes nothing but the compiled
      programs, which are caches of the unchanged store. */
  lemma ExecuteFrames(lib: Library, replay: Replay, s: State, tx: Transaction, simulate: bool)
    ensures Admit(lib, s, tx).Err? ==>
              && Execute(lib, replay, s, tx, simulate).state == s
              && !Execute(lib, replay, s, tx, simulate).outcome.ok
              && Execute(lib, replay, s, tx, simulate).outcome.err == Quoted(Admit(lib, s, tx).error)
    ensures simulate ==> Execute(lib, replay, s, tx, simulate).state ==
                         s.(programs := Execute(lib, replay, s, tx, simulate).state.programs)
    ensures simulate && CacheAgrees(s) ==> CacheAgrees(Execute(lib, replay, s, tx, simulate).state)
  {
    if Admit(lib, s, tx).Ok? && CacheAgrees(s) {
      FillAgrees(s, replay(ViewFor(s, tx, Admit(lib, s, tx).value, simulate)).compiled);
    }
  }

  /** With age checking off, replay sees the transaction's own blockhash queued in front of the
      untouched queue, so the age check passes; every other cache slot is the engine's own. */
  lemma ReplaySeesValidAge(lib: Library, s: State, tx: Transaction, m: Message, simulate: bool)
    ensures var seen, own := ViewFor(s, tx, m, simulate).cache, s.cache;
            && (s.blockhashCheck ==> seen == own)
            && (!s.blockhashCheck ==> AgeValid(lib, s.(cache := seen), m))
            && seen.mirror == own.mirror
            && (forall x :: x != RecentBlockhashesVar ==>
                    (x in seen.typed <==> x in own.typed) && (x in own.typed ==> seen.typed[x] == own.typed[x]))
            && Queue(seen)[|Queue(seen)| - |Queue(own)|..] == Queue(own)
            && |Queue(seen)| <= |Queue(own)| + 1
  {
    var seen := ViewFor(s, tx, m, simulate).cache;
    if !s.blockhashCheck && !InQueue(Queue(s.cache), m.recent) {
      assert Queue(seen) == [RecentEntry(m.recent, s.governorFee)] + Queue(s.cache);
      assert Queue(seen)[0].hash == m.recent;
    }
  }

  // ----- inclusion, effect and outcome -----

  /** The name and the flag that a report gives an outcome. */
  lemma ReportedError(store: Store, tx: Transaction, n: nat, out: ReplayOutput, simulate: bool)
    ensures var o := Populate(store, Blank(tx), n, out, simulate);
            o.ok == out.error.None? && o.err == if out.error.Some? then out.error.value.rendering else ""
  {
  }

  lemma SendOutcome(lib: Library, s: State, tx: Transaction, out: ReplayOutput, simulate: bool)
    ensures var o, err := Run(lib, s, tx, out, simulate).outcome, Commit(lib, s.store, Queue(s.cache), tx, out).err;
            if !simulate && err != "" then !o.ok && o.err == Quoted(err)
            else o.ok == out.error.None? && o.err == if out.error.Some? then out.error.value.rendering else ""
  {
    ReportedError(s.store, tx, |tx.message.instructions|, out, simulate);
  }

  /** A send that is not included leaves the store and the history alone; an outcome is ok exactly
      when it carries no error; an included, signed send with history on is recorded with the
      very outcome returned. */
  lemma InclusionAndEffectAgree(lib: Library, s: State, tx: Transaction, out: ReplayOutput, simulate: bool)
    requires WellFormed(out)
    ensures var t := Run(lib, s, tx, out, simulate);
            && (!Included(out) ==> t.state.store == s.store && t.state.history == s.history)
            && (t.outcome.ok <==> t.outcome.err == "")
            && (!simulate && Included(out) && tx.signatures != [] && s.history.capacity > 0 && Valid(s.history) ==>
                  tx.signatures[0] in t.state.history.entries &&
                  t.state.history.entries[tx.signatures[0]] == t.outcome)
  {
    SendOutcome(lib, s, tx, out, simulate);
    if !simulate && Included(out) && tx.signatures != [] && s.history.capacity > 0 && Valid(s.history) {
      RecordedIsKept(s.history, tx.signatures[0], Run(lib, s, tx, out, simulate).outcome);
    }
  }

  lemma RecordedIsKept(h: History, sig: Signature, o: Outcome)
    requires Valid(h) && h.capacity > 0
    ensures sig in Record(h, sig, o).entries && Record(h, sig, o).entries[sig] == o
  {
    if sig !in h.entries && |h.order| == h.capacity {
      var grown := h.order + [sig];
      assert sig !in Members(h.order);
      assert grown[..1] == [h.order[0]];
      assert h.order[0] in Members(h.order);
    }
  }

  /** Sending an included transaction again at once is refused as already processed and changes
      nothing, as long as its tables still resolve and its age is valid or not checked; whether
      the first send succeeded or failed does not matter. */
  lemma ResendRejected(lib: Library, s: State, tx: Transaction, m: Message, out: ReplayOutput,
                       s1: State, again: Replay, simulate: bool)
    requires s.sigverify && s.history.capacity > 0 && Valid(s.history)
    requires lib.verifySignatures(tx) && tx.signatures != [] && WellFormed(out) && Included(out)
    requires s1 == Run(lib, s, Transaction(tx.signatures, m), out, false).state
    requires Resolve(lib, s1, tx.message).Ok?
    requires !s.blockhashCheck || AgeValid(lib, s1, Resolve(lib, s1, tx.message).value)
    ensures Execute(lib, again, s1, tx, simulate) == Trip(s1, Blank(tx).(err := Quoted("AlreadyProcessed")))
  {
    InclusionAndEffectAgree(lib, s, Transaction(tx.signatures, m), out, false);
  }

  // ----- simulation predicts sending -----

  /** Simulating and then sending the same transaction, with replay reporting the same execution
      both times: the post accounts list each distinct writable key once in first-occurrence
      order, with the balance the send leaves, and the very account wherever the send leaves one. */
  lemma SimulationPredictsSend(lib: Library, replay: Replay, s: State, tx: Transaction)
    requires Admit(lib, s, tx).Ok?
    requires var m := Admit(lib, s, tx).value;
             var sim, send := replay(ViewFor(s, tx, m, true)), replay(ViewFor(s, tx, m, false));
             sim.processed && sim.details.Some? && sim.execution.Some? && send.execution == sim.execution
    ensures var posts := Execute(lib, replay, s, tx, true).outcome.postAccounts;
            var after := Execute(lib, replay, s, tx, false).state.store;
            var e := replay(ViewFor(s, tx, Admit(lib, s, tx).value, true)).execution.value;
            && |posts| == |FirstOccurrences(e.writables)|
            && (forall i :: 0 <= i < |posts| ==>
                    && posts[i].address == FirstOccurrences(e.writables)[i]
                    && posts[i].account.lamports == Balance(after, posts[i].address)
                    && (posts[i].address in after ==> posts[i].account == after[posts[i].address])
                    && (posts[i].account.lamports != 0 ==> posts[i].address in after))
  {
    var m := Admit(lib, s, tx).value;
    ReportPredictsCommit(s.store, replay(ViewFor(s, tx, m, true)).execution.value);
  }

  // ----- lamports -----

  /** The lamports a send takes out of the store as a fee. */
  function FeeDebited(store: Store, tx: Transaction, out: ReplayOutput): nat {
    if out.fee.None? then 0
    else if out.execution.Some? then out.fee.value
    else if FailedIncluded(out) && Withdraws(store, tx, out.fee.value) then out.fee.value
    else 0
  }

  predicate Withdraws(store: Store, tx: Transaction, fee: u64) {
    tx.message.keys != [] && tx.message.keys[0] in store && store[tx.message.keys[0]].lamports >= fee
  }

  /** The updates of a success move lamports around and pay the fee: nothing is minted. */
  ghost predicate Balanced(store: Store, out: ReplayOutput) {
    out.execution.Some? ==>
      out.fee.Some? && NetChange(store, LastWrites(out.execution.value.updates)) + out.fee.value == 0
  }

  /** What a send removes from the ledger is exactly the fee it debits. */
  lemma SendConserves(lib: Library, s: State, tx: Transaction, out: ReplayOutput)
    requires LawfulNonce(lib) && Balanced(s.store, out)
    ensures Total(Run(lib, s, tx, out, false).state.store) + FeeDebited(s.store, tx, out) == Total(s.store)
  {
    if out.execution.Some? {
      CommitMovesTotalByNetChange(s.store, out.execution.value.updates);
    } else if FailedIncluded(out) {
      var w := Withdraw(s.store, tx.message.keys, out.fee.value);
      if Withdraws(s.store, tx, out.fee.value) {
        ReplaceMovesTotal(s.store, tx.message.keys[0], w.store[tx.message.keys[0]]);
      }
      if out.instructions != [] {
        SameBalancesSameTotal(w.store, lib.advanceNonce(w.store, Queue(s.cache), tx, out.instructions[0]));
      }
    }
  }

  /** A failed included transaction debits its payer all of the fee or nothing, reports which, and
      touches no other balance; it never deletes an account, a payer drained to zero included. */
  lemma FailureDebitsPayerOnly(lib: Library, s: State, tx: Transaction, out: ReplayOutput)
    requires LawfulNonce(lib) && out.execution.None? && FailedIncluded(out)
    ensures var t := Run(lib, s, tx, out, false);
            && t.state.store.Keys == s.store.Keys
            && (forall k :: k in s.store ==>
                    t.state.store[k].lamports ==
                    if tx.message.keys != [] && k == tx.message.keys[0] && s.store[k].lamports >= out.fee.value
                    then s.store[k].lamports - out.fee.value else s.store[k].lamports)
            && !t.outcome.ok
            && t.outcome.err ==
               if tx.message.keys == [] || Withdraws(s.store, tx, out.fee.value) then out.error.value.rendering
               else if tx.message.keys[0] !in s.store then Quoted("AccountNotFound")
               else Quoted("InsufficientFundsForFee")
  {
    var w := Withdraw(s.store, tx.message.keys, out.fee.value);
    var t := Run(lib, s, tx, out, false);
    SendOutcome(lib, s, tx, out, false);
    assert w.store.Keys == s.store.Keys;
    if out.instructions != [] {
      assert t.state.store == lib.advanceNonce(w.store, Queue(s.cache), tx, out.instructions[0]);
    }
  }

  /** An account disappears in one way only: a success whose last update of it is drained. */
  lemma OnlyDrainedSuccessDeletes(lib: Library, s: State, tx: Transaction, out: ReplayOutput, k: Key)
    requires LawfulNonce(lib) && k in s.store
    ensures k !in Run(lib, s, tx, out, false).state.store <==>
            out.execution.Some? &&
            k in LastWrites(out.execution.value.updates) &&
            LastWrites(out.execution.value.updates)[k].lamports == 0
  {
    if out.execution.Some? {
      UpdatesAreLastWrites(s.store, out.execution.value.updates, k);
    }
  }
}
