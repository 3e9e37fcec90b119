/** What one trip does, in terms of the transaction, the state and the fields of replay's report:
    which transactions are turned away and under which name, what replay is shown, what its report
    leaves in the outcome, and which failures are charged and recorded (tx.go, `execute`). */
module Trips {
  import opened Types
  import opened Messages
  import opened ComputeBudgets
  import opened Engine
  import opened Ledger
  import opened Lookups
  import opened Programs
  import opened Outcomes
  import opened Histories
  import opened Pipeline
  import opened Steps
  import opened Runs

  // ----- refusals -----

  /** The trip ends before replay: nothing changes, and the outcome carries the signature and the
      quoted error name only. */
  ghost predicate Refused(lib: Library, replay: Replay, s: State, tx: Transaction, simulate: bool, name: string) {
    var sig := if tx.signatures == [] then [] else tx.signatures[0];
    Execute(lib, replay, s, tx, simulate) == Trip(s, Outcome(false, sig, 0, 0, Quoted(name), None, [], [], []))
  }

  /** A transaction whose signatures do not verify is refused while verification is on, whatever its
      tables, its budget and the history hold. */
  lemma BadSignatureIsRefused(lib: Library, replay: Replay, s: State, tx: Transaction, simulate: bool)
    requires s.sigverify && !lib.verifySignatures(tx)
    ensures Refused(lib, replay, s, tx, simulate, "SignatureFailure")
    ensures Execute(lib, replay, s, tx, simulate).outcome.err == "\"SignatureFailure\""
  {
    assert Admit(lib, s, tx) == Err("SignatureFailure");
    assert Quoted("SignatureFailure") == "\"SignatureFailure\"";
  }

  /** So over every run, a send that leaves any trace while verification is on carries good signatures. */
  lemma OnlyVerifiedSendsAct(lib: Library, states: seq<State>, steps: seq<Step>, i: nat)
    requires IsRun(lib, states, steps) && i < |steps| && steps[i].Send? && states[i].sigverify
    requires states[i + 1] != states[i] || Includes(lib, states[i], steps[i])
    ensures lib.verifySignatures(steps[i].tx)
  {
    assert StepAt(lib, states, steps, i);
    if !lib.verifySignatures(steps[i].tx) {
      BadSignatureIsRefused(lib, steps[i].replay, states[i], steps[i].tx, false);
    }
  }

  predicate PassesSignatures(lib: Library, s: State, tx: Transaction) {
    s.sigverify ==> lib.verifySignatures(tx)
  }

  predicate HasOpenLookups(m: Message) {
    m.versioned && !m.resolved && NumLookups(m.lookups) > 0
  }

  /** The first table of a message that cannot be used decides the error. */
  lemma FaultyTableIsRefused(lib: Library, replay: Replay, s: State, tx: Transaction, simulate: bool, i: nat)
    requires PassesSignatures(lib, s, tx) && HasOpenLookups(tx.message)
    requires i < |tx.message.lookups| && !Usable(lib, s, tx.message.lookups[i].table)
    requires forall j :: 0 <= j < i ==> Usable(lib, s, tx.message.lookups[j].table)
    ensures var id := tx.message.lookups[i].table;
            Refused(lib, replay, s, tx, simulate,
                    if id !in s.store then "AddressLookupTableNotFound"
                    else if s.store[id].owner != LookupTableProgram then "InvalidAddressLookupTableOwner"
                    else if lib.decodeTable(s.store[id].data).None? then "InvalidAddressLookupTableData"
                    else "AddressLookupTableNotFound")
  {
    ResolveReportsFirstFault(lib, s, tx.message, i);
    var e := LoadTable(lib, s, tx.message.lookups[i].table).error;
    assert Admit(lib, s, tx) == Err(ErrorName(e));
  }

  lemma HiddenIndexFails(lib: Library, s: State, m: Message, i: nat)
    requires HasOpenLookups(m) && i < |m.lookups| && !InVisible(lib, s, m.lookups[i])
    requires forall j :: 0 <= j < |m.lookups| ==> Usable(lib, s, m.lookups[j].table)
    ensures Resolve(lib, s, m) == Err(InvalidAddressLookupTableIndex)
  {
    ResolveSucceedsExactly(lib, s, m);
    HiddenIsReported(lib, s, m);
  }

  /** With usable tables only, an index that is not visible is the error. */
  lemma HiddenIndexIsRefused(lib: Library, replay: Replay, s: State, tx: Transaction, simulate: bool, i: nat)
    requires PassesSignatures(lib, s, tx) && HasOpenLookups(tx.message)
    requires forall j :: 0 <= j < |tx.message.lookups| ==> Usable(lib, s, tx.message.lookups[j].table)
    requires i < |tx.message.lookups| && !InVisible(lib, s, tx.message.lookups[i])
    ensures Refused(lib, replay, s, tx, simulate, "InvalidAddressLookupTableIndex")
  {
    HiddenIndexFails(lib, s, tx.message, i);
    assert Admit(lib, s, tx) == Err("InvalidAddressLookupTableIndex");
  }

  /** The blockhash is queued or the sentinel, or a durable nonce stands in for it. */
  predicate IsYoung(lib: Library, s: State, m: Message) {
    || (exists i :: 0 <= i < |Queue(s.cache)| && Queue(s.cache)[i].hash == m.recent)
    || m.recent == lib.sha256(Ascii(SENTINEL_SEED))
    || (FirstInstruction(m).Some? && lib.nonceAllows(FirstInstruction(m).value, m.recent, s.store))
  }

  /** Recorded, under verification, and of an age that is not checked or still valid. */
  predicate IsDuplicate(lib: Library, s: State, tx: Transaction, m: Message) {
    && s.sigverify
    && tx.signatures != []
    && s.history.capacity > 0
    && tx.signatures[0] in s.history.entries
    && (!s.blockhashCheck || IsYoung(lib, s, m))
  }

  lemma DuplicateIsRefused(lib: Library, replay: Replay, s: State, tx: Transaction, m: Message, simulate: bool)
    requires PassesSignatures(lib, s, tx) && Resolve(lib, s, tx.message) == Ok(m) && IsDuplicate(lib, s, tx, m)
    ensures Refused(lib, replay, s, tx, simulate, "AlreadyProcessed")
  {
    assert Admit(lib, s, tx) == Err("AlreadyProcessed");
  }

  // ----- what replay is shown -----

  /** The cache replay reads: the engine's own, or with age checking off the same with the
      transaction's hash queued in front at the governor's fee, unless it is queued already. */
  function ShownCache(s: State, h: Hash): Cache {
    if s.blockhashCheck || (exists i :: 0 <= i < |Queue(s.cache)| && Queue(s.cache)[i].hash == h) then s.cache
    else Cache(s.cache.typed[RecentBlockhashesVar := RecentValue([RecentEntry(h, s.governorFee)] + Queue(s.cache))],
               s.cache.mirror)
  }

  /** The engine's own store, the slot after the current one, the newest hash, the rewritten
      transaction, and the caller's simulation flag. */
  function Shown(s: State, tx: Transaction, m: Message, simulate: bool): View {
    View(s.store, ShownCache(s, m.recent),
         if s.slot == TWO_64 - 1 then s.slot else s.slot + 1,
         if s.blockhashes == [] then NO_HASH else s.blockhashes[0],
         Transaction(tx.signatures, m), simulate)
  }

  /** The transaction is not refused; it goes to replay as `m`, and replay reports `out`. */
  ghost predicate Replays(lib: Library, replay: Replay, s: State, tx: Transaction, simulate: bool, m: Message, out: ReplayOutput) {
    && PassesSignatures(lib, s, tx)
    && Resolve(lib, s, tx.message).Ok?
    && !IsDuplicate(lib, s, tx, Resolve(lib, s, tx.message).value)
    && m == Override(s.budget, Resolve(lib, s, tx.message).value)
    && out == replay(Shown(s, tx, m, simulate))
  }

  /** Every transaction that is not refused is replayed on exactly what it is shown. */
  lemma OthersAreReplayed(lib: Library, replay: Replay, s: State, tx: Transaction, simulate: bool, m: Message, out: ReplayOutput)
    requires Replays(lib, replay, s, tx, simulate, m, out)
    ensures Admit(lib, s, tx) == Ok(m) && ViewFor(s, tx, m, simulate) == Shown(s, tx, m, simulate)
    ensures Execute(lib, replay, s, tx, simulate) == Run(lib, s, Transaction(tx.signatures, m), out, simulate)
  {
    assert Admit(lib, s, tx) == Ok(m);
    assert ReplayCache(s, m.recent) == ShownCache(s, m.recent);
  }

  // ----- the outcome -----

  /** The metadata a report offers: of the processed transaction, or else of the execution context. */
  function MetadataOf(out: ReplayOutput): Option<Details> {
    if out.processed && out.details.Some? then out.details else out.context
  }

  /** A processed transaction reports any return data it has, a failed one only what is not empty. */
  function ReturnDataOf(out: ReplayOutput): Option<ReturnData> {
    if out.processed && out.details.Some? then out.details.value.returned
    else if out.context.Some? && out.context.value.returned.Some? && out.context.value.returned.value.data != []
    then out.context.value.returned
    else None
  }

  /** The outcome carries what the report says: the fee, the compute units, the logs if any were
      recorded, the return data, and one list of calls per instruction. */
  predicate Carries(o: Outcome, tx: Transaction, out: ReplayOutput) {
    var d := MetadataOf(out);
    && o.signature == (if tx.signatures == [] then [] else tx.signatures[0])
    && o.fee == (if out.fee.Some? then out.fee.value else 0)
    && o.units == (if d.Some? then d.value.units else 0)
    && o.logs == (if d.Some? && d.value.logs.Some? then d.value.logs.value else [])
    && o.returned == ReturnDataOf(out)
    && |o.inner| == (if d.Some? then |tx.message.instructions| else 0)
  }

  lemma PopulatedCarries(store: Store, tx: Transaction, out: ReplayOutput, simulate: bool)
    ensures Carries(Populate(store, Blank(tx), |tx.message.instructions|, out, simulate), tx, out)
    ensures MetadataOf(out).Some? ==>
              Populate(store, Blank(tx), |tx.message.instructions|, out, simulate).inner
              == Inner(|tx.message.instructions|, MetadataOf(out).value.groups)
  {
  }

  lemma RunLists(lib: Library, s: State, tx: Transaction, out: ReplayOutput, simulate: bool)
    requires MetadataOf(out).Some?
    ensures Run(lib, s, tx, out, simulate).outcome.inner == Inner(|tx.message.instructions|, MetadataOf(out).value.groups)
  {
    PopulatedCarries(s.store, tx, out, simulate);
    RunCarries(lib, s, tx, out, simulate);
  }

  lemma RunCarries(lib: Library, s: State, tx: Transaction, out: ReplayOutput, simulate: bool)
    ensures var o, o' := Populate(s.store, Blank(tx), |tx.message.instructions|, out, simulate), Run(lib, s, tx, out, simulate).outcome;
            o' == o || o' == o.(ok := false, err := o'.err)
  {
  }

  /** Whatever is replayed, sent or simulated, its outcome carries its report. */
  lemma OutcomeCarriesReport(lib: Library, replay: Replay, s: State, tx: Transaction, simulate: bool, m: Message, out: ReplayOutput)
    requires Replays(lib, replay, s, tx, simulate, m, out)
    ensures Carries(Execute(lib, replay, s, tx, simulate).outcome, Transaction(tx.signatures, m), out)
  {
    var sent := Transaction(tx.signatures, m);
    OthersAreReplayed(lib, replay, s, tx, simulate, m, out);
    PopulatedCarries(s.store, sent, out, simulate);
    RunCarries(lib, s, sent, out, simulate);
  }

  /** Call `q` of group `g` is listed under its instruction, behind the calls recorded for the same
      instruction before it, and nothing else is listed there. */
  lemma OutcomeListsCalls(lib: Library, replay: Replay, s: State, tx: Transaction, simulate: bool, m: Message, out: ReplayOutput,
                          g: nat, q: nat)
    requires Replays(lib, replay, s, tx, simulate, m, out) && MetadataOf(out).Some?
    requires var groups := MetadataOf(out).value.groups;
             g < |groups| && q < |groups[g].instructions| && groups[g].index < |m.instructions|
    ensures var groups, inner := MetadataOf(out).value.groups, Execute(lib, replay, s, tx, simulate).outcome.inner;
            var i, at := groups[g].index, CallCount(groups[..g], groups[g].index) + q;
            && |inner| == |m.instructions|
            && |inner[i]| == CallCount(groups, i)
            && at < |inner[i]| && ListedAs(inner[i][at], groups[g].instructions[q])
  {
    OthersAreReplayed(lib, replay, s, tx, simulate, m, out);
    RunLists(lib, s, Transaction(tx.signatures, m), out, simulate);
    CallsSit(MetadataOf(out).value.groups, g, q);
  }

  /** The two kinds of errors after which a fee is charged. */
  predicate ChargedKind(out: ReplayOutput) {
    out.error.Some? && (out.error.value.kind.InstructionError? || out.error.value.kind.InsufficientFundsForRent?)
  }

  /** The outcome is ok exactly when the report holds no error and the fee could be withdrawn; post
      accounts come with successful simulations only. */
  lemma OutcomeFlags(lib: Library, replay: Replay, s: State, tx: Transaction, simulate: bool, m: Message, out: ReplayOutput)
    requires Replays(lib, replay, s, tx, simulate, m, out)
    ensures var o := Execute(lib, replay, s, tx, simulate).outcome;
            && (o.ok ==> out.error.None?)
            && (simulate || out.execution.Some? || !ChargedKind(out) || out.context.None? || out.fee.None? ==>
                  o.ok == out.error.None? && o.err == if out.error.Some? then out.error.value.rendering else "")
            && (!simulate || out.execution.None? || !out.processed || out.details.None? ==> o.postAccounts == [])
  {
    var sent := Transaction(tx.signatures, m);
    OthersAreReplayed(lib, replay, s, tx, simulate, m, out);
    SendOutcome(lib, s, sent, out, simulate);
    RunCarries(lib, s, sent, out, simulate);
  }

  // ----- what is charged and recorded -----

  /** The store with the fee taken from the payer, if the payer can pay it. */
  function Debited(store: Store, keys: seq<Key>, fee: u64): Store {
    if keys != [] && keys[0] in store && store[keys[0]].lamports >= fee
    then store[keys[0] := store[keys[0]].(lamports := store[keys[0]].lamports - fee)]
    else store
  }

  /** A transaction that executed and failed with an instruction error or for want of rent is charged
      and, with a signature and a history, recorded; the nonce of its leading instruction advances on
      the debited store, under the queue the engine itself holds. */
  lemma FailureIsCharged(lib: Library, replay: Replay, s: State, tx: Transaction, m: Message, out: ReplayOutput)
    requires Replays(lib, replay, s, tx, false, m, out)
    requires out.execution.None? && ChargedKind(out) && out.context.Some? && out.fee.Some?
    ensures var after, debited := Execute(lib, replay, s, tx, false).state, Debited(s.store, m.keys, out.fee.value);
            && after.store == (if out.instructions == [] then debited
                               else lib.advanceNonce(debited, Queue(s.cache), Transaction(tx.signatures, m), out.instructions[0]))
            && (tx.signatures != [] && s.history.capacity > 0 && Valid(s.history) ==>
                  tx.signatures[0] in after.history.entries &&
                  after.history.entries[tx.signatures[0]] == Execute(lib, replay, s, tx, false).outcome)
  {
    var sent := Transaction(tx.signatures, m);
    OthersAreReplayed(lib, replay, s, tx, false, m, out);
    assert FailedIncluded(out) && Included(out);
    assert Withdraw(s.store, m.keys, out.fee.value).store == Debited(s.store, m.keys, out.fee.value);
    IncludedIsRecorded(lib, s, sent, out);
  }

  lemma IncludedIsRecorded(lib: Library, s: State, tx: Transaction, out: ReplayOutput)
    requires Included(out)
    ensures var t := Run(lib, s, tx, out, false);
            tx.signatures != [] && s.history.capacity > 0 && Valid(s.history) ==>
              tx.signatures[0] in t.state.history.entries && t.state.history.entries[tx.signatures[0]] == t.outcome
  {
    if tx.signatures != [] && s.history.capacity > 0 && Valid(s.history) {
      RecordedIsKept(s.history, tx.signatures[0], Run(lib, s, tx, out, false).outcome);
    }
  }

  lemma DebitedBalance(store: Store, keys: seq<Key>, fee: u64, k: Key)
    requires keys != [] && keys[0] in store && store[keys[0]].lamports >= fee
    ensures Balance(Debited(store, keys, fee), k) == Balance(store, k) - if k == keys[0] then fee else 0
  {
  }

  lemma NonceKeepsBalance(lib: Library, store: Store, q: seq<RecentEntry>, tx: Transaction, ins: Instruction, k: Key)
    requires LawfulNonce(lib)
    ensures Balance(lib.advanceNonce(store, q, tx, ins), k) == Balance(store, k)
  {
    assert lib.advanceNonce(store, q, tx, ins).Keys == store.Keys;
  }

  /** So a payer that can pay loses exactly the fee, and nobody else anything. */
  lemma PayerLosesFee(lib: Library, replay: Replay, s: State, tx: Transaction, m: Message, out: ReplayOutput, k: Key)
    requires Replays(lib, replay, s, tx, false, m, out) && LawfulNonce(lib)
    requires out.execution.None? && ChargedKind(out) && out.context.Some? && out.fee.Some?
    requires m.keys != [] && m.keys[0] in s.store && s.store[m.keys[0]].lamports >= out.fee.value
    ensures Balance(Execute(lib, replay, s, tx, false).state.store, k) ==
            Balance(s.store, k) - if k == m.keys[0] then out.fee.value else 0
  {
    FailureIsCharged(lib, replay, s, tx, m, out);
    DebitedBalance(s.store, m.keys, out.fee.value, k);
    if out.instructions != [] {
      NonceKeepsBalance(lib, Debited(s.store, m.keys, out.fee.value), Queue(s.cache),
                        Transaction(tx.signatures, m), out.instructions[0], k);
    }
  }

  /** Any other failure, or one without a context or a fee, is free and leaves no record. */
  lemma OtherFailuresAreFree(lib: Library, replay: Replay, s: State, tx: Transaction, m: Message, out: ReplayOutput)
    requires Replays(lib, replay, s, tx, false, m, out)
    requires out.execution.None? && !out.processed && (!ChargedKind(out) || out.context.None? || out.fee.None?)
    ensures var after := Execute(lib, replay, s, tx, false).state;
            after.store == s.store && after.history == s.history
  {
    OthersAreReplayed(lib, replay, s, tx, false, m, out);
  }

  /** A success stores the last update of each key, deletes the drained ones, leaves every other
      account alone, and is recorded. */
  lemma SuccessIsCommitted(lib: Library, replay: Replay, s: State, tx: Transaction, m: Message, out: ReplayOutput, k: Key)
    requires Replays(lib, replay, s, tx, false, m, out)
    requires out.processed && out.execution.Some?
    ensures var after, us := Execute(lib, replay, s, tx, false).state, out.execution.value.updates;
            && (forall i :: 0 <= i < |us| && us[i].key == k && (forall j :: i < j < |us| ==> us[j].key != k) ==>
                  if us[i].account.lamports == 0 then k !in after.store
                  else k in after.store && after.store[k] == us[i].account)
            && ((forall i :: 0 <= i < |us| ==> us[i].key != k) ==>
                  (k in after.store <==> k in s.store) && (k in s.store ==> after.store[k] == s.store[k]))
            && (tx.signatures != [] && s.history.capacity > 0 && Valid(s.history) ==>
                  tx.signatures[0] in after.history.entries &&
                  after.history.entries[tx.signatures[0]] == Execute(lib, replay, s, tx, false).outcome)
  {
    OthersAreReplayed(lib, replay, s, tx, false, m, out);
    IncludedIsRecorded(lib, s, Transaction(tx.signatures, m), out);
    var us := out.execution.value.updates;
    UpdatesAreLastWrites(s.store, us, k);
    forall i | 0 <= i < |us| && us[i].key == k && (forall j :: i < j < |us| ==> us[j].key != k)
      ensures k in LastWrites(us) && LastWrites(us)[k] == us[i].account
    {
      LastWriteIs(us, i);
    }
  }

  lemma {:induction false} LastWriteIs(us: seq<Update>, i: nat)
    requires i < |us| && forall j :: i < j < |us| ==> us[j].key != us[i].key
    ensures us[i].key in LastWrites(us) && LastWrites(us)[us[i].key] == us[i].account
  {
    if i < |us| - 1 {
      LastWriteIs(us[..|us| - 1], i);
    }
  }

  /** Replay's compilations end up in the program cache, and nothing else does. */
  lemma CompiledPrograms(lib: Library, replay: Replay, s: State, tx: Transaction, simulate: bool, m: Message, out: ReplayOutput, k: Key)
    requires Replays(lib, replay, s, tx, simulate, m, out)
    ensures var programs := Execute(lib, replay, s, tx, simulate).state.programs;
            && (k in programs <==> k in s.programs || (k in out.compiled && k in s.store))
            && (k in programs ==> programs[k] == if k in s.programs then s.programs[k] else s.store[k].data)
  {
    OthersAreReplayed(lib, replay, s, tx, simulate, m, out);
  }
}
