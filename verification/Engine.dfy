/** The state of a LiteSVM instance (svm.go) and the code it calls but does not contain. */
module Engine {
  import opened Types
  import opened Messages
  import opened ComputeBudgets

  // ----- sysvar values -----

  datatype Clock = Clock(slot: u64, epochStart: i64, epoch: u64, leaderEpoch: u64, unixTime: i64)

  datatype RecentEntry = RecentEntry(hash: Hash, lamportsPerSignature: u64)

  type SlotHash = Keyed<Hash>

  datatype StakeEntry = StakeEntry(effective: u64, activating: u64, deactivating: u64)

  /** A decoded sysvar; the engine looks inside four of the ten only. */
  datatype SysvarValue =
    | ClockValue(clock: Clock)
    | RecentValue(queue: seq<RecentEntry>)
    | SlotHashesValue(hashes: seq<SlotHash>)
    | StakeHistoryValue(stakes: seq<Keyed<StakeEntry>>)
    | OpaqueValue(content: Bytes)

  predicate HasKind(x: Sysvar, v: SysvarValue) {
    match x
    case ClockVar => v.ClockValue?
    case RecentBlockhashesVar => v.RecentValue?
    case SlotHashesVar => v.SlotHashesValue?
    case StakeHistoryVar => v.StakeHistoryValue?
    case _ => v.OpaqueValue?
  }

  predicate IsOpaque(x: Sysvar) {
    HasKind(x, OpaqueValue([]))
  }

  /** The typed cache slots and the account mirrors beside them; a missing key is a nil pointer. */
  datatype Cache = Cache(typed: map<Sysvar, SysvarValue>, mirror: map<Sysvar, Account>)

  /** Account sizes that the vector-shaped sysvars are padded to. */
  function FixedSize(x: Sysvar): nat {
    match x
    case SlotHashesVar => 8 + 512 * 40
    case StakeHistoryVar => 8 + 512 * 32
    case _ => 0
  }

  function Padded(x: Sysvar, data: Bytes): Bytes {
    if |data| < FixedSize(x) then data + Zeros(FixedSize(x) - |data|) else data
  }

  // ----- lookup tables -----

  datatype TableMeta = TableMeta(lastExtendedSlot: u64, startIndex: u8, deactivationSlot: u64)

  datatype Table = Table(meta: TableMeta, addresses: seq<Key>)

  // ----- replay -----

  datatype ErrorKind = InstructionError | InsufficientFundsForRent | OtherKind

  datatype TxError = TxError(kind: ErrorKind, rendering: string)

  datatype Recorded = Recorded(program: nat, accounts: seq<nat>, data: Bytes, stackHeight: nat)

  datatype Group = Group(index: nat, instructions: seq<Recorded>)

  datatype Execution = Execution(updates: seq<Update>, writables: seq<Key>)

  datatype ReturnData = ReturnData(program: Key, data: Bytes)

  /** The metadata of an execution; `logs` are missing when no recorder was attached. */
  datatype Details = Details(units: u64, logs: Option<seq<string>>, returned: Option<ReturnData>, groups: seq<Group>)

  /** What replay reports. `details` are those of the processed transaction, `context` those of the
      execution context; `compiled` are the accounts whose program was compiled into the cache. */
  datatype ReplayOutput = ReplayOutput(
    processed: bool,
    details: Option<Details>,
    execution: Option<Execution>,
    error: Option<TxError>,
    context: Option<Details>,
    fee: Option<u64>,
    instructions: seq<Instruction>,
    compiled: set<Key>)

  /** What replay may look at: the slot context, the transaction as it is after every rewrite,
      and the simulation flag. */
  datatype View = View(
    store: Store, cache: Cache, slot: u64, blockhash: Hash, transaction: Transaction, simulate: bool)

  // ----- outcomes and history -----

  datatype InnerInstruction = InnerInstruction(instruction: Compiled, stackHeight: u16)

  datatype PostAccount = PostAccount(address: Key, account: Account)

  datatype Outcome = Outcome(
    ok: bool,
    signature: Signature,
    units: u64,
    fee: u64,
    err: string,
    returned: Option<ReturnData>,
    logs: seq<string>,
    inner: seq<seq<InnerInstruction>>,
    postAccounts: seq<PostAccount>)

  datatype History = History(capacity: nat, entries: map<Signature, Outcome>, order: seq<Signature>)

  // ----- the instance -----

  datatype State = State(
    store: Store,
    cache: Cache,
    programs: map<Key, Bytes>,
    slot: u64,
    blockhashes: seq<Hash>,
    governorFee: u64,
    recentFee: u64,
    sigverify: bool,
    blockhashCheck: bool,
    budget: Option<ComputeBudget>,
    history: History,
    airdropKey: Key)

  // ----- external code -----

  /** Functions of the libraries the engine is built on. */
  datatype Library = Library(
    verifySignatures: Transaction -> bool,
    sha256: Bytes -> Hash,
    decodeSysvar: (Sysvar, Bytes) -> Option<SysvarValue>,
    encodeSysvar: (Sysvar, SysvarValue) -> Bytes,
    defaultSysvar: Sysvar -> Bytes,
    feesLength: nat,
    minimumBalance: (SysvarValue, nat) -> u64,
    nonceAllows: (Instruction, Hash, Store) -> bool,
    advanceNonce: (Store, seq<RecentEntry>, Transaction, Instruction) -> Store,
    decodeTable: Bytes -> Option<Table>,
    deactivated: (TableMeta, u64, seq<SlotHash>) -> bool,
    programData: Key -> Option<Key>,
    addressBytes: Key -> Bytes,
    addressOf: Bytes -> Option<Key>,
    validProgram: Bytes -> bool)

  /** The values of the four inspected kinds that have an encoding: lists count their entries in
      64 bits. */
  predicate Encodable(x: Sysvar, v: SysvarValue) {
    match v
    case ClockValue(_) => x.ClockVar?
    case RecentValue(q) => x.RecentBlockhashesVar? && |q| < TWO_64
    case SlotHashesValue(l) => x.SlotHashesVar? && |l| < TWO_64
    case StakeHistoryValue(l) => x.StakeHistoryVar? && |l| < TWO_64
    case OpaqueValue(_) => false
  }

  /** Decoding gives a value of the sysvar's own kind. */
  ghost predicate KindLaw(lib: Library) {
    forall x, d :: lib.decodeSysvar(x, d).Some? ==> HasKind(x, lib.decodeSysvar(x, d).value)
  }

  /** The sysvar codecs round-trip every encodable value and every default, decode to the right
      kind, ignore the zero padding of the vector sysvars, and read an all-zero Fees account as
      the default Fees value. */
  ghost predicate LawfulCodec(lib: Library) {
    && KindLaw(lib)
    && (forall x, v {:trigger lib.encodeSysvar(x, v)} :: Encodable(x, v) ==>
            lib.decodeSysvar(x, lib.encodeSysvar(x, v)) == Some(v))
    && (forall x {:trigger lib.defaultSysvar(x)} :: IsOpaque(x) ==>
            lib.decodeSysvar(x, lib.encodeSysvar(x, OpaqueValue(lib.defaultSysvar(x)))) == Some(OpaqueValue(lib.defaultSysvar(x))))
    && (forall x, d {:trigger Padded(x, d)} :: lib.decodeSysvar(x, d).Some? ==>
            lib.decodeSysvar(x, Padded(x, d)) == lib.decodeSysvar(x, d))
    && lib.decodeSysvar(FeesVar, Zeros(lib.feesLength)) == Some(OpaqueValue(lib.defaultSysvar(FeesVar)))
  }
}
