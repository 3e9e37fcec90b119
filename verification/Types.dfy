/** Values shared by every part of the LiteSVM model.

    Addresses that the engine compares against a constant are separate constructors of
    `Key`; every other 32-byte address is an `Other`. */
module Types {

  datatype Option<+T> = None | Some(value: T)

  datatype Result<+T, +E> = Ok(value: T) | Err(error: E)

  newtype byte = x: int | 0 <= x < 256

  type u8 = x: int | 0 <= x < 0x100
  type u16 = x: int | 0 <= x < 0x1_0000
  type u32 = x: int | 0 <= x < 0x1_0000_0000
  type u64 = x: int | 0 <= x < 0x1_0000_0000_0000_0000

  type i64 = x: int | -0x8000_0000_0000_0000 <= x < 0x8000_0000_0000_0000

  const TWO_64: int := 0x1_0000_0000_0000_0000

  type Bytes = seq<byte>

  /** The ten sysvars whose typed cache slot the engine maintains. */
  datatype Sysvar =
    | ClockVar
    | RentVar
    | EpochScheduleVar
    | EpochRewardsVar
    | LastRestartSlotVar
    | SlotHashesVar
    | StakeHistoryVar
    | SlotHistoryVar
    | RecentBlockhashesVar
    | FeesVar

  datatype Key =
    | SysvarKey(sysvar: Sysvar)
    | SystemProgram
    | ComputeBudgetProgram
    | LookupTableProgram
    | LoaderV1
    | LoaderV2
    | UpgradeableLoader
    | ConfigProgram
    | StakeConfigKey
    | SysvarOwner
    | Other(id: nat)

  type Hash = h: Bytes | |h| == 32 witness Zeros(32)

  const NO_HASH: Hash := Zeros(32)

  type Signature = Bytes

  /** An entry of a vector sysvar: a slot or epoch with its value. */
  datatype Keyed<+V> = Keyed(key: u64, value: V)

  datatype Account = Account(lamports: u64, data: Bytes, owner: Key, executable: bool, rentEpoch: u64)

  /** The account map of the engine. */
  type Store = map<Key, Account>

  /** An account update reported by a successful execution, in report order. */
  datatype Update = Update(key: Key, account: Account)

  function Zeros(n: nat): (z: Bytes)
    ensures |z| == n
  {
    seq(n, _ => 0)
  }

  /** The bytes of an ASCII string. */
  function Ascii(s: string): (bs: Bytes)
    ensures |bs| == |s|
  {
    seq(|s|, i requires 0 <= i < |s| => (s[i] as int % 256) as byte)
  }

  /** The elements of a list, each once, in order of first occurrence. */
  function FirstOccurrences<T(==, !new)>(xs: seq<T>): (ys: seq<T>)
    ensures forall x :: x in ys <==> x in xs
    ensures forall i, j :: 0 <= i < j < |ys| ==> ys[i] != ys[j]
  {
    if xs == [] then []
    else
      var rest, x := xs[..|xs| - 1], xs[|xs| - 1];
      assert xs == rest + [x];
      if x in rest then FirstOccurrences(rest) else FirstOccurrences(rest) + [x]
  }

  function Concat<T>(parts: seq<seq<T>>): seq<T> {
    if parts == [] then [] else Concat(parts[..|parts| - 1]) + parts[|parts| - 1]
  }

  /** Concatenation keeps the parts in order, and each part as it is. */
  lemma {:induction false} ConcatSits<T>(parts: seq<seq<T>>, i: nat, j: nat)
    requires i < |parts| && j < |parts[i]|
    ensures |Concat(parts[..i])| + j < |Concat(parts)|
    ensures Concat(parts)[|Concat(parts[..i])| + j] == parts[i][j]
  {
    var rest := parts[..|parts| - 1];
    if i < |rest| {
      ConcatSits(rest, i, j);
      assert rest[..i] == parts[..i];
    } else {
      assert rest == parts[..i];
    }
  }
}
