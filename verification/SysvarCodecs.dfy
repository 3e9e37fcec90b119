/** The byte layouts of the sysvars the engine looks into: a Clock of five 64-bit words, and vectors
    of a 64-bit count and fixed-width entries (sysvars.go, bincode). Together they are a codec of
    the kind that coherence asks for. */
module SysvarCodecs {
  import opened Types
  import opened LittleEndian
  import opened Engine

  // ----- vectors of fixed-width entries -----

  function EncodeEntries<E>(l: seq<E>, put: E -> Bytes): Bytes {
    if l == [] then [] else put(l[0]) + EncodeEntries(l[1..], put)
  }

  function DecodeEntries<E>(d: Bytes, n: nat, width: nat, get: Bytes -> E): Option<seq<E>> {
    if n == 0 then Some([])
    else if |d| < width then None
    else
      var rest := DecodeEntries(d[width..], n - 1, width, get);
      if rest.None? then None else Some([get(d[..width])] + rest.value)
  }

  /** A 64-bit count, then the entries. */
  function EncodeVector<E>(l: seq<E>, put: E -> Bytes): Bytes {
    PutLE(|l|, 8) + EncodeEntries(l, put)
  }

  /** Reads the counted entries and ignores what follows them. */
  function DecodeVector<E>(d: Bytes, width: nat, get: Bytes -> E): Option<seq<E>> {
    if |d| < 8 then None else DecodeEntries(d[8..], GetU64(d[..8]), width, get)
  }

  /** Entries have a fixed width and are recovered from their bytes. */
  ghost predicate EntryCodec<E(!new)>(put: E -> Bytes, get: Bytes -> E, width: nat) {
    forall e :: |put(e)| == width && get(put(e)) == e
  }

  lemma {:induction false} EntriesSize<E(!new)>(l: seq<E>, put: E -> Bytes, width: nat)
    requires forall e :: |put(e)| == width
    ensures |EncodeEntries(l, put)| == width * |l|
  {
    if l != [] {
      EntriesSize(l[1..], put, width);
      assert width * |l| == width * (|l| - 1) + width;
    }
  }

  lemma OneEntry<E>(first: Bytes, more: Bytes, l: seq<E>, width: nat, get: Bytes -> E)
    requires |first| == width && DecodeEntries(more, |l|, width, get) == Some(l)
    ensures DecodeEntries(first + more, |l| + 1, width, get) == Some([get(first)] + l)
  {
    assert (first + more)[..width] == first && (first + more)[width..] == more;
  }

  lemma {:induction false} EntriesRoundTrip<E(!new)>(l: seq<E>, tail: Bytes, put: E -> Bytes, get: Bytes -> E, width: nat)
    requires EntryCodec(put, get, width)
    ensures DecodeEntries(EncodeEntries(l, put) + tail, |l|, width, get) == Some(l)
  {
    if l != [] {
      var first, rest := put(l[0]), EncodeEntries(l[1..], put);
      EntriesRoundTrip(l[1..], tail, put, get, width);
      OneEntry(first, rest + tail, l[1..], width, get);
      assert EncodeEntries(l, put) + tail == first + (rest + tail);
      assert l == [l[0]] + l[1..];
    }
  }

  /** Decoding an encoded list gives the list back, whatever follows. */
  lemma VectorRoundTrip<E(!new)>(l: seq<E>, tail: Bytes, put: E -> Bytes, get: Bytes -> E, width: nat)
    requires EntryCodec(put, get, width) && |l| < TWO_64
    ensures |EncodeVector(l, put)| == 8 + width * |l|
    ensures DecodeVector(EncodeVector(l, put) + tail, width, get) == Some(l)
  {
    var entries := EncodeEntries(l, put);
    EntriesSize(l, put, width);
    EntriesRoundTrip(l, tail, put, get, width);
    U64RoundTrip(|l|);
    CutBehind(PutLE(|l|, 8), entries + tail);
    assert EncodeVector(l, put) + tail == PutLE(|l|, 8) + (entries + tail);
  }

  lemma CutBehind(a: Bytes, b: Bytes)
    ensures (a + b)[..|a|] == a && (a + b)[|a|..] == b
  {
  }

  lemma {:induction false} EntriesIgnoreTail<E>(d: Bytes, n: nat, tail: Bytes, width: nat, get: Bytes -> E)
    requires DecodeEntries(d, n, width, get).Some?
    ensures DecodeEntries(d + tail, n, width, get) == DecodeEntries(d, n, width, get)
    decreases n
  {
    if n > 0 {
      EntriesIgnoreTail(d[width..], n - 1, tail, width, get);
      assert (d + tail)[..width] == d[..width] && (d + tail)[width..] == d[width..] + tail;
    }
  }

  lemma VectorIgnoresTail<E>(d: Bytes, tail: Bytes, width: nat, get: Bytes -> E)
    requires DecodeVector(d, width, get).Some?
    ensures DecodeVector(d + tail, width, get) == DecodeVector(d, width, get)
  {
    EntriesIgnoreTail(d[8..], GetU64(d[..8]), tail, width, get);
    assert (d + tail)[..8] == d[..8] && (d + tail)[8..] == d[8..] + tail;
  }

  /** Entry `i` stands behind the count and the entries before it. */
  lemma {:induction false} EntryAt<E(!new)>(l: seq<E>, put: E -> Bytes, width: nat, i: nat)
    requires i < |l| && forall e :: |put(e)| == width
    ensures width * i + width <= |EncodeEntries(l, put)|
    ensures EncodeEntries(l, put)[width * i..width * i + width] == put(l[i])
  {
    EntriesSize(l, put, width);
    var first, rest := put(l[0]), EncodeEntries(l[1..], put);
    if i == 0 {
      assert width * 0 == 0;
      assert (first + rest)[0..width] == first;
    } else {
      EntryAt(l[1..], put, width, i - 1);
      var at := width * (i - 1);
      assert width * i == width + at;
      assert (first + rest)[width + at..width + at + width] == rest[at..at + width];
    }
  }

  // ----- entries -----

  const SLOT_HASH_WIDTH: nat := 40
  const RECENT_WIDTH: nat := 40
  const STAKE_WIDTH: nat := 32

  function PutSlotHash(e: SlotHash): Bytes {
    PutLE(e.key, 8) + e.value
  }

  function GetSlotHash(d: Bytes): SlotHash {
    if |d| == SLOT_HASH_WIDTH then Keyed(GetU64(d[..8]), d[8..]) else Keyed(0, NO_HASH)
  }

  function PutRecent(e: RecentEntry): Bytes {
    e.hash + PutLE(e.lamportsPerSignature, 8)
  }

  function GetRecent(d: Bytes): RecentEntry {
    if |d| == RECENT_WIDTH then RecentEntry(d[..32], GetU64(d[32..])) else RecentEntry(NO_HASH, 0)
  }

  function PutStake(e: Keyed<StakeEntry>): Bytes {
    PutLE(e.key, 8) + PutLE(e.value.effective, 8) + PutLE(e.value.activating, 8) + PutLE(e.value.deactivating, 8)
  }

  function GetStake(d: Bytes): Keyed<StakeEntry> {
    if |d| == STAKE_WIDTH
    then Keyed(GetU64(d[..8]), StakeEntry(GetU64(d[8..16]), GetU64(d[16..24]), GetU64(d[24..])))
    else Keyed(0, StakeEntry(0, 0, 0))
  }

  lemma SlotHashCodec()
    ensures EntryCodec(PutSlotHash, GetSlotHash, SLOT_HASH_WIDTH)
  {
    forall e ensures |PutSlotHash(e)| == SLOT_HASH_WIDTH && GetSlotHash(PutSlotHash(e)) == e {
      U64RoundTrip(e.key);
      assert PutSlotHash(e)[..8] == PutLE(e.key, 8) && PutSlotHash(e)[8..] == e.value;
    }
  }

  lemma RecentCodec()
    ensures EntryCodec(PutRecent, GetRecent, RECENT_WIDTH)
  {
    forall e ensures |PutRecent(e)| == RECENT_WIDTH && GetRecent(PutRecent(e)) == e {
      U64RoundTrip(e.lamportsPerSignature);
      assert PutRecent(e)[..32] == e.hash && PutRecent(e)[32..] == PutLE(e.lamportsPerSignature, 8);
    }
  }

  lemma StakeCodec()
    ensures EntryCodec(PutStake, GetStake, STAKE_WIDTH)
  {
    forall e ensures |PutStake(e)| == STAKE_WIDTH && GetStake(PutStake(e)) == e {
      StakeRoundTrip(e);
    }
  }

  lemma StakeRoundTrip(e: Keyed<StakeEntry>)
    ensures |PutStake(e)| == STAKE_WIDTH && GetStake(PutStake(e)) == e
  {
    U64RoundTrip(e.key);
    U64RoundTrip(e.value.effective);
    U64RoundTrip(e.value.activating);
    U64RoundTrip(e.value.deactivating);
    FourWords(PutLE(e.key, 8), PutLE(e.value.effective, 8), PutLE(e.value.activating, 8), PutLE(e.value.deactivating, 8));
  }

  lemma FourWords(a: Bytes, b: Bytes, c: Bytes, d: Bytes)
    requires |a| == |b| == |c| == |d| == 8
    ensures var w := a + b + c + d; w[..8] == a && w[8..16] == b && w[16..24] == c && w[24..] == d
  {
  }

  // ----- the Clock -----

  const CLOCK_SIZE: nat := 40

  function PutClock(c: Clock): Bytes {
    PutLE(c.slot, 8) + PutI64(c.epochStart) + PutLE(c.epoch, 8) + PutLE(c.leaderEpoch, 8) + PutI64(c.unixTime)
  }

  function GetClock(d: Bytes): Clock
    requires |d| >= CLOCK_SIZE
  {
    Clock(GetU64(d[..8]), GetI64(d[8..16]), GetU64(d[16..24]), GetU64(d[24..32]), GetI64(d[32..40]))
  }

  lemma ClockRoundTrip(c: Clock)
    ensures |PutClock(c)| == CLOCK_SIZE && GetClock(PutClock(c)) == c
  {
    U64RoundTrip(c.slot);
    I64RoundTrip(c.epochStart);
    U64RoundTrip(c.epoch);
    U64RoundTrip(c.leaderEpoch);
    I64RoundTrip(c.unixTime);
    FiveWords(PutLE(c.slot, 8), PutI64(c.epochStart), PutLE(c.epoch, 8), PutLE(c.leaderEpoch, 8), PutI64(c.unixTime));
  }

  lemma FiveWords(a: Bytes, b: Bytes, c: Bytes, d: Bytes, e: Bytes)
    requires |a| == |b| == |c| == |d| == |e| == 8
    ensures var w := a + b + c + d + e;
            w[..8] == a && w[8..16] == b && w[16..24] == c && w[24..32] == d && w[32..40] == e
  {
  }

  lemma ClockIgnoresTail(d: Bytes, tail: Bytes)
    requires |d| >= CLOCK_SIZE
    ensures GetClock(d + tail) == GetClock(d)
  {
    var e := d + tail;
    assert e[..8] == d[..8] && e[8..16] == d[8..16] && e[16..24] == d[16..24] && e[24..32] == d[24..32] && e[32..40] == d[32..40];
  }

  // ----- all sysvars -----

  /** The size of the sysvars whose content the engine does not look into. */
  function OpaqueSize(x: Sysvar): nat {
    match x
    case RentVar => 17
    case EpochScheduleVar => 33
    case EpochRewardsVar => 81
    case LastRestartSlotVar => 8
    case SlotHistoryVar => 1 + 8 + 1024 * 1024 / 8 + 8 + 8
    case FeesVar => 8
    case _ => 0
  }

  function Mapped<A, B>(o: Option<A>, f: A -> B): Option<B> {
    if o.Some? then Some(f(o.value)) else None
  }

  function DecodeSysvar(x: Sysvar, d: Bytes): Option<SysvarValue> {
    match x
    case ClockVar => if |d| < CLOCK_SIZE then None else Some(ClockValue(GetClock(d)))
    case RecentBlockhashesVar => Mapped(DecodeVector(d, RECENT_WIDTH, GetRecent), q => RecentValue(q))
    case SlotHashesVar => Mapped(DecodeVector(d, SLOT_HASH_WIDTH, GetSlotHash), l => SlotHashesValue(l))
    case StakeHistoryVar => Mapped(DecodeVector(d, STAKE_WIDTH, GetStake), l => StakeHistoryValue(l))
    case _ => if |d| < OpaqueSize(x) then None else Some(OpaqueValue(d[..OpaqueSize(x)]))
  }

  function EncodeSysvar(v: SysvarValue): Bytes {
    match v
    case ClockValue(c) => PutClock(c)
    case RecentValue(q) => EncodeVector(q, PutRecent)
    case SlotHashesValue(l) => EncodeVector(l, PutSlotHash)
    case StakeHistoryValue(l) => EncodeVector(l, PutStake)
    case OpaqueValue(content) => content
  }

  /** Encodings decode to what was encoded, whatever follows them. */
  lemma SysvarRoundTrip(x: Sysvar, v: SysvarValue, tail: Bytes)
    requires Encodable(x, v)
    ensures DecodeSysvar(x, EncodeSysvar(v) + tail) == Some(v)
  {
    match v
    case ClockValue(c) =>
      ClockRoundTrip(c);
      ClockIgnoresTail(PutClock(c), tail);
    case RecentValue(q) => RecentCodec(); VectorRoundTrip(q, tail, PutRecent, GetRecent, RECENT_WIDTH);
    case SlotHashesValue(l) => SlotHashCodec(); VectorRoundTrip(l, tail, PutSlotHash, GetSlotHash, SLOT_HASH_WIDTH);
    case StakeHistoryValue(l) => StakeCodec(); VectorRoundTrip(l, tail, PutStake, GetStake, STAKE_WIDTH);
  }

  /** Padding does not change what sysvar bytes decode to. */
  lemma SysvarIgnoresPadding(x: Sysvar, d: Bytes)
    requires DecodeSysvar(x, d).Some?
    ensures DecodeSysvar(x, Padded(x, d)) == DecodeSysvar(x, d)
  {
    if |d| < FixedSize(x) {
      var z := Zeros(FixedSize(x) - |d|);
      if x.SlotHashesVar? {
        VectorIgnoresTail(d, z, SLOT_HASH_WIDTH, GetSlotHash);
      } else {
        VectorIgnoresTail(d, z, STAKE_WIDTH, GetStake);
      }
    }
  }

  /** The library codes sysvars this way; its defaults have the right size, and the default Fees
      are zero. */
  ghost predicate UsesCodecs(lib: Library) {
    && (forall x, d :: lib.decodeSysvar(x, d) == DecodeSysvar(x, d))
    && (forall x, v :: lib.encodeSysvar(x, v) == EncodeSysvar(v))
    && (forall x :: IsOpaque(x) ==> |lib.defaultSysvar(x)| == OpaqueSize(x))
    && lib.feesLength == OpaqueSize(FeesVar)
    && lib.defaultSysvar(FeesVar) == Zeros(OpaqueSize(FeesVar))
  }

  /** Such a library meets the codec law that sysvar coherence rests on. */
  lemma CodecsAreLawful(lib: Library)
    requires UsesCodecs(lib)
    ensures LawfulCodec(lib)
  {
    forall x, v | Encodable(x, v) ensures lib.decodeSysvar(x, lib.encodeSysvar(x, v)) == Some(v) {
      SysvarRoundTrip(x, v, []);
      assert EncodeSysvar(v) + [] == EncodeSysvar(v);
    }
    forall x | IsOpaque(x)
      ensures DecodeSysvar(x, lib.defaultSysvar(x)) == Some(OpaqueValue(lib.defaultSysvar(x)))
    {
      var d := lib.defaultSysvar(x);
      assert d[..OpaqueSize(x)] == d;
    }
    forall x, d | lib.decodeSysvar(x, d).Some? ensures lib.decodeSysvar(x, Padded(x, d)) == lib.decodeSysvar(x, d) {
      SysvarIgnoresPadding(x, d);
    }
    DecodesToKind(lib);
    var z := Zeros(lib.feesLength);
    assert z[..OpaqueSize(FeesVar)] == z;
  }

  lemma DecodesToKind(lib: Library)
    requires UsesCodecs(lib)
    ensures KindLaw(lib)
  {
  }

  // ----- layouts -----

  /** `n` entries of one width behind a 64-bit count, the one at `i` as given. */
  predicate LaidOut(d: Bytes, n: nat, width: nat, i: nat, entry: Bytes) {
    var at := 8 + width * i;
    |d| == 8 + width * n && at + width <= |d| && d[..8] == PutLE(n, 8) && d[at..at + width] == entry
  }

  lemma VectorLayout<E(!new)>(l: seq<E>, put: E -> Bytes, width: nat, i: nat, entry: Bytes)
    requires i < |l| && put(l[i]) == entry && forall e :: |put(e)| == width
    ensures LaidOut(EncodeVector(l, put), |l|, width, i, entry)
  {
    EntriesSize(l, put, width);
    EntryAt(l, put, width, i);
    LaidBehind(PutLE(|l|, 8), EncodeEntries(l, put), |l|, width * |l|, width, i, width * i, entry);
  }

  lemma LaidBehind(count: Bytes, entries: Bytes, n: nat, size: nat, width: nat, i: nat, at: nat, entry: Bytes)
    requires count == PutLE(n, 8) && size == width * n && |entries| == size
    requires at == width * i && at + width <= size && entries[at..at + width] == entry
    ensures LaidOut(count + entries, n, width, i, entry)
  {
    var d := count + entries;
    assert d[8 + at..8 + at + width] == entries[at..at + width];
  }

  /** SlotHashes: per entry the 64-bit slot and the 32-byte hash. */
  lemma SlotHashesLayout(l: seq<SlotHash>, i: nat)
    requires i < |l|
    ensures LaidOut(EncodeSysvar(SlotHashesValue(l)), |l|, 40, i, PutLE(l[i].key, 8) + l[i].value)
  {
    SlotHashCodec();
    VectorLayout(l, PutSlotHash, 40, i, PutLE(l[i].key, 8) + l[i].value);
  }

  /** RecentBlockhashes: per entry the 32-byte hash and the 64-bit fee. */
  lemma RecentLayout(q: seq<RecentEntry>, i: nat)
    requires i < |q|
    ensures LaidOut(EncodeSysvar(RecentValue(q)), |q|, 40, i, q[i].hash + PutLE(q[i].lamportsPerSignature, 8))
  {
    RecentCodec();
    VectorLayout(q, PutRecent, 40, i, q[i].hash + PutLE(q[i].lamportsPerSignature, 8));
  }

  /** StakeHistory: per entry the epoch and its effective, activating and deactivating stake, 64 bits
      each. */
  lemma StakeHistoryLayout(l: seq<Keyed<StakeEntry>>, i: nat)
    requires i < |l|
    ensures var v := l[i].value;
            LaidOut(EncodeSysvar(StakeHistoryValue(l)), |l|, 32, i,
                    PutLE(l[i].key, 8) + PutLE(v.effective, 8) + PutLE(v.activating, 8) + PutLE(v.deactivating, 8))
  {
    StakeCodec();
    var v := l[i].value;
    VectorLayout(l, PutStake, 32, i,
                 PutLE(l[i].key, 8) + PutLE(v.effective, 8) + PutLE(v.activating, 8) + PutLE(v.deactivating, 8));
  }
}
