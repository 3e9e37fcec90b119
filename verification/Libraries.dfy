/** A library that meets every law the theorems ask for, with the sysvar byte layouts of
    `SysvarCodecs`, and an instance on it that a warp takes from a resolving lookup to a failing
    one. */
module Libraries {
  import opened Types
  import opened LittleEndian
  import opened Messages
  import opened Engine
  import opened Sysvars
  import opened SysvarCodecs
  import opened Programs
  import opened Lookups
  import opened Pipeline
  import opened Steps
  import opened SysvarRuns

  /** Every lookup-table account decodes to the given table; addresses are 256-bit numbers. */
  function PlainLibrary(table: Table): Library {
    Library(
      tx => true,
      bytes => NO_HASH,
      DecodeSysvar,
      (x, v) => EncodeSysvar(v),
      x => Zeros(OpaqueSize(x)),
      OpaqueSize(FeesVar),
      (rent, size) => 1,
      (ins, h, store) => false,
      (store, q, tx, ins) => store,
      bytes => Some(table),
      (meta, slot, hashes) => false,
      id => Some(Other(0)),
      AddressBytes,
      AddressOf,
      elf => elf != [])
  }

  function AddressBytes(k: Key): Bytes {
    if k.Other? then PutLE(k.id, 32) else Zeros(32)
  }

  function AddressOf(bs: Bytes): Option<Key> {
    if |bs| == 32 then Some(Other(GetLE(bs))) else None
  }

  /** The laws can be met together. */
  lemma PlainLibraryIsLawful(table: Table)
    ensures var lib := PlainLibrary(table); LawfulCodec(lib) && LawfulNonce(lib) && NonceSparesSysvars(lib)
  {
    CodecsAreLawful(PlainLibrary(table));
  }

  /** Every 256-bit address is recovered from its bytes, the derived programdata address among them. */
  lemma AddressesAreRecoverable(table: Table, n: nat)
    requires Fits(n, 32)
    ensures Recoverable(PlainLibrary(table), Other(n))
  {
    LittleEndianRoundTrip(n, 32);
  }

  // ----- a warp that hides an address -----

  /** A table whose only address was appended at slot 5. */
  const EXTENDED_AT_5: Table := Table(TableMeta(5, 0, TWO_64 - 1), [Other(1)])

  const TABLE_ID: Key := Other(7)

  const FRESH: Origin := Origin(map[TABLE_ID := Account(1, [], LookupTableProgram, false, 0)], [], Other(8))

  const READS_TABLE: Message :=
    Message(true, false, [Other(9)], Header(1, 0, 0), NO_HASH, [], [Lookup(TABLE_ID, [0], [])])

  lemma FreshTable()
    ensures var lib := PlainLibrary(EXTENDED_AT_5); var s := Genesis(lib, FRESH);
            ClockAgrees(s) && s.slot == 0 && TABLE_ID in s.store && s.store[TABLE_ID].owner == LookupTableProgram
  {
    GenesisClock(PlainLibrary(EXTENDED_AT_5), FRESH);
  }

  lemma ReadsTable(lib: Library, s: State)
    requires TABLE_ID in s.store && s.store[TABLE_ID].owner == LookupTableProgram && CurrentSlot(s) != 5
    requires lib.decodeTable(s.store[TABLE_ID].data) == Some(EXTENDED_AT_5)
    requires forall meta, slot, hashes :: !lib.deactivated(meta, slot, hashes)
    ensures Resolve(lib, s, READS_TABLE).Ok?
    ensures !Survives(lib, s, READS_TABLE.lookups[0], 5) && StaysUsable(lib, s, READS_TABLE.lookups[0], 5)
  {
    var l := READS_TABLE.lookups[0];
    assert InVisible(lib, s, l);
    assert NumLookups(READS_TABLE.lookups) == 1;
    ResolveSucceedsExactly(lib, s, READS_TABLE);
    assert !StaysVisible(EXTENDED_AT_5, l, 5) by {
      assert l.writable[0] >= EXTENDED_AT_5.meta.startIndex;
    }
  }

  lemma HiddenAt5(lib: Library, s: State)
    requires TABLE_ID in s.store && s.store[TABLE_ID].owner == LookupTableProgram && CurrentSlot(s) != 5
    requires lib.decodeTable(s.store[TABLE_ID].data) == Some(EXTENDED_AT_5)
    requires forall meta, slot, hashes :: !lib.deactivated(meta, slot, hashes)
    ensures Resolve(lib, s, READS_TABLE).Ok?
    ensures Resolve(lib, WarpToSlot(lib, s, 5), READS_TABLE) == Err(InvalidAddressLookupTableIndex)
  {
    ReadsTable(lib, s);
    WarpKeepsResolutionExactly(lib, s, READS_TABLE, 5);
    WarpedTable(lib, s, READS_TABLE.lookups[0], 5);
    assert Usable(lib, WarpToSlot(lib, s, 5), READS_TABLE.lookups[0].table);
  }

  /** On a fresh instance a message reads the table; warped forward to slot 5, the same message
      fails with an index error. */
  lemma WarpHidesAddress()
    ensures var lib := PlainLibrary(EXTENDED_AT_5);
            var s := Genesis(lib, FRESH);
            && Resolve(lib, s, READS_TABLE).Ok?
            && Resolve(lib, WarpToSlot(lib, s, 5), READS_TABLE) == Err(InvalidAddressLookupTableIndex)
  {
    FreshTable();
    HiddenAt5(PlainLibrary(EXTENDED_AT_5), Genesis(PlainLibrary(EXTENDED_AT_5), FRESH));
  }
}
