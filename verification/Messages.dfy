/** Compiled messages: the role each account key plays, what an instruction means once its
    indexes are resolved, and the instruction handed to the age check (tx.go). */
module Messages {
  import opened Types

  datatype Header = Header(required: u8, readonlySigned: u8, readonlyUnsigned: u8)

  datatype Compiled = Compiled(program: u16, accounts: seq<u16>, data: Bytes)

  datatype Lookup = Lookup(table: Key, writable: seq<u8>, readonly: seq<u8>)

  /** A message; once `resolved`, `keys` ends with the addresses loaded through `lookups`. */
  datatype Message = Message(
    versioned: bool,
    resolved: bool,
    keys: seq<Key>,
    header: Header,
    recent: Hash,
    instructions: seq<Compiled>,
    lookups: seq<Lookup>)

  datatype Transaction = Transaction(signatures: seq<Signature>, message: Message)

  /** The number of addresses the lookups load. */
  function NumLookups(ls: seq<Lookup>): nat {
    if ls == [] then 0 else |ls[0].writable| + |ls[0].readonly| + NumLookups(ls[1..])
  }

  function NumWritableLookups(ls: seq<Lookup>): nat {
    if ls == [] then 0 else |ls[0].writable| + NumWritableLookups(ls[1..])
  }

  function NumReadonlyLookups(ls: seq<Lookup>): nat {
    if ls == [] then 0 else |ls[0].readonly| + NumReadonlyLookups(ls[1..])
  }

  lemma {:induction false} LookupsAreCounted(ls: seq<Lookup>)
    ensures NumLookups(ls) == NumWritableLookups(ls) + NumReadonlyLookups(ls)
  {
    if ls != [] {
      LookupsAreCounted(ls[1..]);
    }
  }

  lemma {:induction false} LookupsSnoc(ls: seq<Lookup>, l: Lookup)
    ensures NumWritableLookups(ls + [l]) == NumWritableLookups(ls) + |l.writable|
    ensures NumReadonlyLookups(ls + [l]) == NumReadonlyLookups(ls) + |l.readonly|
  {
    if ls == [] {
      assert [] + [l] == [l];
    } else {
      LookupsSnoc(ls[1..], l);
      assert (ls + [l])[1..] == ls[1..] + [l];
    }
  }

  function NumStatic(m: Message): int {
    if m.resolved then |m.keys| - NumLookups(m.lookups) else |m.keys|
  }

  predicate IsSigner(m: Message, i: nat) {
    i < m.header.required
  }

  /** Signed keys come first, each group ends with its readonly keys, and loaded addresses
      follow the static keys, writable ones first. */
  predicate IsWritable(m: Message, i: nat) {
    if i >= NumStatic(m) then i - NumStatic(m) < NumWritableLookups(m.lookups)
    else if i < m.header.required then i < m.header.required - m.header.readonlySigned
    else i < NumStatic(m) - m.header.readonlyUnsigned
  }

  /** The header counts roles from both ends: the first `required` static keys sign, of these the last
      `readonlySigned` are readonly, and so are the last `readonlyUnsigned` static keys. */
  lemma RolesFollowHeader(m: Message, i: nat)
    requires i < NumStatic(m)
    requires m.header.readonlySigned <= m.header.required
    requires m.header.required + m.header.readonlyUnsigned <= NumStatic(m)
    ensures IsSigner(m, i) <==> i < m.header.required
    ensures !IsWritable(m, i) <==>
            || m.header.required - m.header.readonlySigned <= i < m.header.required
            || NumStatic(m) - m.header.readonlyUnsigned <= i
  {
  }

  datatype Meta = Meta(key: Key, signer: bool, writable: bool)

  /** An instruction with every index replaced by the key it denotes and that key's role. */
  datatype Instruction = Instruction(program: Key, accounts: seq<Meta>, data: Bytes)

  function MetaAt(m: Message, i: nat): Meta
    requires i < |m.keys|
  {
    Meta(m.keys[i], IsSigner(m, i), IsWritable(m, i))
  }

  predicate InRange(m: Message, ci: Compiled) {
    ci.program < |m.keys| && forall j :: 0 <= j < |ci.accounts| ==> ci.accounts[j] < |m.keys|
  }

  /** What a compiled instruction means; nothing when one of its indexes is out of range. */
  function Meaning(m: Message, ci: Compiled): Option<Instruction> {
    if InRange(m, ci) then
      Some(Instruction(
        m.keys[ci.program],
        seq(|ci.accounts|, j requires 0 <= j < |ci.accounts| => MetaAt(m, ci.accounts[j])),
        ci.data))
    else None
  }

  /** The instruction that decides the durable-nonce rules of the age check. */
  function FirstInstruction(m: Message): Option<Instruction> {
    if m.instructions == [] then None else Meaning(m, m.instructions[0])
  }

  /** Builds the leading instruction account by account, giving up at the first index that
      denotes no key (tx.go, `firstInstrForAgeCheck`). */
  method FirstInstrForAgeCheck(m: Message) returns (r: seq<Instruction>)
    ensures r == match FirstInstruction(m) case None => [] case Some(ins) => [ins]
  {
    if |m.instructions| == 0 {
      return [];
    }
    var ci := m.instructions[0];
    if ci.program >= |m.keys| {
      return [];
    }
    var accts: seq<Meta> := [];
    for i := 0 to |ci.accounts|
      invariant |accts| == i
      invariant forall j :: 0 <= j < i ==> ci.accounts[j] < |m.keys| && accts[j] == MetaAt(m, ci.accounts[j])
    {
      var idx := ci.accounts[i];
      if idx >= |m.keys| {
        return [];
      }
      accts := accts + [MetaAt(m, idx)];
    }
    assert InRange(m, ci);
    assert accts == Meaning(m, ci).value.accounts;
    r := [Instruction(m.keys[ci.program], accts, ci.data)];
  }

  /** A transaction's message while the engine edits it. */
  class MessageCell {
    var keys: seq<Key>
    var header: Header
    var instructions: seq<Compiled>
    var resolved: bool
    const versioned: bool
    const recent: Hash
    const lookups: seq<Lookup>

    function Value(): Message
      reads this
    {
      Message(versioned, resolved, keys, header, recent, instructions, lookups)
    }

    constructor (m: Message)
      ensures Value() == m
    {
      keys, header, instructions, resolved := m.keys, m.header, m.instructions, m.resolved;
      versioned, recent, lookups := m.versioned, m.recent, m.lookups;
    }
  }
}
