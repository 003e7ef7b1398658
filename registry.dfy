/**
 * The packet registry (`packets.json`): for each direction, an ordered
 * table from packet name to descriptor. The table is a parameter of the
 * model. Its entries are in the order the source's `for ... in` loop
 * visits the keys: the order of the JSON object when no name looks like
 * an array index ("0", "12"); JavaScript visits such names first, in
 * ascending numeric order, and a table for such a registry lists them
 * that way.
 */
module Registry {
  import opened Wrappers
  import opened Int32

  /** The two top-level keys of the registry. */
  datatype Direction = ServerBound | ClientBound

  /** The field types a descriptor's `Fields` list may name. A name the
      `switch` statements recognise is always one of the first four
      constructors; `OtherField` stands for every other name (see
      `WellNamed`). */
  datatype FieldType =
    | VarIntField          // "VarInt"
    | StringField          // "String"
    | UnsignedShortField   // "Unsigned Short"
    | LongField            // "Long"
    | OtherField(name: string)

  /** The type a `Fields` string denotes. */
  function TypeOf(name: string): (t: FieldType)
    ensures t == VarIntField <==> name == "VarInt"
    ensures t == StringField <==> name == "String"
    ensures t == UnsignedShortField <==> name == "Unsigned Short"
    ensures t == LongField <==> name == "Long"
    ensures t.OtherField? <==> name !in {"VarInt", "String", "Unsigned Short", "Long"}
    ensures t.OtherField? ==> t.name == name
  {
    if name == "VarInt" then VarIntField
    else if name == "String" then StringField
    else if name == "Unsigned Short" then UnsignedShortField
    else if name == "Long" then LongField
    else OtherField(name)
  }

  /** A field type as `TypeOf` produces it: no `OtherField` carries a name
      the `switch` statements recognise. */
  predicate WellNamed(t: FieldType)
  {
    t.OtherField? ==> t.name !in {"VarInt", "String", "Unsigned Short", "Long"}
  }

  /** Every field type read from a `Fields` string is well named. */
  lemma TypeOfWellNamed(name: string)
    ensures WellNamed(TypeOf(name))
  {
  }

  /** One descriptor: `ID`, `State`, `Fields` and, optionally,
      `HandlerID`. Its `fields` are the `Fields` strings as `TypeOf` maps
      them, so each is `WellNamed`: a recognised name is never an
      `OtherField`. */
  datatype Descriptor = Descriptor(id: int, state: string, fields: seq<FieldType>, handlerId: Option<int>)

  /** A named descriptor: one key of a direction's object. */
  datatype Entry = Entry(name: string, desc: Descriptor)

  datatype Registry = Registry(serverBound: seq<Entry>, clientBound: seq<Entry>)

  function Table(reg: Registry, dir: Direction): seq<Entry>
  {
    match dir
    case ServerBound => reg.serverBound
    case ClientBound => reg.clientBound
  }

  /** The test of line 27: the descriptor's `ID` equals the decoded packet
      id (a signed 32-bit number) and its `State` equals the state. */
  predicate Matches(e: Entry, packetId: bv32, state: string)
  {
    e.desc.id == ToInt32(packetId) && e.desc.state == state
  }

  /** The index of the entry `readPacketData` settles on: the loop has no
      `break`, so the last matching entry wins. */
  function LastMatch(table: seq<Entry>, packetId: bv32, state: string): (r: Option<nat>)
    ensures r.Some? ==> r.value < |table| && Matches(table[r.value], packetId, state)
    ensures r.Some? ==> forall j :: r.value < j < |table| ==> !Matches(table[j], packetId, state)
    ensures r.None? ==> forall j :: 0 <= j < |table| ==> !Matches(table[j], packetId, state)
  {
    if |table| == 0 then None
    else if Matches(table[|table| - 1], packetId, state) then Some(|table| - 1)
    else LastMatch(table[..|table| - 1], packetId, state)
  }

  /** The handler id of a descriptor: its `HandlerID`, or -1 without one. */
  function HandlerOf(d: Descriptor): int
  {
    match d.handlerId
    case Some(h) => h
    case None => -1
  }

  /** `packets[dir][name]`: the descriptor stored under a name. */
  function FindByName(table: seq<Entry>, name: string): (r: Option<nat>)
    ensures r.Some? ==> r.value < |table| && table[r.value].name == name
    ensures r.None? ==> forall j :: 0 <= j < |table| ==> table[j].name != name
  {
    if |table| == 0 then None
    else if table[|table| - 1].name == name then Some(|table| - 1)
    else FindByName(table[..|table| - 1], name)
  }

  /** The keys of a JSON object are distinct. */
  predicate DistinctNames(table: seq<Entry>)
  {
    forall i, j :: 0 <= i < j < |table| ==> table[i].name != table[j].name
  }

  /** No two descriptors of a direction share an `ID` and a `State`. */
  predicate DistinctKeys(table: seq<Entry>)
  {
    forall i, j :: 0 <= i < j < |table| ==>
      table[i].desc.id != table[j].desc.id || table[i].desc.state != table[j].desc.state
  }

  /** When no two descriptors share an id and a state, the lookup by id and
      state finds the very entry whose id and state were asked for. */
  lemma {:induction false} LookupFindsEntry(table: seq<Entry>, k: nat, packetId: bv32)
    requires DistinctKeys(table)
    requires k < |table|
    requires ToInt32(packetId) == table[k].desc.id
    ensures LastMatch(table, packetId, table[k].desc.state) == Some(k)
  {
    assert Matches(table[k], packetId, table[k].desc.state);
  }

  /** With distinct names, the lookup by name finds the entry of that
      name, wherever it is. */
  lemma {:induction false} FindByNameFindsEntry(table: seq<Entry>, k: nat)
    requires DistinctNames(table)
    requires k < |table|
    ensures FindByName(table, table[k].name) == Some(k)
  {
  }
}
