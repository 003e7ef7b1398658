/**
 * `Packet` (index.js:6-74): a received frame, parsed in place. `parse`
 * reads the length prefix and the packet id, cuts the payload,
 * `readPacketData` looks the id up in the registry and `getPacketFeilds`
 * decodes the fields the descriptor lists.
 */
module Packet {
  import opened Wrappers
  import opened Int32
  import opened VarInt
  import opened Registry
  import opened Fields
  import ServerString

  /** The part of a packet that parsing changes. `None` stands for a
      property JavaScript leaves `undefined`; `packetId` and `data` are 0
      and empty before `parse` sets them. */
  datatype PacketState = PacketState(
    error: bool,
    name: Option<string>,
    handlerId: Option<int>,
    packetId: bv32,
    data: seq<bv8>,
    fields: seq<FieldValue>)

  /** The state the constructor leaves. */
  const Initial := PacketState(false, None, None, 0, [], [])

  /** A state after a step, and whether the step threw. */
  datatype After = After(raised: bool, packet: PacketState)

  /** The two VarInts at the head of a frame: the length prefix and the
      packet id right after it. */
  datatype Header = Header(length: Read<bv32>, id: Read<bv32>)

  function HeaderOf(buffer: seq<bv8>): (h: Header)
    ensures 0 < h.length.next < h.id.next
  {
    var length := ReadVarInt(buffer, 0);
    Header(length, ReadVarInt(buffer, length.next))
  }

  /** `dataLength + 1`, the size of the buffer line 19 allocates: the
      length prefix, less twice the prefix's size, plus the end of the id. */
  function AllocSize(h: Header): int
  {
    ToInt32(h.length.value) - h.length.next * 2 + h.id.next + 1
  }

  /** The payload `buffer.copy` leaves in a fresh zero-filled buffer of
      `size` bytes: the bytes from `start` on, and zeros past the end of the
      source. */
  function Window(buffer: seq<bv8>, start: int, size: nat): (w: seq<bv8>)
    ensures |w| == size
    ensures 0 <= start && start + size <= |buffer| ==> w == buffer[start..start + size]
    ensures 0 <= start <= |buffer| <= start + size ==> w[..|buffer| - start] == buffer[start..]
    ensures forall k :: 0 <= k < size && start + k >= |buffer| ==> w[k] == 0
  {
    var w := seq(size, k => ByteAt(buffer, start + k));
    assert forall k :: 0 <= k < size ==> w[k] == ByteAt(buffer, start + k);
    assert 0 <= start <= |buffer| <= start + size ==> w[..|buffer| - start] == buffer[start..];
    w
  }

  /** A name JavaScript treats as true: present and not empty. */
  predicate Named(name: Option<string>)
  {
    name.Some? && name.value != ""
  }

  /** The descriptor loop of `readPacketData` over the entries `table`:
      every matching entry overwrites the name and the handler id. */
  function Resolve(table: seq<Entry>, s: PacketState, state: string): PacketState
  {
    match LastMatch(table, s.packetId, state)
    case None => s
    case Some(m) => s.(name := Some(table[m].name), handlerId := Some(HandlerOf(table[m].desc)))
  }

  /** `readPacketData` from state `s`: an unnamed packet is an error; a
      named one has the fields of the descriptor stored under its name
      decoded from its data. */
  function ReadSpec(table: seq<Entry>, s: PacketState, state: string): After
  {
    var r := Resolve(table, s, state);
    if !Named(r.name) then After(false, r.(error := true))
    else match FindByName(table, r.name.value)
      case None => After(true, r)
      case Some(k) =>
        var d := DecodeFields(r.data, table[k].desc.fields, 0);
        After(d.raised, r.(fields := d.values))
  }

  /** `buffer.copy` refuses a source start past the end of the source when
      it has anything to copy: the id ends beyond the buffer and the window
      is not empty. */
  predicate CopyRefused(buffer: seq<bv8>, start: int, size: int)
  {
    size > 0 && start > |buffer|
  }

  /** `parse` from state `s`: a negative allocation size throws, and so
      does a copy from past the end of the buffer; otherwise the payload
      window and the packet id are stored and the lookup runs. */
  function ParseSpec(table: seq<Entry>, buffer: seq<bv8>, state: string, s: PacketState): After
  {
    var h := HeaderOf(buffer);
    var size := AllocSize(h);
    if size < 0 || CopyRefused(buffer, h.id.next, size) then After(true, s)
    else ReadSpec(table, s.(data := Window(buffer, h.id.next, size), packetId := h.id.value), state)
  }

  /** What the lookup promises. With no descriptor whose id and state
      match, the name stays unset, the packet is an error and no field is
      decoded. Otherwise the last matching descriptor names the packet and
      gives its handler id, -1 when it has no `HandlerID`. A packet is only
      free of error when it has a non-empty name. */
  lemma LookupOutcome(table: seq<Entry>, s: PacketState, state: string)
    requires s.name.None?
    ensures var r := ReadSpec(table, s, state);
            && ((forall j :: 0 <= j < |table| ==> !Matches(table[j], s.packetId, state)) ==>
                  r.packet.name.None? && r.packet.error && !r.raised && r.packet.fields == s.fields)
            && (forall j ::
                  (0 <= j < |table| && Matches(table[j], s.packetId, state)
                   && (forall i :: j < i < |table| ==> !Matches(table[i], s.packetId, state))) ==>
                  && r.packet.name == Some(table[j].name)
                  && (table[j].desc.handlerId.None? ==> r.packet.handlerId == Some(-1))
                  && (table[j].desc.handlerId.Some? ==> r.packet.handlerId == table[j].desc.handlerId))
            && (!r.packet.error ==> !s.error && Named(r.packet.name))
  {
    var m := LastMatch(table, s.packetId, state);
    if m.Some? {
      forall j | 0 <= j < |table| && Matches(table[j], s.packetId, state)
                 && (forall i :: j < i < |table| ==> !Matches(table[i], s.packetId, state))
        ensures j == m.value
      {
      }
    }
  }

  /** A chunk that ends before its id does throws in the copy: the single
      byte 0 declares an empty packet, its id is read past the end at
      index 1, and the window of one byte would be copied from index 2. */
  lemma TruncatedChunkThrows(table: seq<Entry>, state: string, s: PacketState)
    ensures HeaderOf([0x00]) == Header(Read(0, 1), Read(0, 2))
    ensures AllocSize(HeaderOf([0x00])) == 1
    ensures ParseSpec(table, [0x00], state, s) == After(true, s)
  {
    assert Size([0x00], 0) == 1;
    assert Size([0x00], 1) == 1;
  }

  /** The descriptor loop, one entry further. */
  lemma ResolveStep(table: seq<Entry>, k: nat, s: PacketState, state: string)
    requires k < |table|
    ensures Resolve(table[..k + 1], s, state)
         == if Matches(table[k], s.packetId, state)
            then s.(name := Some(table[k].name), handlerId := Some(HandlerOf(table[k].desc)))
            else Resolve(table[..k], s, state)
  {
    assert table[..k + 1][..k] == table[..k];
  }

  /** `parse` once the allocation and the copy succeed. */
  lemma ParseProceeds(table: seq<Entry>, buffer: seq<bv8>, state: string, s: PacketState, size: nat)
    requires size == AllocSize(HeaderOf(buffer))
    requires !CopyRefused(buffer, HeaderOf(buffer).id.next, size)
    ensures ParseSpec(table, buffer, state, s)
         == ReadSpec(table, s.(data := Window(buffer, HeaderOf(buffer).id.next, size), packetId := HeaderOf(buffer).id.value), state)
  {
  }

  /** A walk result with values already pushed in front of it. */
  function Prefixed(pushed: seq<FieldValue>, d: Decoded): Decoded
  {
    Decoded(pushed + d.values, d.cursor, d.raised)
  }

  /** One turn of the field walk, seen from the schema position `k`. */
  lemma DecodeFieldsAt(data: seq<bv8>, schema: seq<FieldType>, k: nat, at: int)
    requires k < |schema|
    ensures DecodeFields(data, schema[k..], at)
         == match Step(data, schema[k], at)
            case Threw => Decoded([], at, true)
            case Skipped => DecodeFields(data, schema[k + 1..], at)
            case Pushed(v, next) => Prefixed([v], DecodeFields(data, schema[k + 1..], next))
  {
    assert schema[k..][0] == schema[k];
    assert schema[k..][1..] == schema[k + 1..];
  }

  class Packet {
    const buffer: seq<bv8>
    const boundTo: Direction
    const state: string
    var error: bool
    var name: Option<string>
    var handlerId: Option<int>
    var packetId: bv32
    var data: seq<bv8>
    var fields: seq<FieldValue>

    function Snapshot(): PacketState
      reads this
    {
      PacketState(error, name, handlerId, packetId, data, fields)
    }

    constructor(buffer: seq<bv8>, boundTo: Direction, state: string)
      ensures this.buffer == buffer && this.boundTo == boundTo && this.state == state
      ensures Snapshot() == Initial
    {
      this.buffer := buffer;
      this.boundTo := boundTo;
      this.state := state;
      error := false;
      name := None;
      handlerId := None;
      packetId := 0;
      data := [];
      fields := [];
    }

    /** `parse`: the length prefix, then the id right after it; the payload
        window is cut from the end of the id, and the lookup runs. Line 19
        throws for a negative size, and line 20 for a copy that would start
        past the end of the buffer. */
    method Parse(reg: Registry) returns (raised: bool)
      modifies this
      ensures After(raised, Snapshot()) == ParseSpec(Table(reg, boundTo), buffer, state, old(Snapshot()))
    {
      var dataLength, i := VarInt.Decode(buffer, 0);
      ghost var prefixEnd := i;
      var size := ToInt32(dataLength) - i * 2;
      var id;
      id, i := VarInt.Decode(buffer, i);
      size := size + i + 1;
      ghost var h := Header(Read(dataLength, prefixEnd), Read(id, i));
      assert h == HeaderOf(buffer) && size == AllocSize(h);
      if size < 0 {
        // `Buffer.alloc` refuses a negative size
        return true;
      }
      if size > 0 && i > |buffer| {
        // `buffer.copy` refuses a source start past the end of the buffer
        return true;
      }
      data := Window(buffer, i, size);
      packetId := id;
      ParseProceeds(Table(reg, boundTo), buffer, state, old(Snapshot()), size);
      raised := ReadPacketData(reg);
    }

    /** `readPacketData`: the loop over the direction's descriptors keeps
        the last one whose id and state match; with no name the packet is
        an error, otherwise its fields are decoded. */
    method ReadPacketData(reg: Registry) returns (raised: bool)
      modifies this
      ensures After(raised, Snapshot()) == ReadSpec(Table(reg, boundTo), old(Snapshot()), state)
    {
      var table := Table(reg, boundTo);
      ResolveName(table);
      if !Named(name) {
        error := true;
        return false;
      }
      var found := FindByName(table, name.value);
      if found.None? {
        // `packets[boundTo][name]` is undefined: reading its "Fields" throws
        return true;
      }
      raised := GetPacketFields(table[found.value].desc.fields);
    }

    /** The `for ... in` loop of `readPacketData`: each descriptor whose id
        and state match sets the name and the handler id, -1 when it has no
        `HandlerID`. */
    method ResolveName(table: seq<Entry>)
      modifies this
      ensures Snapshot() == Resolve(table, old(Snapshot()), state)
    {
      ghost var s0 := Snapshot();
      var k := 0;
      while k < |table|
        invariant 0 <= k <= |table|
        invariant Snapshot() == Resolve(table[..k], s0, state)
      {
        ResolveStep(table, k, s0, state);
        if table[k].desc.id == ToInt32(packetId) && table[k].desc.state == state {
          Adopt(table[k]);
        }
        k := k + 1;
      }
      assert table[..k] == table;
    }

    /** The body of the `if` on line 27: the entry's name, and its handler
        id or -1. */
    method Adopt(e: Entry)
      modifies this
      ensures Snapshot() == old(Snapshot()).(name := Some(e.name), handlerId := Some(HandlerOf(e.desc)))
    {
      name := Some(e.name);
      match e.desc.handlerId {
        case Some(h) => handlerId := Some(h);
        case None => handlerId := Some(-1);
      }
    }

    /** One case of the `switch` in `getPacketFeilds`: what a field of type
        `t` at cursor `at` yields. "Long" throws, for it pushes onto
        `this.fields`, which is undefined. */
    method ReadField(t: FieldType, at: int) returns (r: StepResult)
      ensures r == Step(data, t, at)
    {
      match t {
        case VarIntField =>
          var value, next := VarInt.Decode(data, at);
          r := Pushed(VarIntValue(value), next);
        case StringField =>
          var s := ServerString.Decode(data, at);
          r := Pushed(StringValue(s.value), s.next);
        case UnsignedShortField =>
          r := Pushed(UShortValue(BigEndian16(ByteAt(data, at), ByteAt(data, at + 1))), at + 2);
        case LongField =>
          r := Threw;
        case OtherField(_) =>
          r := Skipped;
      }
    }

    /** `getPacketFeilds`: a cursor walks the schema from the start of the
        data, pushing one value per recognised type, until a "Long" throws. */
    method GetPacketFields(schema: seq<FieldType>) returns (raised: bool)
      modifies this
      ensures fields == DecodeFields(data, schema, 0).values
      ensures raised == DecodeFields(data, schema, 0).raised
      ensures error == old(error) && name == old(name) && handlerId == old(handlerId)
      ensures packetId == old(packetId) && data == old(data)
    {
      var i := 0;
      fields := [];
      var k := 0;
      while k < |schema|
        invariant 0 <= k <= |schema|
        invariant DecodeFields(data, schema, 0) == Prefixed(fields, DecodeFields(data, schema[k..], i))
        invariant error == old(error) && name == old(name) && handlerId == old(handlerId)
        invariant packetId == old(packetId) && data == old(data)
      {
        DecodeFieldsAt(data, schema, k, i);
        var step := ReadField(schema[k], i);
        match step {
          case Pushed(value, next) =>
            fields := fields + [value];
            i := next;
          case Threw =>
            assert fields + [] == fields;
            return true;
          case Skipped =>
        }
        k := k + 1;
      }
      assert schema[k..] == [];
      assert fields + [] == fields;
      raised := false;
    }
  }
}
