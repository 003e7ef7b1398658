/**
 * `PacketFactory.createPacket` (index.js:76-101): the frame of a
 * client-bound packet, built from its registry entry and field values, and
 * the proof that `Packet.parse` reads such a frame back.
 */
module PacketFactory {
  import opened Wrappers
  import opened Int32
  import opened VarInt
  import opened Registry
  import opened Fields
  import opened Packet
  import ServerString

  /** A frame: the VarInt length of the packet data, then the packet data,
      which is the VarInt id followed by the body. */
  function Frame(id: int, body: seq<bv8>): seq<bv8>
  {
    var packetData := Encoding(ToBv32(id)) + body;
    Encoding(ToBv32(|packetData|)) + packetData
  }

  /** The values `createPacket` can write for a name: the registry has an
      entry for it, and the values match its field list. */
  predicate Writable(reg: Registry, name: string, values: seq<FieldValue>)
  {
    match FindByName(reg.clientBound, name)
    case None => true
    case Some(k) => AllFit(reg.clientBound[k].desc.fields, values)
  }

  /** `createPacket(name, fields, state)`: an unknown name throws; otherwise
      the fields are encoded in schema order and framed with the entry's id
      into a fresh client-bound packet. */
  method CreatePacket(reg: Registry, name: string, values: seq<FieldValue>, state: string)
    returns (raised: bool, p: Packet?)
    requires Writable(reg, name, values)
    ensures raised <==> FindByName(reg.clientBound, name).None?
    ensures raised ==> p == null
    ensures !raised ==>
              var e := reg.clientBound[FindByName(reg.clientBound, name).value];
              && p != null && fresh(p)
              && p.buffer == Frame(e.desc.id, EncodeFields(e.desc.fields, values))
              && p.boundTo == ClientBound && p.state == state
              && p.Snapshot() == Initial
  {
    var found := FindByName(reg.clientBound, name);
    if found.None? {
      // `packets["ClientBound"][name]` is undefined: reading its "ID" throws
      return true, null;
    }
    var packetId := reg.clientBound[found.value].desc.id;
    var schema := reg.clientBound[found.value].desc.fields;
    var data: seq<bv8> := [];
    var i := 0;
    assert schema[0..] == schema && values[0..] == values;
    while i < |schema|
      invariant 0 <= i <= |schema|
      invariant AllFit(schema[i..], values[i..])
      invariant data + EncodeFields(schema[i..], values[i..]) == EncodeFields(schema, values)
    {
      AppendField(data, schema, values, i);
      var bytes := WriteField(schema[i], values[i]);
      data := data + bytes;
      i := i + 1;
    }
    assert schema[i..] == [] && values[i..] == [];
    assert data + [] == data;
    assert data == EncodeFields(schema, values);
    var idBytes := VarInt.Encode(ToBv32(packetId));
    var packetData := idBytes + data;
    var lengthBytes := VarInt.Encode(ToBv32(|packetData|));
    assert lengthBytes + packetData == Frame(packetId, data);
    p := new Packet(lengthBytes + packetData, ClientBound, state);
    raised := false;
  }

  /** One case of the `switch` in `createPacket`: the bytes a field of
      type `t` adds to the data. */
  method WriteField(t: FieldType, value: FieldValue) returns (bytes: seq<bv8>)
    requires Fits(t, value)
    ensures bytes == EncodeField(t, value)
  {
    match t {
      case VarIntField =>
        bytes := VarInt.Encode(value.v);
      case StringField =>
        bytes := ServerString.Encode(value.utf8);
      case UnsignedShortField =>
        bytes := [(value.u >> 8) as bv8, (value.u & 0xFF) as bv8];
      case LongField =>
        bytes := [];
      case OtherField(_) =>
        bytes := [];
    }
  }

  /** The field loop of `createPacket`, one field further. */
  lemma AppendField(data: seq<bv8>, schema: seq<FieldType>, values: seq<FieldValue>, i: nat)
    requires i < |schema| && |values| == |schema| && AllFit(schema[i..], values[i..])
    ensures AllFit(schema[i + 1..], values[i + 1..])
    ensures Fits(schema[i], values[i])
    ensures data + EncodeFields(schema[i..], values[i..])
         == (data + EncodeField(schema[i], values[i])) + EncodeFields(schema[i + 1..], values[i + 1..])
  {
    assert schema[i..][0] == schema[i] && values[i..][0] == values[i];
    assert schema[i..][1..] == schema[i + 1..] && values[i..][1..] == values[i + 1..];
    assert Fits(schema[i..][0], values[i..][0]);
  }

  /** Decoding the first VarInt of a frame gives the length of the packet
      data, and the packet id starts right after it. */
  lemma {:induction false} FrameHeader(id: int, body: seq<bv8>)
    requires |Encoding(ToBv32(id)) + body| < 0x8000_0000
    ensures var packetData := Encoding(ToBv32(id)) + body;
            var prefix := |Encoding(ToBv32(|packetData|))|;
            && HeaderOf(Frame(id, body))
               == Header(Read(ToBv32(|packetData|), prefix),
                         Read(ToBv32(id), prefix + |Encoding(ToBv32(id))|))
            && ToInt32(HeaderOf(Frame(id, body)).length.value) == |packetData|
  {
    FrameLength(id, body);
    FrameId(id, body);
    ToBv32Inverse(|Encoding(ToBv32(id)) + body|);
  }

  lemma FrameLength(id: int, body: seq<bv8>)
    ensures var packetData := Encoding(ToBv32(id)) + body;
            ReadVarInt(Frame(id, body), 0) == Read(ToBv32(|packetData|), |Encoding(ToBv32(|packetData|))|)
  {
    var packetData := Encoding(ToBv32(id)) + body;
    var lengthBytes := Encoding(ToBv32(|packetData|));
    assert Frame(id, body) == [] + lengthBytes + packetData;
    VarInt.RoundTrip([], ToBv32(|packetData|), packetData);
  }

  lemma FrameId(id: int, body: seq<bv8>)
    ensures var packetData := Encoding(ToBv32(id)) + body;
            var prefix := |Encoding(ToBv32(|packetData|))|;
            ReadVarInt(Frame(id, body), prefix) == Read(ToBv32(id), prefix + |Encoding(ToBv32(id))|)
  {
    var idBytes := Encoding(ToBv32(id));
    var lengthBytes := Encoding(ToBv32(|idBytes + body|));
    Regroup(lengthBytes, idBytes, body);
    VarInt.RoundTrip(lengthBytes, ToBv32(id), body);
  }

  /** Packet data under 2^21 bytes has a length prefix of at most three
      bytes. */
  lemma ShortPrefix(n: int)
    requires 0 <= n < 0x20_0000
    ensures |Encoding(ToBv32(n))| <= 3
  {
    ToBv32Inverse(n);
    UnsignedBelow(ToBv32(n));
    EncodingShape(ToBv32(n));
  }

  /** A window that starts where some bytes sit and is at least as long
      as they are begins with them. */
  lemma WindowHolds(buf: seq<bv8>, start: int, size: nat, bytes: seq<bv8>)
    requires Holds(buf, start, bytes) && |bytes| <= size
    ensures Holds(Window(buf, start, size), 0, bytes)
  {
    var w := Window(buf, start, size);
    forall j | 0 <= j < |bytes|
      ensures w[j] == bytes[j]
    {
      assert buf[start..start + |bytes|][j] == bytes[j];
    }
    assert w[..|bytes|] == bytes;
  }

  /** The window `parse` allocates for a frame is at least as long as its
      body: it exceeds the body by twice the id's size, less the prefix's,
      plus one. */
  lemma {:induction false} FrameAlloc(id: int, body: seq<bv8>)
    requires |Encoding(ToBv32(id)) + body| < 0x20_0000
    ensures AllocSize(HeaderOf(Frame(id, body))) >= |body|
  {
    FrameHeader(id, body);
    ShortPrefix(|Encoding(ToBv32(id)) + body|);
    EncodingShape(ToBv32(id));
  }

  /** The body of a frame sits where the id ends. */
  lemma {:induction false} FrameBody(id: int, body: seq<bv8>)
    requires |Encoding(ToBv32(id)) + body| < 0x8000_0000
    ensures Holds(Frame(id, body), HeaderOf(Frame(id, body)).id.next, body)
  {
    var idBytes := Encoding(ToBv32(id));
    var lengthBytes := Encoding(ToBv32(|idBytes + body|));
    FrameHeader(id, body);
    Regroup(lengthBytes, idBytes, body);
    HoldsAtEnd(lengthBytes + idBytes, body);
  }

  lemma Regroup(a: seq<bv8>, b: seq<bv8>, c: seq<bv8>)
    ensures a + (b + c) == (a + b) + c
  {
  }

  /** Bytes at the end of a buffer sit right after what precedes them. */
  lemma HoldsAtEnd(pre: seq<bv8>, bytes: seq<bv8>)
    ensures Holds(pre + bytes, |pre|, bytes)
  {
    assert (pre + bytes)[|pre|..|pre| + |bytes|] == bytes;
  }

  /** The payload `parse` cuts from a frame starts with the body: the
      window holds the body, and past it either zeros or the bytes that
      follow in the buffer. */
  lemma FrameWindow(id: int, body: seq<bv8>)
    requires |Encoding(ToBv32(id)) + body| < 0x20_0000
    ensures var h := HeaderOf(Frame(id, body));
            && AllocSize(h) >= |body|
            && Holds(Window(Frame(id, body), h.id.next, AllocSize(h)), 0, body)
  {
    var h := HeaderOf(Frame(id, body));
    FrameAlloc(id, body);
    FrameBody(id, body);
    WindowHolds(Frame(id, body), h.id.next, AllocSize(h), body);
  }

  /** The lookup of a frame's id in its own state finds the entry the frame
      was built from, when ids and names are distinct. */
  lemma LookupFrame(table: seq<Entry>, k: nat, s: PacketState)
    requires k < |table| && DistinctKeys(table) && DistinctNames(table)
    requires 0 <= table[k].desc.id < 0x8000_0000
    requires s.packetId == ToBv32(table[k].desc.id)
    ensures Resolve(table, s, table[k].desc.state)
         == s.(name := Some(table[k].name), handlerId := Some(HandlerOf(table[k].desc)))
    ensures FindByName(table, table[k].name) == Some(k)
  {
    ToBv32Inverse(table[k].desc.id);
    LookupFindsEntry(table, k, s.packetId);
    FindByNameFindsEntry(table, k);
  }

  /** End to end: a frame built from a registry entry and values that fit
      its field list parses, in the entry's state, to that entry's name and
      handler id and to the very values written. */
  lemma {:induction false} ParseFrame(table: seq<Entry>, k: nat, values: seq<FieldValue>)
    requires k < |table| && DistinctKeys(table) && DistinctNames(table)
    requires table[k].name != ""
    requires 0 <= table[k].desc.id < 0x8000_0000
    requires AllFit(table[k].desc.fields, values) && Recognised(table[k].desc.fields) && ShortStrings(values)
    requires |Encoding(ToBv32(table[k].desc.id)) + EncodeFields(table[k].desc.fields, values)| < 0x20_0000
    ensures var r := ParseSpec(table, Frame(table[k].desc.id, EncodeFields(table[k].desc.fields, values)),
                               table[k].desc.state, Initial);
            && !r.raised && !r.packet.error
            && r.packet.name == Some(table[k].name)
            && r.packet.handlerId == Some(HandlerOf(table[k].desc))
            && r.packet.packetId == ToBv32(table[k].desc.id)
            && r.packet.fields == values
  {
    var e := table[k];
    var body := EncodeFields(e.desc.fields, values);
    var frame := Frame(e.desc.id, body);
    var h := HeaderOf(frame);
    FrameHeader(e.desc.id, body);
    FrameWindow(e.desc.id, body);
    var size := AllocSize(h);
    var data := Window(frame, h.id.next, size);
    var s := Initial.(data := data, packetId := h.id.value);
    ParseProceeds(table, frame, e.desc.state, Initial, size);
    LookupFrame(table, k, s);
    RoundTripAt(data, 0, e.desc.fields, values);
  }
}
