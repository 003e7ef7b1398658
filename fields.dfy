/**
 * Packet fields: the values `getPacketFeilds` decodes and `createPacket`
 * encodes, one per entry of a descriptor's `Fields` list, in order.
 */
module Fields {
  import opened Wrappers
  import opened VarInt
  import opened Registry
  import ServerString

  /** A decoded field value. */
  datatype FieldValue =
    | VarIntValue(v: bv32)
    | StringValue(utf8: seq<bv8>)
    | UShortValue(u: bv16)

  /** The field type a value is read as. */
  function KindOf(value: FieldValue): FieldType
  {
    match value
    case VarIntValue(_) => VarIntField
    case StringValue(_) => StringField
    case UShortValue(_) => UnsignedShortField
  }

  /** `(data[i] << 8) | data[i + 1]`: two bytes, most significant first. */
  function BigEndian16(hi: bv8, lo: bv8): bv16
  {
    ((hi as bv16) << 8) | (lo as bv16)
  }

  /** What one turn of the `forEach` in `getPacketFeilds` does. */
  datatype StepResult =
    | Pushed(value: FieldValue, next: int)  // a value is pushed and the cursor moves
    | Skipped                               // an unknown type: nothing happens
    | Threw                                 // "Long": `this.fields` is undefined

  function Step(data: seq<bv8>, t: FieldType, at: int): StepResult
  {
    match t
    case VarIntField =>
      var r := ReadVarInt(data, at);
      Pushed(VarIntValue(r.value), r.next)
    case StringField =>
      var r := ServerString.Decode(data, at);
      Pushed(StringValue(r.value), r.next)
    case UnsignedShortField =>
      Pushed(UShortValue(BigEndian16(ByteAt(data, at), ByteAt(data, at + 1))), at + 2)
    case LongField => Threw
    case OtherField(_) => Skipped
  }

  /** The values pushed, the final cursor, and whether the walk threw. */
  datatype Decoded = Decoded(values: seq<FieldValue>, cursor: int, raised: bool)

  /** The whole walk over a `Fields` list, from cursor `at`. */
  function DecodeFields(data: seq<bv8>, schema: seq<FieldType>, at: int): Decoded
    decreases |schema|
  {
    if |schema| == 0 then Decoded([], at, false)
    else match Step(data, schema[0], at)
      case Threw => Decoded([], at, true)
      case Skipped => DecodeFields(data, schema[1..], at)
      case Pushed(v, next) =>
        var rest := DecodeFields(data, schema[1..], next);
        Decoded([v] + rest.values, rest.cursor, rest.raised)
  }

  /** The types that yield a value, in order, up to the first "Long". */
  function Expected(schema: seq<FieldType>): seq<FieldType>
  {
    if |schema| == 0 then []
    else if schema[0] == LongField then []
    else if schema[0].OtherField? then Expected(schema[1..])
    else [schema[0]] + Expected(schema[1..])
  }

  /** Field decoding follows the schema: one value per recognised type, of
      that type, in order; the walk throws exactly when the schema holds a
      "Long", and stops there. */
  lemma {:induction false} DecodeFollowsSchema(data: seq<bv8>, schema: seq<FieldType>, at: int)
    ensures var r := DecodeFields(data, schema, at);
            && |r.values| == |Expected(schema)|
            && (forall k :: 0 <= k < |r.values| ==> KindOf(r.values[k]) == Expected(schema)[k])
            && (r.raised <==> LongField in schema)
    decreases |schema|
  {
    if |schema| > 0 {
      assert LongField in schema <==> schema[0] == LongField || LongField in schema[1..] by {
        assert schema == [schema[0]] + schema[1..];
      }
      match Step(data, schema[0], at)
      case Threw =>
      case Skipped =>
        DecodeFollowsSchema(data, schema[1..], at);
      case Pushed(v, next) =>
        DecodeFollowsSchema(data, schema[1..], next);
    }
  }

  /** A value `createPacket` can write for a field type: the value of that
      type, and anything for a type it does not write. */
  predicate Fits(t: FieldType, value: FieldValue)
  {
    match t
    case VarIntField => value.VarIntValue?
    case StringField => value.StringValue?
    case UnsignedShortField => value.UShortValue?
    case LongField => true
    case OtherField(_) => true
  }

  predicate AllFit(schema: seq<FieldType>, values: seq<FieldValue>)
  {
    |values| == |schema| && forall k :: 0 <= k < |schema| ==> Fits(schema[k], values[k])
  }

  /** The bytes `createPacket` appends for one field, as evidently
      intended: a VarInt, a length-prefixed string, or an unsigned short as
      two bytes, most significant first; nothing for other types. */
  function EncodeField(t: FieldType, value: FieldValue): seq<bv8>
    requires Fits(t, value)
  {
    match t
    case VarIntField => Encoding(value.v)
    case StringField => ServerString.Encode(value.utf8)
    case UnsignedShortField => [(value.u >> 8) as bv8, (value.u & 0xFF) as bv8]
    case LongField => []
    case OtherField(_) => []
  }

  /** The same step as written: the VarInt encoder throws (line 182), and
      so does the string encoder, which calls it; line 92 hands
      `Buffer.concat` a number, which throws as well. */
  function EncodeFieldAsWritten(t: FieldType, value: FieldValue): Outcome<seq<bv8>>
    requires Fits(t, value)
  {
    match t
    case VarIntField => Raised
    case StringField => Raised
    case UnsignedShortField => Raised
    case LongField => Returned([])
    case OtherField(_) => Returned([])
  }

  /** As written, line 92 throws for every unsigned short, so the field is
      never written, let alone as the two bytes the decoder expects. */
  lemma UnsignedShortAsWritten(u: bv16)
    ensures EncodeFieldAsWritten(UnsignedShortField, UShortValue(u)) == Raised
    ensures EncodeFieldAsWritten(UnsignedShortField, UShortValue(u))
         != Returned(EncodeField(UnsignedShortField, UShortValue(u)))
  {
  }

  /** As intended, an unsigned short is two bytes, most significant first,
      which the decoder reads back, advancing the cursor by 2. */
  lemma UnsignedShortRoundTrip(pre: seq<bv8>, u: bv16, post: seq<bv8>)
    ensures Step(pre + EncodeField(UnsignedShortField, UShortValue(u)) + post, UnsignedShortField, |pre|)
         == Pushed(UShortValue(u), |pre| + 2)
  {
    var e := EncodeField(UnsignedShortField, UShortValue(u));
    var buf := pre + e + post;
    assert ByteAt(buf, |pre|) == e[0] && ByteAt(buf, |pre| + 1) == e[1];
    SplitJoin(u);
  }

  lemma SplitJoin(u: bv16)
    ensures BigEndian16((u >> 8) as bv8, (u & 0xFF) as bv8) == u
  {
  }

  /** The data `createPacket` builds: each field's bytes, in schema order. */
  function EncodeFields(schema: seq<FieldType>, values: seq<FieldValue>): seq<bv8>
    requires AllFit(schema, values)
    decreases |schema|
  {
    if |schema| == 0 then []
    else EncodeField(schema[0], values[0]) + EncodeFields(schema[1..], values[1..])
  }

  /** A schema whose every type yields a value. */
  predicate Recognised(schema: seq<FieldType>)
  {
    forall k :: 0 <= k < |schema| ==> schema[k] in {VarIntField, StringField, UnsignedShortField}
  }

  /** Strings short enough for a non-negative length prefix. */
  predicate ShortStrings(values: seq<FieldValue>)
  {
    forall k :: 0 <= k < |values| ==> values[k].StringValue? ==> |values[k].utf8| < 0x8000_0000
  }

  /** One field read back where it was written. */
  lemma FieldRoundTrip(pre: seq<bv8>, t: FieldType, value: FieldValue, post: seq<bv8>)
    requires Fits(t, value) && t in {VarIntField, StringField, UnsignedShortField}
    requires value.StringValue? ==> |value.utf8| < 0x8000_0000
    ensures Step(pre + EncodeField(t, value) + post, t, |pre|)
         == Pushed(value, |pre| + |EncodeField(t, value)|)
  {
    match t
    case VarIntField =>
      VarIntFieldRoundTrip(pre, value.v, post);
    case StringField =>
      StringFieldRoundTrip(pre, value.utf8, post);
    case UnsignedShortField =>
      UnsignedShortRoundTrip(pre, value.u, post);
  }

  lemma VarIntFieldRoundTrip(pre: seq<bv8>, v: bv32, post: seq<bv8>)
    ensures Step(pre + Encoding(v) + post, VarIntField, |pre|) == Pushed(VarIntValue(v), |pre| + |Encoding(v)|)
  {
    VarInt.RoundTrip(pre, v, post);
  }

  lemma StringFieldRoundTrip(pre: seq<bv8>, utf8: seq<bv8>, post: seq<bv8>)
    requires |utf8| < 0x8000_0000
    ensures Step(pre + ServerString.Encode(utf8) + post, StringField, |pre|)
         == Pushed(StringValue(utf8), |pre| + |ServerString.Encode(utf8)|)
  {
    ServerString.RoundTrip(pre, utf8, post);
  }

  /** `bytes` sits in `buf` from index `at` on. */
  predicate Holds(buf: seq<bv8>, at: int, bytes: seq<bv8>)
  {
    0 <= at && at + |bytes| <= |buf| && buf[at..at + |bytes|] == bytes
  }

  lemma ConcatHolds(pre: seq<bv8>, bytes: seq<bv8>, post: seq<bv8>)
    ensures Holds(pre + bytes + post, |pre|, bytes)
  {
    assert (pre + bytes + post)[|pre|..|pre| + |bytes|] == bytes;
  }

  lemma HoldsSplit(buf: seq<bv8>, at: int, a: seq<bv8>, b: seq<bv8>)
    requires Holds(buf, at, a + b)
    ensures Holds(buf, at, a) && Holds(buf, at + |a|, b)
  {
    assert buf[at..at + |a|] == (a + b)[..|a|];
    assert buf[at + |a|..at + |a| + |b|] == (a + b)[|a|..];
  }

  lemma HoldsSplitsBuffer(buf: seq<bv8>, at: int, bytes: seq<bv8>)
    requires Holds(buf, at, bytes)
    ensures buf == buf[..at] + bytes + buf[at + |bytes|..] && |buf[..at]| == at
  {
    assert buf == buf[..at] + buf[at..at + |bytes|] + buf[at + |bytes|..];
  }

  /** A recognised field whose bytes sit at the cursor reads back. */
  lemma FieldAt(buf: seq<bv8>, at: int, t: FieldType, value: FieldValue)
    requires Fits(t, value) && t in {VarIntField, StringField, UnsignedShortField}
    requires value.StringValue? ==> |value.utf8| < 0x8000_0000
    requires Holds(buf, at, EncodeField(t, value))
    ensures Step(buf, t, at) == Pushed(value, at + |EncodeField(t, value)|)
  {
    var e := EncodeField(t, value);
    HoldsSplitsBuffer(buf, at, e);
    FieldRoundTrip(buf[..at], t, value, buf[at + |e|..]);
  }

  /** One pushed value, then the rest of the walk. */
  lemma DecodeFieldsPushed(data: seq<bv8>, schema: seq<FieldType>, at: int, values: seq<FieldValue>, next: int, end: int)
    requires |schema| > 0 && |values| > 0
    requires Step(data, schema[0], at) == Pushed(values[0], next)
    requires DecodeFields(data, schema[1..], next) == Decoded(values[1..], end, false)
    ensures DecodeFields(data, schema, at) == Decoded(values, end, false)
  {
    assert values == [values[0]] + values[1..];
  }

  lemma EncodeFieldsCons(schema: seq<FieldType>, values: seq<FieldValue>)
    requires AllFit(schema, values) && |schema| > 0
    ensures EncodeFields(schema, values)
         == EncodeField(schema[0], values[0]) + EncodeFields(schema[1..], values[1..])
  {
  }

  /** The tail of a schema and its values meet what the whole did, and the
      head is a recognised field. */
  lemma Tail(schema: seq<FieldType>, values: seq<FieldValue>)
    requires AllFit(schema, values) && Recognised(schema) && ShortStrings(values) && |schema| > 0
    ensures AllFit(schema[1..], values[1..]) && Recognised(schema[1..]) && ShortStrings(values[1..])
    ensures Fits(schema[0], values[0]) && schema[0] in {VarIntField, StringField, UnsignedShortField}
    ensures values[0].StringValue? ==> |values[0].utf8| < 0x8000_0000
  {
  }

  /** Fields encoded at the cursor decode, under the same schema, to the
      values written, and the cursor ends just past them. */
  lemma {:induction false} RoundTripAt(buf: seq<bv8>, at: int, schema: seq<FieldType>, values: seq<FieldValue>)
    requires AllFit(schema, values) && Recognised(schema) && ShortStrings(values)
    requires Holds(buf, at, EncodeFields(schema, values))
    ensures DecodeFields(buf, schema, at) == Decoded(values, at + |EncodeFields(schema, values)|, false)
    decreases |schema|
  {
    if |schema| > 0 {
      var e := EncodeField(schema[0], values[0]);
      var rest := EncodeFields(schema[1..], values[1..]);
      HeadStep(buf, at, schema, values);
      RoundTripAt(buf, at + |e|, schema[1..], values[1..]);
      DecodeFieldsPushed(buf, schema, at, values, at + |e|, at + |e| + |rest|);
    }
  }

  /** The first field of an encoded list reads back at the cursor, and the
      rest of the list, which meets what the whole did, sits right after it. */
  lemma HeadStep(buf: seq<bv8>, at: int, schema: seq<FieldType>, values: seq<FieldValue>)
    requires AllFit(schema, values) && Recognised(schema) && ShortStrings(values) && |schema| > 0
    requires Holds(buf, at, EncodeFields(schema, values))
    ensures Step(buf, schema[0], at) == Pushed(values[0], at + |EncodeField(schema[0], values[0])|)
    ensures AllFit(schema[1..], values[1..]) && Recognised(schema[1..]) && ShortStrings(values[1..])
    ensures Holds(buf, at + |EncodeField(schema[0], values[0])|, EncodeFields(schema[1..], values[1..]))
    ensures |EncodeFields(schema, values)|
         == |EncodeField(schema[0], values[0])| + |EncodeFields(schema[1..], values[1..])|
  {
    HeadAt(buf, at, schema, values);
    Tail(schema, values);
    FieldAt(buf, at, schema[0], values[0]);
  }

  /** The first field of an encoded list sits at the cursor, and the rest
      of the list right after it. */
  lemma HeadAt(buf: seq<bv8>, at: int, schema: seq<FieldType>, values: seq<FieldValue>)
    requires AllFit(schema, values) && |schema| > 0
    requires Holds(buf, at, EncodeFields(schema, values))
    ensures Holds(buf, at, EncodeField(schema[0], values[0]))
    ensures Holds(buf, at + |EncodeField(schema[0], values[0])|, EncodeFields(schema[1..], values[1..]))
    ensures |EncodeFields(schema, values)|
         == |EncodeField(schema[0], values[0])| + |EncodeFields(schema[1..], values[1..])|
  {
    EncodeFieldsCons(schema, values);
    HoldsSplit(buf, at, EncodeField(schema[0], values[0]), EncodeFields(schema[1..], values[1..]));
  }

  /** Round trip: fields encoded anywhere in a buffer decode to the values
      written. */
  lemma RoundTrip(pre: seq<bv8>, schema: seq<FieldType>, values: seq<FieldValue>, post: seq<bv8>)
    requires AllFit(schema, values) && Recognised(schema) && ShortStrings(values)
    ensures DecodeFields(pre + EncodeFields(schema, values) + post, schema, |pre|)
         == Decoded(values, |pre| + |EncodeFields(schema, values)|, false)
  {
    ConcatHolds(pre, EncodeFields(schema, values), post);
    RoundTripAt(pre + EncodeFields(schema, values) + post, |pre|, schema, values);
  }
}
