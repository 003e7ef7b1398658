/**
 * `Client` (index.js:104-138): one connection's protocol state. Every
 * chunk of data is parsed as a server-bound packet in the current state
 * and handed to the handler its descriptor names.
 */
module Client {
  import opened Wrappers
  import opened Int32
  import opened VarInt
  import opened Registry
  import opened Fields
  import opened Packet
  import PacketFactory

  /** The values of `Client.state`. */
  datatype ConnState = Handshaking | Slp | Login

  /** The state as the registry's `State` strings spell it. */
  function StateName(s: ConnState): string
  {
    match s
    case Handshaking => "Handshaking"
    case Slp => "SLP"
    case Login => "Login"
  }

  /** The handler methods: the handshake, and the empty status and ping
      handlers, which do nothing. */
  datatype Handler = Handshake | Ignore

  /** `this.handlers` as evidently intended: slot 0 the handshake handler,
      slots 1 and 2 the empty ones; any other slot is `undefined`. */
  function Handlers(slot: int): Option<Handler>
  {
    if slot == 0 then Some(Handshake)
    else if slot == 1 || slot == 2 then Some(Ignore)
    else None
  }

  /** `this.handlers` as written: slot 0 reads `this.HandshakeHandler`,
      a property no object has (the method is spelt `HandshakeHanlder`),
      so it is `undefined`. */
  function HandlersAsWritten(slot: int): Option<Handler>
  {
    if slot == 1 || slot == 2 then Some(Ignore) else None
  }

  /** The state `HandshakeHanlder` moves to: "SLP" when the fourth field,
      `nextState`, equals 1, and "Login" otherwise, a missing field
      included. */
  function HandshakeNext(values: seq<FieldValue>): ConnState
  {
    if |values| > 3 && (values[3] == VarIntValue(1) || values[3] == UShortValue(1)) then Slp
    else Login
  }

  /** What a chunk of data does: whether `onData` throws, and the state it
      leaves. */
  datatype Reaction = Reaction(raised: bool, next: ConnState)

  /** `onData` with the handler table `handlers`: a parse that throws
      throws; an error or a handler id of -1 drops the packet; a handler id
      the table has no function for throws; the handler runs otherwise. */
  function ReceiveVia(handlers: int -> Option<Handler>, reg: Registry, data: seq<bv8>, s: ConnState): Reaction
  {
    var r := ParseSpec(Table(reg, ServerBound), data, StateName(s), Initial);
    if r.raised then Reaction(true, s)
    else if r.packet.error || r.packet.handlerId == Some(-1) then Reaction(false, s)
    else match r.packet.handlerId
      case None => Reaction(true, s)
      case Some(h) =>
        match handlers(h)
        case None => Reaction(true, s)
        case Some(Handshake) => Reaction(false, HandshakeNext(r.packet.fields))
        case Some(Ignore) => Reaction(false, s)
  }

  /** `onData` as evidently intended. */
  function Receive(reg: Registry, data: seq<bv8>, s: ConnState): Reaction
  {
    ReceiveVia(Handlers, reg, data, s)
  }

  class Client {
    var state: ConnState

    constructor()
      ensures state == Handshaking
    {
      state := Handshaking;
    }

    /** `onData(data)`: parse the chunk as a server-bound packet in the
        current state, drop it on an error or a handler id of -1, and call
        the handler otherwise. */
    method OnData(reg: Registry, data: seq<bv8>) returns (raised: bool)
      modifies this
      ensures Reaction(raised, state) == Receive(reg, data, old(state))
    {
      var packet := new Packet(data, ServerBound, StateName(state));
      raised := packet.Parse(reg);
      if raised {
        return;
      }
      if packet.error || packet.handlerId == Some(-1) {
        return false;
      }
      match packet.handlerId {
        case None =>
          // `this.handlers[undefined]` is not a function
          return true;
        case Some(h) =>
          match Handlers(h) {
            case None =>
              return true;
            case Some(Handshake) =>
              HandshakeHandler(packet.fields);
            case Some(Ignore) =>
          }
      }
    }

    /** `HandshakeHanlder(fields)`: the fourth field decides the next
        state. */
    method HandshakeHandler(values: seq<FieldValue>)
      modifies this
      ensures state == HandshakeNext(values)
    {
      var nextState := if |values| > 3 then Some(values[3]) else None;
      if nextState == Some(VarIntValue(1)) || nextState == Some(UShortValue(1)) {
        state := Slp;
      } else {
        state := Login;
      }
    }
  }

  /** A packet that is dropped, unknown or without a handler leaves the
      state as it was, and the state changes only when a well-formed packet
      reaches the handshake handler, which moves to "SLP" exactly when its
      `nextState` is 1. */
  lemma StateChanges(reg: Registry, data: seq<bv8>, s: ConnState)
    ensures var r := ParseSpec(Table(reg, ServerBound), data, StateName(s), Initial);
            var c := Receive(reg, data, s);
            && (r.raised || r.packet.error || r.packet.handlerId == Some(-1) ==> c.next == s)
            && (c.next != s ==> !c.raised && !r.packet.error && r.packet.handlerId == Some(0))
            && (c.next == Slp && s != Slp ==> HandshakeNext(r.packet.fields) == Slp)
  {
  }

  /** The connection never returns to "Handshaking". */
  lemma NeverBackToHandshaking(reg: Registry, data: seq<bv8>, s: ConnState)
    ensures Receive(reg, data, s).next == Handshaking ==> s == Handshaking
  {
  }

  /** The handshake decides on `nextState` alone: "SLP" for 1, "Login" for
      any other value or none. */
  lemma HandshakeChoice(values: seq<FieldValue>, v: bv32, u: bv16)
    ensures |values| > 3 && values[3] == VarIntValue(v) ==> (HandshakeNext(values) == Slp <==> v == 1)
    ensures |values| > 3 && values[3] == UShortValue(u) ==> (HandshakeNext(values) == Slp <==> u == 1)
    ensures |values| <= 3 ==> HandshakeNext(values) == Login
  {
  }

  /** End to end: a handshake frame, built as `createPacket` builds frames,
      moves a connection in "Handshaking" to "SLP" when its `nextState` is 1
      and to "Login" otherwise. */
  lemma {:induction false} HandshakeFrame(reg: Registry, k: nat, values: seq<FieldValue>)
    requires k < |reg.serverBound| && DistinctKeys(reg.serverBound) && DistinctNames(reg.serverBound)
    requires reg.serverBound[k].name != ""
    requires reg.serverBound[k].desc.state == "Handshaking"
    requires reg.serverBound[k].desc.handlerId == Some(0)
    requires 0 <= reg.serverBound[k].desc.id < 0x8000_0000
    requires AllFit(reg.serverBound[k].desc.fields, values)
    requires Recognised(reg.serverBound[k].desc.fields) && ShortStrings(values)
    requires |Encoding(ToBv32(reg.serverBound[k].desc.id)) + EncodeFields(reg.serverBound[k].desc.fields, values)| < 0x20_0000
    ensures Receive(reg, PacketFactory.Frame(reg.serverBound[k].desc.id, EncodeFields(reg.serverBound[k].desc.fields, values)), Handshaking)
         == Reaction(false, HandshakeNext(values))
  {
    var frame := PacketFactory.Frame(reg.serverBound[k].desc.id, EncodeFields(reg.serverBound[k].desc.fields, values));
    PacketFactory.ParseFrame(reg.serverBound, k, values);
    ReceiveHandshake(Handlers, reg, frame, Handshaking, values);
  }

  /** With the handler table as written the same frame throws, and the
      connection stays in "Handshaking". */
  lemma {:induction false} HandshakeFrameAsWritten(reg: Registry, k: nat, values: seq<FieldValue>)
    requires k < |reg.serverBound| && DistinctKeys(reg.serverBound) && DistinctNames(reg.serverBound)
    requires reg.serverBound[k].name != ""
    requires reg.serverBound[k].desc.state == "Handshaking"
    requires reg.serverBound[k].desc.handlerId == Some(0)
    requires 0 <= reg.serverBound[k].desc.id < 0x8000_0000
    requires AllFit(reg.serverBound[k].desc.fields, values)
    requires Recognised(reg.serverBound[k].desc.fields) && ShortStrings(values)
    requires |Encoding(ToBv32(reg.serverBound[k].desc.id)) + EncodeFields(reg.serverBound[k].desc.fields, values)| < 0x20_0000
    ensures ReceiveVia(HandlersAsWritten, reg, PacketFactory.Frame(reg.serverBound[k].desc.id, EncodeFields(reg.serverBound[k].desc.fields, values)), Handshaking)
         == Reaction(true, Handshaking)
  {
    var frame := PacketFactory.Frame(reg.serverBound[k].desc.id, EncodeFields(reg.serverBound[k].desc.fields, values));
    PacketFactory.ParseFrame(reg.serverBound, k, values);
    ReceiveHandshake(HandlersAsWritten, reg, frame, Handshaking, values);
  }

  /** A chunk that parses cleanly to handler 0 goes to whatever slot 0 of
      the table holds. */
  lemma ReceiveHandshake(handlers: int -> Option<Handler>, reg: Registry, data: seq<bv8>, s: ConnState, values: seq<FieldValue>)
    requires var r := ParseSpec(Table(reg, ServerBound), data, StateName(s), Initial);
             !r.raised && !r.packet.error && r.packet.handlerId == Some(0) && r.packet.fields == values
    ensures handlers(0) == Some(Handshake) ==> ReceiveVia(handlers, reg, data, s) == Reaction(false, HandshakeNext(values))
    ensures handlers(0).None? ==> ReceiveVia(handlers, reg, data, s) == Reaction(true, s)
  {
  }
}
