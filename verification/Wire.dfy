/** The binary form of an envelope, by the Protocol Buffers Encoding guide ("Base 128 Varints", "Length-Delimited
    Records"). */
module Wire {
  import opened Prelude
  import opened Protocol

  const TWO_31 := 0x8000_0000
  const TWO_32 := 0x1_0000_0000
  const TWO_63 := 0x8000_0000_0000_0000
  const TWO_64 := 0x1_0000_0000_0000_0000

  /** The field types of the envelope: int32, int64, int64, bytes. */
  predicate InRange(env: Envelope) {
    && -TWO_31 <= env.msgId < TWO_31
    && -TWO_63 <= env.sessionId < TWO_63
    && -TWO_63 <= env.playerId < TWO_63
    && |env.payload| < TWO_64
  }

  const BLANK := Envelope(0, 0, 0, [])

  // ---------- varints ----------

  /** Negative numbers travel as 64-bit two's complement. */
  function ToUnsigned(v: int): nat
    requires -TWO_63 <= v < TWO_63
  {
    if v >= 0 then v else v + TWO_64
  }

  function ToInt64(u: nat): int {
    if u % TWO_64 < TWO_63 then u % TWO_64 else u % TWO_64 - TWO_64
  }

  function ToInt32(u: nat): int {
    if u % TWO_32 < TWO_31 then u % TWO_32 else u % TWO_32 - TWO_32
  }

  function EncodeVarint(x: nat): (b: seq<byte>)
    ensures |b| > 0
  {
    if x < 128 then [x] else [128 + x % 128] + EncodeVarint(x / 128)
  }

  datatype Parse<+T> = Parsed(value: T, rest: seq<byte>) | Failed

  /** At most `room` bytes; the tenth byte of ten may only carry one bit. */
  function DecodeVarint(b: seq<byte>, room: nat): (r: Parse<nat>)
    ensures r.Parsed? ==> |r.rest| < |b|
  {
    if room == 0 || b == [] then Failed
    else if b[0] < 128 then if room == 1 && b[0] >= 2 then Failed else Parsed(b[0], b[1..])
    else match DecodeVarint(b[1..], room - 1)
      case Failed => Failed
      case Parsed(high, rest) => Parsed(b[0] - 128 + 128 * high, rest)
  }

  function Capacity(room: nat): nat {
    if room == 0 then 0 else if room == 1 then 2 else 128 * Capacity(room - 1)
  }

  lemma CapacityTen()
    ensures Capacity(10) == TWO_64
  {
    assert Capacity(4) == 128 * 128 * 128 * 2;
    assert Capacity(7) == 128 * 128 * 128 * Capacity(4);
  }

  lemma {:induction false} VarintRoundTrip(x: nat, rest: seq<byte>, room: nat)
    requires x < Capacity(room)
    ensures DecodeVarint(EncodeVarint(x) + rest, room) == Parsed(x, rest)
  {
    var b := EncodeVarint(x) + rest;
    if x < 128 {
      assert b[1..] == rest;
    } else {
      assert b[1..] == EncodeVarint(x / 128) + rest;
      VarintRoundTrip(x / 128, rest, room - 1);
    }
  }

  lemma Varint64RoundTrip(x: nat, rest: seq<byte>)
    requires x < TWO_64
    ensures DecodeVarint(EncodeVarint(x) + rest, 10) == Parsed(x, rest)
  {
    CapacityTen();
    VarintRoundTrip(x, rest, 10);
  }

  // ---------- fields ----------

  const MSG_ID_KEY := 0x08
  const SESSION_ID_KEY := 0x10
  const PLAYER_ID_KEY := 0x18
  const PAYLOAD_KEY := 0x22

  function VarintField(key: byte, v: int): seq<byte>
    requires -TWO_63 <= v < TWO_63
  {
    if v == 0 then [] else [key] + EncodeVarint(ToUnsigned(v))
  }

  function BytesField(key: byte, data: seq<byte>): seq<byte> {
    if data == [] then [] else [key] + EncodeVarint(|data|) + data
  }

  /** Fields in number order, defaults omitted. */
  function Marshal(env: Envelope): seq<byte>
    requires InRange(env)
  {
    VarintField(MSG_ID_KEY, env.msgId) + (VarintField(SESSION_ID_KEY, env.sessionId)
    + (VarintField(PLAYER_ID_KEY, env.playerId) + BytesField(PAYLOAD_KEY, env.payload)))
  }

  function TakeBytes(b: seq<byte>, n: nat): (r: Parse<seq<byte>>)
    ensures r.Parsed? ==> |r.rest| <= |b|
  {
    if n > |b| then Failed else Parsed(b[..n], b[n..])
  }

  function DecodeBytes(b: seq<byte>): (r: Parse<seq<byte>>)
    ensures r.Parsed? ==> |r.rest| < |b|
  {
    match DecodeVarint(b, 10)
    case Failed => Failed
    case Parsed(n, rest) => TakeBytes(rest, n)
  }

  /** The bytes after an unknown field's value, by wire type. */
  function SkipValue(b: seq<byte>, wireType: nat): (r: Parse<()>)
    ensures r.Parsed? ==> |r.rest| <= |b|
  {
    if wireType == 0 then match DecodeVarint(b, 10) case Failed => Failed case Parsed(_, rest) => Parsed((), rest)
    else if wireType == 1 then match TakeBytes(b, 8) case Failed => Failed case Parsed(_, rest) => Parsed((), rest)
    else if wireType == 2 then match DecodeBytes(b) case Failed => Failed case Parsed(_, rest) => Parsed((), rest)
    else if wireType == 5 then match TakeBytes(b, 4) case Failed => Failed case Parsed(_, rest) => Parsed((), rest)
    else Failed
  }

  /** One field merged into the envelope read so far; the last value of a field wins. */
  function ParseField(b: seq<byte>, env: Envelope): (r: Parse<Envelope>)
    ensures r.Parsed? ==> |r.rest| < |b|
  {
    match DecodeVarint(b, 10)
    case Failed => Failed
    case Parsed(key, rest) =>
      if key == MSG_ID_KEY then
        match DecodeVarint(rest, 10)
        case Failed => Failed
        case Parsed(v, rest') => Parsed(env.(msgId := ToInt32(v)), rest')
      else if key == SESSION_ID_KEY then
        match DecodeVarint(rest, 10)
        case Failed => Failed
        case Parsed(v, rest') => Parsed(env.(sessionId := ToInt64(v)), rest')
      else if key == PLAYER_ID_KEY then
        match DecodeVarint(rest, 10)
        case Failed => Failed
        case Parsed(v, rest') => Parsed(env.(playerId := ToInt64(v)), rest')
      else if key == PAYLOAD_KEY then
        match DecodeBytes(rest) case Failed => Failed case Parsed(v, rest') => Parsed(env.(payload := v), rest')
      else if key / 8 == 0 || key / 8 >= 0x2000_0000 then Failed
      else match SkipValue(rest, key % 8) case Failed => Failed case Parsed(_, rest') => Parsed(env, rest')
  }

  function ParseFields(b: seq<byte>, env: Envelope): Option<Envelope>
    decreases |b|
  {
    if b == [] then Some(env)
    else match ParseField(b, env)
      case Failed => None
      case Parsed(env', rest) => ParseFields(rest, env')
  }

  function Unmarshal(b: seq<byte>): Option<Envelope> {
    ParseFields(b, BLANK)
  }

  // ---------- round trip ----------

  lemma KeyThenVarint(key: byte, x: nat, rest: seq<byte>)
    requires key < 128 && x < TWO_64
    ensures var b := [key] + EncodeVarint(x) + rest;
            && DecodeVarint(b, 10) == Parsed(key, EncodeVarint(x) + rest)
            && DecodeVarint(EncodeVarint(x) + rest, 10) == Parsed(x, rest)
  {
    var b := [key] + EncodeVarint(x) + rest;
    assert b[1..] == EncodeVarint(x) + rest;
    Varint64RoundTrip(x, rest);
  }

  lemma SignedRoundTrip(v: int)
    requires -TWO_63 <= v < TWO_63
    ensures ToUnsigned(v) < TWO_64 && ToInt64(ToUnsigned(v)) == v
    ensures -TWO_31 <= v < TWO_31 ==> ToInt32(ToUnsigned(v)) == v
  {
    if -TWO_31 <= v < 0 {
      assert v + TWO_64 == (v + TWO_32) + TWO_32 * (TWO_32 - 1);
      LowWord(v + TWO_32, TWO_32 - 1);
    } else if 0 <= v < TWO_31 {
      LowWord(v, 0);
    }
  }

  lemma LowWord(x: int, k: nat)
    requires 0 <= x < TWO_32
    ensures (x + TWO_32 * k) % TWO_32 == x
  {}

  /** A varint field in front of other fields sets its own field and nothing else. */
  lemma VarintFieldParsed(key: byte, v: int, rest: seq<byte>, env: Envelope)
    requires key == MSG_ID_KEY || key == SESSION_ID_KEY || key == PLAYER_ID_KEY
    requires -TWO_63 <= v < TWO_63 && (key == MSG_ID_KEY ==> -TWO_31 <= v < TWO_31)
    ensures v != 0 ==>
              ParseFields(VarintField(key, v) + rest, env)
              == ParseFields(rest, if key == MSG_ID_KEY then env.(msgId := v)
                                   else if key == SESSION_ID_KEY then env.(sessionId := v) else env.(playerId := v))
    ensures v == 0 ==> VarintField(key, v) + rest == rest
  {
    if v != 0 {
      SignedRoundTrip(v);
      KeyThenVarint(key, ToUnsigned(v), rest);
    }
  }

  lemma BytesFieldParsed(data: seq<byte>, env: Envelope)
    requires |data| < TWO_64
    ensures ParseFields(BytesField(PAYLOAD_KEY, data), env) == Some(if data == [] then env else env.(payload := data))
  {
    if data != [] {
      KeyThenVarint(PAYLOAD_KEY, |data|, data);
      assert data[..|data|] == data && data[|data|..] == [];
    }
  }

  /** Every envelope, with negative numbers and omitted defaults, decodes to itself. */
  lemma RoundTrip(env: Envelope)
    requires InRange(env)
    ensures Unmarshal(Marshal(env)) == Some(env)
  {
    var payload := BytesField(PAYLOAD_KEY, env.payload);
    var player := VarintField(PLAYER_ID_KEY, env.playerId) + payload;
    var session := VarintField(SESSION_ID_KEY, env.sessionId) + player;
    var e1 := Envelope(env.msgId, 0, 0, []);
    var e2 := Envelope(env.msgId, env.sessionId, 0, []);
    var e3 := Envelope(env.msgId, env.sessionId, env.playerId, []);
    VarintFieldParsed(MSG_ID_KEY, env.msgId, session, BLANK);
    VarintFieldParsed(SESSION_ID_KEY, env.sessionId, player, e1);
    VarintFieldParsed(PLAYER_ID_KEY, env.playerId, payload, e2);
    BytesFieldParsed(env.payload, e3);
  }

  /** Only the all-default envelope has an empty body; in particular a message ID makes it non-empty. */
  lemma EmptyBody(env: Envelope)
    requires InRange(env)
    ensures Marshal(env) == [] <==> env == BLANK
  {
    var m := VarintField(MSG_ID_KEY, env.msgId);
    var s := VarintField(SESSION_ID_KEY, env.sessionId);
    var p := VarintField(PLAYER_ID_KEY, env.playerId);
    assert |Marshal(env)| == |m| + |s| + |p| + |BytesField(PAYLOAD_KEY, env.payload)|;
  }
}
