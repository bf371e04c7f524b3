/** Which beginnings of an encoded envelope decode, and to what. */
module WireParts {
  import opened Prelude
  import opened Protocol
  import opened Wire

  /** The envelope with its first `i` fields in number order, the others default. */
  function FirstFields(env: Envelope, i: nat): Envelope {
    Envelope(if i >= 1 then env.msgId else 0, if i >= 2 then env.sessionId else 0, if i >= 3 then env.playerId else 0,
             if i >= 4 then env.payload else [])
  }

  /** The encoding of field `i`, counting from 0. */
  function FieldBytes(env: Envelope, i: nat): seq<byte>
    requires InRange(env) && i < 4
  {
    if i == 0 then VarintField(MSG_ID_KEY, env.msgId)
    else if i == 1 then VarintField(SESSION_ID_KEY, env.sessionId)
    else if i == 2 then VarintField(PLAYER_ID_KEY, env.playerId)
    else BytesField(PAYLOAD_KEY, env.payload)
  }

  function Fields(env: Envelope): seq<seq<byte>>
    requires InRange(env)
  {
    [FieldBytes(env, 0), FieldBytes(env, 1), FieldBytes(env, 2), FieldBytes(env, 3)]
  }

  // ---------- fields one after the other ----------

  /** The bytes from field `i` on. */
  function Concat(fields: seq<seq<byte>>, i: nat): seq<byte>
    requires i <= |fields|
    decreases |fields| - i
  {
    if i == |fields| then [] else fields[i] + Concat(fields, i + 1)
  }

  /** Where the first `n` fields end. */
  function End(fields: seq<seq<byte>>, n: nat): nat
    requires n <= |fields|
  {
    if n == 0 then 0 else End(fields, n - 1) + |fields[n - 1]|
  }

  /** The number of fields that end `j` bytes behind the first `i`, None if none does. */
  function EndsAt(fields: seq<seq<byte>>, i: nat, j: nat): Option<nat>
    requires i <= |fields|
    decreases |fields| - i
  {
    if j == 0 then Some(i)
    else if i == |fields| || j < |fields[i]| then None
    else EndsAt(fields, i + 1, j - |fields[i]|)
  }

  lemma {:induction false} EndsAtEnd(fields: seq<seq<byte>>, i: nat, j: nat)
    requires i <= |fields| && EndsAt(fields, i, j).Some?
    ensures var n := EndsAt(fields, i, j).value; i <= n <= |fields| && End(fields, n) == End(fields, i) + j
    decreases |fields| - i
  {
    if j > 0 { EndsAtEnd(fields, i + 1, j - |fields[i]|); }
  }

  lemma {:induction false} EndIsFound(fields: seq<seq<byte>>, i: nat, n: nat)
    requires i <= n <= |fields|
    ensures End(fields, i) <= End(fields, n) && EndsAt(fields, i, End(fields, n) - End(fields, i)).Some?
    decreases |fields| - i
  {
    if i < n { EndIsFound(fields, i + 1, n); }
  }

  /** A parser reads the fields: at the end it has what it has, a whole field takes it from one stage to the next, and
      part of a field is an error. */
  ghost predicate Reads<E(!new)>(parse: (seq<byte>, E) -> Option<E>, fields: seq<seq<byte>>, stages: seq<E>) {
    && |stages| == |fields| + 1
    && (forall i | 0 <= i < |stages| :: parse([], stages[i]) == Some(stages[i]))
    && (forall i, rest | 0 <= i < |fields| && (i + 1 < |fields| || rest == []) ::
          parse(fields[i] + rest, stages[i]) == parse(rest, stages[i + 1]))
    && (forall i, t | 0 <= i < |fields| && 0 < t < |fields[i]| :: parse(fields[i][..t], stages[i]) == None)
  }

  /** Then it reads a beginning of the fields exactly if that stops at the end of one. */
  lemma {:induction false} ReadBeginning<E(!new)>(
      parse: (seq<byte>, E) -> Option<E>, fields: seq<seq<byte>>, stages: seq<E>, i: nat, j: nat)
    requires Reads(parse, fields, stages) && i <= |fields| && j <= |Concat(fields, i)|
    ensures parse(Concat(fields, i)[..j], stages[i])
            == match EndsAt(fields, i, j)
               case None => None
               case Some(n) => if n <= |fields| then Some(stages[n]) else None
    decreases |fields| - i
  {
    if j > 0 {
      var field, rest := fields[i], Concat(fields, i + 1);
      if j < |field| {
        assert (field + rest)[..j] == field[..j];
      } else {
        var behind := rest[..j - |field|];
        assert (field + rest)[..j] == field + behind;
        ReadBeginning(parse, fields, stages, i + 1, j - |field|);
      }
    } else {
      assert Concat(fields, i)[..0] == [];
    }
  }

  // ---------- the envelope's fields ----------

  /** Where the first `n` fields of the encoding end. */
  function FieldEnd(env: Envelope, n: nat): nat
    requires InRange(env) && n <= 4
  {
    End(Fields(env), n)
  }

  ghost predicate AtFieldEnd(env: Envelope, j: nat)
    requires InRange(env)
  {
    exists n :: 0 <= n <= 4 && FieldEnd(env, n) == j
  }

  lemma MarshalFields(env: Envelope)
    requires InRange(env)
    ensures Marshal(env) == Concat(Fields(env), 0) && |Marshal(env)| == FieldEnd(env, 4)
  {
    var fields := Fields(env);
    ConcatFour(fields);
    assert Marshal(env) == fields[0] + (fields[1] + (fields[2] + fields[3]));
  }

  lemma ConcatFour(fields: seq<seq<byte>>)
    requires |fields| == 4
    ensures Concat(fields, 0) == fields[0] + (fields[1] + (fields[2] + fields[3]))
    ensures End(fields, 4) == |fields[0]| + |fields[1]| + |fields[2]| + |fields[3]|
  {
    assert Concat(fields, 3) == fields[3] + [] == fields[3];
    assert Concat(fields, 2) == fields[2] + fields[3];
    assert Concat(fields, 1) == fields[1] + (fields[2] + fields[3]);
    assert End(fields, 1) == |fields[0]|;
    assert End(fields, 2) == End(fields, 1) + |fields[1]|;
    assert End(fields, 3) == End(fields, 2) + |fields[2]|;
  }

  // ---------- broken fields ----------

  lemma {:induction false} VarintCut(x: nat, t: nat, room: nat)
    requires t < |EncodeVarint(x)|
    ensures DecodeVarint(EncodeVarint(x)[..t], room) == Failed
  {
    if t > 0 && room > 0 {
      VarintCut(x / 128, t - 1, room - 1);
      assert EncodeVarint(x)[..t][1..] == EncodeVarint(x / 128)[..t - 1];
    }
  }

  lemma KeyRead(key: byte, rest: seq<byte>)
    requires key < 128
    ensures DecodeVarint([key] + rest, 10) == Parsed(key, rest)
  {
    assert ([key] + rest)[1..] == rest;
  }

  lemma VarintFieldCut(key: byte, v: int, t: nat, env: Envelope)
    requires key == MSG_ID_KEY || key == SESSION_ID_KEY || key == PLAYER_ID_KEY
    requires -TWO_63 <= v < TWO_63 && 0 < t < |VarintField(key, v)|
    ensures ParseFields(VarintField(key, v)[..t], env) == None
  {
    var part := EncodeVarint(ToUnsigned(v))[..t - 1];
    VarintCut(ToUnsigned(v), t - 1, 10);
    KeyRead(key, part);
    assert VarintField(key, v)[..t] == [key] + part;
  }

  lemma BytesFieldCut(data: seq<byte>, t: nat, env: Envelope)
    requires |data| < TWO_64 && 0 < t < |BytesField(PAYLOAD_KEY, data)|
    ensures ParseFields(BytesField(PAYLOAD_KEY, data)[..t], env) == None
  {
    var length := EncodeVarint(|data|);
    var part := (length + data)[..t - 1];
    KeyRead(PAYLOAD_KEY, part);
    assert BytesField(PAYLOAD_KEY, data)[..t] == [PAYLOAD_KEY] + part;
    BytesCut(data, t - 1);
  }

  lemma BytesCut(data: seq<byte>, t: nat)
    requires |data| < TWO_64 && t < |EncodeVarint(|data|)| + |data|
    ensures DecodeBytes((EncodeVarint(|data|) + data)[..t]) == Failed
  {
    var length := EncodeVarint(|data|);
    if t < |length| {
      VarintCut(|data|, t, 10);
      assert (length + data)[..t] == length[..t];
    } else {
      Varint64RoundTrip(|data|, data[..t - |length|]);
      assert (length + data)[..t] == length + data[..t - |length|];
    }
  }

  lemma FieldCut(env: Envelope, i: nat, t: nat)
    requires InRange(env) && i < 4 && 0 < t < |FieldBytes(env, i)|
    ensures ParseFields(FieldBytes(env, i)[..t], FirstFields(env, i)) == None
  {
    if i == 0 { VarintFieldCut(MSG_ID_KEY, env.msgId, t, FirstFields(env, i)); }
    else if i == 1 { VarintFieldCut(SESSION_ID_KEY, env.sessionId, t, FirstFields(env, i)); }
    else if i == 2 { VarintFieldCut(PLAYER_ID_KEY, env.playerId, t, FirstFields(env, i)); }
    else { BytesFieldCut(env.payload, t, FirstFields(env, i)); }
  }

  /** A whole field is read, and parsing goes on behind it. */
  lemma FieldRead(env: Envelope, i: nat, rest: seq<byte>)
    requires InRange(env) && i < 3
    ensures ParseFields(FieldBytes(env, i) + rest, FirstFields(env, i)) == ParseFields(rest, FirstFields(env, i + 1))
  {
    var e := FirstFields(env, i);
    if i == 0 { VarintFieldParsed(MSG_ID_KEY, env.msgId, rest, e); }
    else if i == 1 { VarintFieldParsed(SESSION_ID_KEY, env.sessionId, rest, e); }
    else { VarintFieldParsed(PLAYER_ID_KEY, env.playerId, rest, e); }
  }

  // ---------- beginnings of an encoding ----------

  function Stages(env: Envelope): seq<Envelope> {
    [FirstFields(env, 0), FirstFields(env, 1), FirstFields(env, 2), FirstFields(env, 3), FirstFields(env, 4)]
  }

  lemma LastFieldRead(env: Envelope)
    requires InRange(env)
    ensures ParseFields(FieldBytes(env, 3) + [], FirstFields(env, 3)) == ParseFields([], FirstFields(env, 4))
  {
    assert FieldBytes(env, 3) + [] == FieldBytes(env, 3);
    BytesFieldParsed(env.payload, FirstFields(env, 3));
  }

  lemma FieldsRead(env: Envelope)
    requires InRange(env)
    ensures Reads((b, e) => ParseFields(b, e), Fields(env), Stages(env))
  {
    var fields, stages := Fields(env), Stages(env);
    forall i, rest | 0 <= i < 4 && (i < 3 || rest == [])
      ensures ParseFields(fields[i] + rest, stages[i]) == ParseFields(rest, stages[i + 1])
    {
      if i < 3 { FieldRead(env, i, rest); } else { LastFieldRead(env); }
    }
    forall i, t | 0 <= i < 4 && 0 < t < |fields[i]| ensures ParseFields(fields[i][..t], stages[i]) == None {
      FieldCut(env, i, t);
    }
  }

  lemma StageIs(env: Envelope, n: nat)
    requires n <= 4
    ensures Stages(env)[n] == FirstFields(env, n)
  {}

  lemma FieldsBeginning(env: Envelope, fields: seq<seq<byte>>, stages: seq<Envelope>, j: nat)
    requires InRange(env) && fields == Fields(env) && stages == Stages(env) && j <= |Concat(fields, 0)|
    ensures ParseFields(Concat(fields, 0)[..j], stages[0])
            == match EndsAt(fields, 0, j)
               case None => None
               case Some(n) => if n <= 4 then Some(stages[n]) else None
  {
    FieldsRead(env);
    ReadBeginning((b, e) => ParseFields(b, e), fields, stages, 0, j);
  }

  lemma Beginning(env: Envelope, j: nat)
    requires InRange(env) && j <= |Marshal(env)|
    ensures Unmarshal(Marshal(env)[..j])
            == match EndsAt(Fields(env), 0, j)
               case None => None
               case Some(n) => if n <= 4 then Some(FirstFields(env, n)) else None
  {
    MarshalFields(env);
    FieldsBeginning(env, Fields(env), Stages(env), j);
    StageIs(env, 0);
    match EndsAt(Fields(env), 0, j)
    case None =>
    case Some(n) => if n <= 4 { StageIs(env, n); }
  }

  /** Fields that take no bytes are default anyway. */
  lemma {:induction false} SameEnd(env: Envelope, n: nat, m: nat)
    requires InRange(env) && n <= m <= 4 && FieldEnd(env, n) == FieldEnd(env, m)
    ensures FirstFields(env, n) == FirstFields(env, m)
  {
    if n < m {
      EndIsFound(Fields(env), n, m - 1);
      SameEnd(env, n, m - 1);
      assert FieldBytes(env, m - 1) == [];
    }
  }

  /** A field that ends at byte `j`, as the parser finds it. */
  lemma EndOf(env: Envelope, n: nat, j: nat) returns (m: nat)
    requires InRange(env) && n <= 4 && j == FieldEnd(env, n)
    ensures m <= 4 && EndsAt(Fields(env), 0, j) == Some(m) && FirstFields(env, m) == FirstFields(env, n)
  {
    EndIsFound(Fields(env), 0, n);
    EndsAtEnd(Fields(env), 0, j);
    m := EndsAt(Fields(env), 0, j).value;
    if n <= m { SameEnd(env, n, m); } else { SameEnd(env, m, n); }
  }

  /** A beginning of an encoding decodes exactly if it stops at the end of a field, and then to the envelope with the
      later fields default. */
  lemma PartDecodes(env: Envelope, j: nat)
    requires InRange(env) && j <= |Marshal(env)|
    ensures Unmarshal(Marshal(env)[..j]).Some? <==> AtFieldEnd(env, j)
    ensures forall n | 0 <= n <= 4 && FieldEnd(env, n) == j :: Unmarshal(Marshal(env)[..j]) == Some(FirstFields(env, n))
  {
    Beginning(env, j);
    if EndsAt(Fields(env), 0, j).Some? {
      EndsAtEnd(Fields(env), 0, j);
      assert FieldEnd(env, EndsAt(Fields(env), 0, j).value) == j;
    }
    if AtFieldEnd(env, j) {
      var n :| 0 <= n <= 4 && FieldEnd(env, n) == j;
      var m := EndOf(env, n, j);
    }
    forall n | 0 <= n <= 4 && FieldEnd(env, n) == j
      ensures Unmarshal(Marshal(env)[..j]) == Some(FirstFields(env, n))
    {
      var m := EndOf(env, n, j);
    }
  }

  /** Stopping short of the whole encoding loses a field that is not default. */
  lemma PartIsForged(env: Envelope, n: nat)
    requires InRange(env) && n <= 4 && FieldEnd(env, n) < |Marshal(env)|
    ensures FirstFields(env, n) != env
  {
    MarshalFields(env);
    if FirstFields(env, n) == env { DefaultsEnd(env, n, 4); }
  }

  lemma {:induction false} DefaultsEnd(env: Envelope, n: nat, m: nat)
    requires InRange(env) && n <= m <= 4 && FirstFields(env, n) == env
    ensures FieldEnd(env, m) == FieldEnd(env, n)
  {
    if n < m {
      DefaultsEnd(env, n, m - 1);
      assert FieldBytes(env, m - 1) == [];
    }
  }
}
