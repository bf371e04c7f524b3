/** Frames on a stream that is written, broken off and cut anywhere: the programs' readers and writers. */
module Streams {
  import opened Prelude
  import opened Protocol
  import opened Wire
  import opened Framing

  // ---------- what a reader gets, chunk by chunk ----------

  /** One read of at most `n` bytes, and the chunks it leaves. */
  function ReadChunk(chunks: seq<seq<byte>>, n: nat): (seq<byte>, seq<seq<byte>>)
    requires |chunks| > 0
  {
    if |chunks[0]| <= n then (chunks[0], chunks[1..]) else (chunks[0][..n], [chunks[0][n..]] + chunks[1..])
  }

  /** The client's exact read: what it gets, None at the end of the stream, the chunks it leaves, and how often it will
      still find that it is to go on. */
  function ReadExact(chunks: seq<seq<byte>>, n: nat, polls: nat): (r: (Option<seq<byte>>, seq<seq<byte>>, nat))
    ensures r.2 <= polls
    decreases polls
  {
    if n == 0 || polls == 0 then (Some([]), chunks, polls)
    else if chunks == [] then (None, chunks, polls - 1)
    else
      var (data, rest) := ReadChunk(chunks, n);
      var (more, rest', left) := ReadExact(rest, n - |data|, polls - 1);
      (if more == None then None else Some(data + more.value), rest', left)
  }

  /** One round of the client's loop. */
  function ReadRound(chunks: seq<seq<byte>>, polls: nat): (r: (Round, seq<seq<byte>>, nat))
    ensures r.2 <= polls
  {
    var (header, rest, left) := ReadExact(chunks, 4, polls);
    if header == None then (Ended, rest, left)
    else if |header.value| != 4 then (Interrupted(|header.value|, []), rest, left)
    else
      var size := FromBigEndian32(header.value);
      var (body, rest', left') := ReadExact(rest, size, left);
      if body == None || size == 0 then (Ended, rest', left')
      else if body.value == [] then (Interrupted(4, []), rest', left')
      else match Unmarshal(body.value)
        case None => (Interrupted(4 + |body.value|, []), rest', left')
        case Some(env) =>
          (if |body.value| < size then Interrupted(4 + |body.value|, [env]) else Complete(env, 4 + |body.value|),
           rest', left')
  }

  /** Everything the client hands on. */
  function HandedOn(chunks: seq<seq<byte>>, polls: nat): seq<Envelope>
    decreases polls
  {
    if polls == 0 then []
    else
      var (r, rest, left) := ReadRound(chunks, polls - 1);
      match r
      case Ended => []
      case Interrupted(_, envs) => envs
      case Complete(env, _) => [env] + HandedOn(rest, left)
  }

  // ---------- the same, byte by byte ----------

  lemma ReadChunkBytes(chunks: seq<seq<byte>>, n: nat)
    requires chunks != []
    ensures var (data, rest) := ReadChunk(chunks, n);
            |data| <= n && Flatten(chunks) == data + Flatten(rest)
  {
    var (data, rest) := ReadChunk(chunks, n);
    if |chunks[0]| > n {
      assert rest[1..] == chunks[1..];
      Appended(data, rest[0], Flatten(chunks[1..]));
      assert chunks[0] == data + rest[0];
    }
  }

  /** An exact read takes the stream's next bytes, fewer only when it is told to stop, none at the end of the stream. */
  lemma {:induction false} ReadExactBytes(chunks: seq<seq<byte>>, n: nat, polls: nat)
    ensures var (data, rest, left) := ReadExact(chunks, n, polls);
            match data
            case None => |Flatten(chunks)| < n
            case Some(d) => |d| <= n && Flatten(chunks) == d + Flatten(rest) && (|d| < n ==> left == 0)
    decreases polls
  {
    if n > 0 && polls > 0 && chunks != [] {
      var (data, rest) := ReadChunk(chunks, n);
      ReadChunkBytes(chunks, n);
      ReadExactBytes(rest, n - |data|, polls - 1);
      var (more, rest', left) := ReadExact(rest, n - |data|, polls - 1);
      if more.Some? { Appended(data, more.value, Flatten(rest')); }
    }
  }

  /** A round does to the stream's bytes what its result says. */
  ghost predicate Describes(stream: seq<byte>, r: Round, behind: seq<byte>) {
    EndsIn(stream, r) && (r.Complete? ==> behind == stream[r.n..])
  }

  lemma RoundBytes(chunks: seq<seq<byte>>, polls: nat)
    ensures var (r, rest, left) := ReadRound(chunks, polls); Describes(Flatten(chunks), r, Flatten(rest))
  {
    var (header, rest, left) := ReadExact(chunks, 4, polls);
    ReadExactBytes(chunks, 4, polls);
    if header == None {
      NoHeader(Flatten(chunks));
    } else if |header.value| != 4 {
      PartOfHeader(header.value, Flatten(rest));
    } else {
      var size := FromBigEndian32(header.value);
      var (body, rest', left') := ReadExact(rest, size, left);
      ReadExactBytes(rest, size, left);
      if body == None || size == 0 {
        NoBody(header.value, Flatten(rest));
      } else {
        RoundBody(header.value, body.value, Flatten(rest'), size);
        assert Flatten(chunks) == header.value + (body.value + Flatten(rest'));
      }
    }
  }

  lemma NoHeader(stream: seq<byte>)
    requires |stream| < 4
    ensures Received(stream) == []
  {}

  lemma PartOfHeader(part: seq<byte>, behind: seq<byte>)
    requires |part| < 4
    ensures (part + behind)[..|part|] == part && ReceivedCut(part) == []
  {}

  lemma NoBody(header: seq<byte>, behind: seq<byte>)
    requires |header| == 4 && (FromBigEndian32(header) == 0 || |behind| < FromBigEndian32(header))
    ensures Received(header + behind) == []
  {
    assert (header + behind)[..4] == header && (header + behind)[4..] == behind;
  }

  lemma RoundBody(header: seq<byte>, body: seq<byte>, behind: seq<byte>, size: nat)
    requires |header| == 4 && FromBigEndian32(header) == size > 0 && |body| <= size
    ensures var stream, n := header + (body + behind), 4 + |body|;
            match Unmarshal(body)
            case None => body != [] ==> Describes(stream, Interrupted(n, []), behind)
            case Some(env) =>
              if body == [] then Describes(stream, Interrupted(4, []), behind)
              else Describes(stream, if |body| < size then Interrupted(n, [env]) else Complete(env, n), behind)
  {
    var stream, n := header + (body + behind), 4 + |body|;
    var part := header + body;
    Appended(header, body, behind);
    assert stream[..n] == part && stream[n..] == behind && stream[4..n] == body;
    assert part[..4] == header && part[4..] == body && stream[..4] == header;
    if body != [] { CutOne(part, size); }
  }

  lemma YieldsEarly(stream: seq<byte>, env: Envelope, n: nat, cut: nat)
    requires Yields(stream, env, n) && n + cut <= |stream|
    ensures ReceivedCut(stream[..n + cut]) == [env] + ReceivedCut(stream[n..][..cut])
  {
    var part := stream[..n + cut];
    assert part[..4] == stream[..4] && part[4..n] == stream[4..n] && part[n..] == stream[n..][..cut];
    YieldsCut(part, env, n);
  }

  /** The client has handed on what the whole stream says, or, if it was told to stop, what the `cut` bytes say that it
      had read by then. */
  ghost predicate Explains(stream: seq<byte>, envs: seq<Envelope>, stopped: bool, cut: nat) {
    if stopped then cut <= |stream| && envs == ReceivedCut(stream[..cut]) else envs == Received(stream)
  }

  lemma ExplainsMore(stream: seq<byte>, env: Envelope, n: nat, envs: seq<Envelope>, stopped: bool, cut: nat)
    requires Yields(stream, env, n) && Explains(stream[n..], envs, stopped, cut)
    ensures Explains(stream, [env] + envs, stopped, n + cut)
  {
    if stopped { YieldsEarly(stream, env, n, cut); } else { YieldsFirst(stream, env, n); }
  }

  lemma ExplainsEnd(stream: seq<byte>, r: Round)
    requires EndsIn(stream, r)
    ensures match r
            case Ended => Explains(stream, [], false, 0)
            case Interrupted(n, envs) => Explains(stream, envs, true, n)
            case Complete(_, _) => true
  {}

  lemma NothingRead(stream: seq<byte>)
    ensures Explains(stream, [], true, 0)
  {}

  lemma {:induction false} HandedOnBytes(chunks: seq<seq<byte>>, polls: nat) returns (stopped: bool, cut: nat)
    ensures Explains(Flatten(chunks), HandedOn(chunks, polls), stopped, cut)
    decreases polls
  {
    stopped, cut := true, 0;
    if polls == 0 {
      NothingRead(Flatten(chunks));
    } else {
      var (r, rest, left) := ReadRound(chunks, polls - 1);
      RoundBytes(chunks, polls - 1);
      ExplainsEnd(Flatten(chunks), r);
      match r {
        case Ended => stopped := false;
        case Interrupted(n, _) => cut := n;
        case Complete(env, n) =>
          stopped, cut := HandedOnBytes(rest, left);
          ExplainsMore(Flatten(chunks), env, n, HandedOn(rest, left), stopped, cut);
          cut := n + cut;
      }
    }
  }

  /** A read's result when `got` came before it. */
  function Behind(got: seq<byte>, r: (Option<seq<byte>>, seq<seq<byte>>, nat))
    : (Option<seq<byte>>, seq<seq<byte>>, nat)
  {
    (if r.0 == None then None else Some(got + r.0.value), r.1, r.2)
  }

  lemma BehindNothing(r: (Option<seq<byte>>, seq<seq<byte>>, nat))
    ensures Behind([], r) == r
  {
    if r.0.Some? { assert [] + r.0.value == r.0.value; }
  }

  lemma NothingBehind(got: seq<byte>, chunks: seq<seq<byte>>, left: nat)
    ensures Behind(got, (Some([]), chunks, left)) == (Some(got), chunks, left)
  {
    assert got + [] == got;
  }

  lemma BehindNext(got: seq<byte>, chunks: seq<seq<byte>>, n: nat, polls: nat)
    requires chunks != [] && n > 0
    ensures var (data, rest) := ReadChunk(chunks, n);
            Behind(got, ReadExact(chunks, n, polls + 1)) == Behind(got + data, ReadExact(rest, n - |data|, polls))
  {
    var (data, rest) := ReadChunk(chunks, n);
    var r := ReadExact(rest, n - |data|, polls);
    if r.0.Some? { Appended(got, data, r.0.value); }
  }

  /** A byte stream cut into arbitrary chunks; it ends after the last one. */
  class Stream {
    var chunks: seq<seq<byte>>

    function Bytes(): seq<byte>
      reads this
    {
      Flatten(chunks)
    }

    constructor (chunks: seq<seq<byte>>)
      ensures this.chunks == chunks
    {
      this.chunks := chunks;
    }

    /** At most `n` bytes, never across a chunk's end; nothing from an empty chunk. */
    method Read(n: nat) returns (data: seq<byte>)
      requires |chunks| > 0
      modifies this
      ensures |data| <= n && old(Bytes()) == data + Bytes()
      ensures (data, chunks) == ReadChunk(old(chunks), n)
      ensures |chunks| < |old(chunks)| || (|chunks| == |old(chunks)| && (n > 0 ==> |data| > 0))
    {
      var first := chunks[0];
      if |first| <= n {
        data := first;
        chunks := chunks[1..];
      } else {
        data := first[..n];
        assert first == first[..n] + first[n..];
        chunks := [first[n..]] + chunks[1..];
        assert chunks[1..] == old(chunks)[1..];
      }
    }

    method ReadFull(n: nat) returns (r: Outcome<seq<byte>>)
      modifies this
      ensures r == TakeFull(old(Bytes()), n) && r.rest == Bytes()
    {
      var data := [];
      while |data| < n && |chunks| > 0
        invariant |data| <= n && old(Bytes()) == data + Bytes()
        decreases |chunks|, n - |data|
      {
        var piece := Read(n - |data|);
        data := data + piece;
      }
      if |data| == n {
        r := Got(data, Bytes());
      } else {
        r := Error(if data == [] then EOF else UnexpectedEOF, []);
      }
    }

    method ReadEnvelope(max: nat) returns (r: Outcome<Envelope>)
      modifies this
      ensures r == TakeEnvelope(old(Bytes()), max) && r.rest == Bytes()
    {
      var header := ReadFull(4);
      if header.Error? { return Error(header.error, header.rest); }
      var size := FromBigEndian32(header.value);
      if max > 0 && size > max { return Error(TooLarge, header.rest); }
      var data := ReadFull(size);
      if data.Error? { return Error(data.error, data.rest); }
      var env := Unmarshal(data.value);
      if env == None { return Error(Malformed, data.rest); }
      return Got(env.value, data.rest);
    }

    /** A server's read loop. */
    method ReadAll(max: nat) returns (envs: seq<Envelope>, error: ReadError)
      modifies this
      ensures Transcript(envs, error) == TakeAll(old(Bytes()), max)
    {
      envs := [];
      ghost var whole := Bytes();
      while true
        invariant TakeAll(whole, max) == TakeAll(Bytes(), max).(envs := envs + TakeAll(Bytes(), max).envs)
        decreases |Bytes()|
      {
        ghost var stream := Bytes();
        var r := ReadEnvelope(max);
        if r.Got? { TakeOne(stream, r.value, Bytes(), max); }
        if r.Error? { return envs, r.error; }
        envs := envs + [r.value];
      }
    }

    /** The client's exact read. `polls` is how often the client still finds that it is to go on. */
    method RecvExact(n: nat, polls: nat) returns (data: Option<seq<byte>>, left: nat)
      modifies this
      ensures (data, chunks, left) == ReadExact(old(chunks), n, polls)
    {
      var got := [];
      left := polls;
      ghost var start := chunks;
      BehindNothing(ReadExact(start, n, polls));
      while |got| < n && left > 0
        invariant |got| <= n && ReadExact(start, n, polls) == Behind(got, ReadExact(chunks, n - |got|, left))
        decreases left
      {
        left := left - 1;
        if |chunks| == 0 { return None, left; }
        ghost var before, already := chunks, got;
        var chunk := Read(n - |got|);
        got := got + chunk;
        BehindNext(already, before, n - |already|, left);
      }
      NothingBehind(got, chunks, left);
      return Some(got), left;
    }

    /** One round of the client's loop. */
    method RecvFrame(polls: nat) returns (r: Round, left: nat)
      modifies this
      ensures (r, chunks, left) == ReadRound(old(chunks), polls)
    {
      var header, body;
      header, left := RecvExact(4, polls);
      if header == None { return Ended, left; }
      if |header.value| != 4 { return Interrupted(|header.value|, []), left; }
      var size := FromBigEndian32(header.value);
      body, left := RecvExact(size, left);
      if body == None || size == 0 { return Ended, left; }
      if body.value == [] { return Interrupted(4, []), left; }
      var n := 4 + |body.value|;
      var env := Unmarshal(body.value);
      if env == None { return Interrupted(n, []), left; }
      return if |body.value| < size then Interrupted(n, [env.value]) else Complete(env.value, n), left;
    }

    /** The client's receive loop: an empty body counts as the end of the connection. It ends with the stream, or
        stopped after reading `cut` bytes when it no longer is to go on. */
    method RecvLoop(polls: nat) returns (envs: seq<Envelope>, ghost stopped: bool, ghost cut: nat)
      modifies this
      ensures envs == HandedOn(old(chunks), polls)
      ensures Explains(old(Bytes()), envs, stopped, cut)
    {
      stopped, cut := HandedOnBytes(chunks, polls);
      envs := RecvAll(polls);
    }

    method RecvAll(polls: nat) returns (envs: seq<Envelope>)
      modifies this
      ensures envs == HandedOn(old(chunks), polls)
    {
      ghost var start := chunks;
      envs := [];
      var left := polls;
      while left > 0
        invariant HandedOn(start, polls) == envs + HandedOn(chunks, left)
        decreases left
      {
        var r;
        ghost var before, polled := chunks, left;
        r, left := RecvFrame(left - 1);
        match r {
          case Ended => return;
          case Interrupted(_, last) => return envs + last;
          case Complete(env, _) =>
            Appended(envs, [env], HandedOn(chunks, left));
            envs := envs + [env];
        }
      }
    }
  }

  /** How a round of the client's loop ends: with the stream, stopped after `n` bytes with what it then hands on, or
      with an envelope and its `n` bytes. */
  datatype Round = Ended | Interrupted(n: nat, envs: seq<Envelope>) | Complete(env: Envelope, n: nat)

  /** A round that begins with this stream can end so. */
  predicate EndsIn(stream: seq<byte>, r: Round) {
    match r
    case Ended => Received(stream) == []
    case Interrupted(n, envs) => n <= |stream| && envs == ReceivedCut(stream[..n])
    case Complete(env, n) => Yields(stream, env, n)
  }

  /** The writing side, and the process-wide size limit. */
  class Transport {
    var out: seq<byte>
    var maxEnvelopeSize: nat

    constructor ()
      ensures out == [] && maxEnvelopeSize == DEFAULT_MAX_ENVELOPE_SIZE
    {
      out, maxEnvelopeSize := [], DEFAULT_MAX_ENVELOPE_SIZE;
    }

    method SetMaxEnvelopeSize(size: nat)
      modifies `maxEnvelopeSize
      ensures maxEnvelopeSize == if size == 0 then DEFAULT_MAX_ENVELOPE_SIZE else size
    {
      maxEnvelopeSize := if size == 0 then DEFAULT_MAX_ENVELOPE_SIZE else size;
    }

    /** One write to the connection, which still takes `room` bytes before it fails. */
    method Write(data: seq<byte>, room: nat) returns (ok: bool, left: nat)
      modifies `out
      ensures ok == (|data| <= room) && out == old(out) + UpTo(data, room)
      ensures ok ==> left == room - |data|
    {
      ok := |data| <= room;
      out := out + UpTo(data, room);
      left := if ok then room - |data| else 0;
    }

    method WriteEnvelope(env: Envelope, room: nat) returns (ok: bool, left: nat)
      requires InRange(env)
      modifies `out
      ensures ok == (|Frame(env)| <= room) && out == old(out) + UpTo(Frame(env), room)
      ensures ok ==> left == room - |Frame(env)|
    {
      var data := Marshal(env);
      var header := BigEndian32(|data|);
      ghost var before := out;
      UpToBoth(header, data, room);
      ok, left := Write(header, room);
      if !ok { return; }
      Appended(before, header, UpTo(data, left));
      ok, left := Write(data, left);
    }

    /** A sender that stops at the first failed write. */
    method WriteAll(envs: seq<Envelope>, room: nat) returns (ok: bool)
      requires AllInRange(envs)
      modifies `out
      ensures ok == (|Frames(envs)| <= room) && out == old(out) + UpTo(Frames(envs), room)
    {
      FramesFlatten(envs);
      ok := WriteFrames(envs, room, FrameList(envs));
    }

    method WriteFrames(envs: seq<Envelope>, room: nat, ghost frames: seq<seq<byte>>) returns (ok: bool)
      requires AllInRange(envs) && frames == FrameList(envs)
      modifies `out
      ensures ok == (|Flatten(frames)| <= room) && out == old(out) + UpTo(Flatten(frames), room)
    {
      ghost var start, sent := out, [];
      var left := room;
      for i := 0 to |envs|
        invariant sent == Flatten(frames[..i]) && out == start + sent && left == room - |sent|
      {
        ghost var sent' := UpToNext(frames, i, room, sent);
        ghost var frame, before, room' := frames[i], sent, left;
        ok, left := WriteEnvelope(envs[i], left);
        Appended(start, before, UpTo(frame, room'));
        sent := sent';
        if !ok { return; }
      }
      assert frames[..|envs|] == frames;
      ok := true;
    }
  }

  /** What gets through of `data` when the connection breaks after `room` bytes. */
  function UpTo(data: seq<byte>, room: nat): seq<byte> {
    if |data| <= room then data else data[..room]
  }

  lemma UpToBoth(p: seq<byte>, q: seq<byte>, room: nat)
    ensures UpTo(p + q, room) == if |p| <= room then p + UpTo(q, room - |p|) else UpTo(p, room)
  {}

  lemma Appended<T>(a: seq<T>, b: seq<T>, c: seq<T>)
    ensures a + b + c == a + (b + c)
  {}

  lemma UpToNext(chunks: seq<seq<byte>>, i: nat, room: nat, sent: seq<byte>) returns (sent': seq<byte>)
    requires i < |chunks| && sent == Flatten(chunks[..i]) && |sent| <= room
    ensures sent' == Flatten(chunks[..i + 1]) == sent + chunks[i]
    ensures |chunks[i]| > room - |sent| ==>
              UpTo(Flatten(chunks), room) == sent + UpTo(chunks[i], room - |sent|) && |Flatten(chunks)| > room
  {
    FlattenStep(chunks, i);
    sent' := sent + chunks[i];
    if |chunks[i]| > room - |sent| { BrokenOff(chunks, i, room); }
  }

  /** The first `i` chunks, then the next one. */
  lemma {:induction false} FlattenStep(chunks: seq<seq<byte>>, i: nat)
    requires i < |chunks|
    ensures Flatten(chunks[..i + 1]) == Flatten(chunks[..i]) + chunks[i]
    ensures Flatten(chunks[..i + 1]) <= Flatten(chunks)
  {
    if i == 0 {
      assert chunks[..1][1..] == [];
    } else {
      FlattenStep(chunks[1..], i - 1);
      assert chunks[..i + 1][1..] == chunks[1..][..i] && chunks[..i][1..] == chunks[1..][..i - 1];
    }
  }

  lemma BrokenOff(chunks: seq<seq<byte>>, i: nat, k: nat)
    requires i < |chunks| && |Flatten(chunks[..i])| <= k < |Flatten(chunks[..i])| + |chunks[i]|
    ensures k < |Flatten(chunks)|
    ensures Flatten(chunks)[..k] == Flatten(chunks[..i]) + chunks[i][..k - |Flatten(chunks[..i])|]
  {
    FlattenStep(chunks, i);
    CutInside(Flatten(chunks[..i]), chunks[i], k);
    assert Flatten(chunks)[..k] == Flatten(chunks[..i + 1])[..k];
  }

  /** A byte sequence cut into pieces of the given sizes, and a last one. */
  function Cut(b: seq<byte>, sizes: seq<nat>): (chunks: seq<seq<byte>>)
    ensures Flatten(chunks) == b
  {
    if sizes == [] then
      assert Flatten([b]) == b + Flatten([]);
      [b]
    else
      var n := Min(sizes[0], |b|);
      var rest := Cut(b[n..], sizes[1..]);
      assert ([b[..n]] + rest)[1..] == rest;
      [b[..n]] + rest
  }

  /** Every way of cutting is one of these. */
  lemma {:induction false} CutsAreAll(chunks: seq<seq<byte>>) returns (sizes: seq<nat>)
    ensures Cut(Flatten(chunks), sizes) == chunks + [[]]
  {
    if chunks == [] {
      sizes := [];
    } else {
      var rest := CutsAreAll(chunks[1..]);
      sizes := [|chunks[0]|] + rest;
      var b := Flatten(chunks);
      assert b[..|chunks[0]|] == chunks[0] && b[|chunks[0]|..] == Flatten(chunks[1..]) && sizes[1..] == rest;
      assert chunks == [chunks[0]] + chunks[1..];
    }
  }

  /** From one side to the other: what is written, cut in any way, is what is read, with nothing left over. When the
      connection breaks after `room` bytes, exactly the envelopes that got through whole are read. */
  method Exchange(envs: seq<Envelope>, room: nat, sizes: seq<nat>, limit: nat)
    returns (got: seq<Envelope>, error: ReadError)
    requires AllFit(envs, if limit == 0 then DEFAULT_MAX_ENVELOPE_SIZE else limit)
    ensures ReadExactly(envs, room, got, error)
  {
    var max;
    var bytes;
    max, bytes := Sent(envs, room, limit);
    ExchangeExact(envs, room, max, bytes);
    var stream := new Stream(Cut(bytes, sizes));
    got, error := stream.ReadAll(max);
  }

  /** The size limit in force, and the bytes a new connection carries. */
  method Sent(envs: seq<Envelope>, room: nat, limit: nat) returns (max: nat, bytes: seq<byte>)
    requires AllInRange(envs)
    ensures max == if limit == 0 then DEFAULT_MAX_ENVELOPE_SIZE else limit
    ensures bytes == UpTo(Frames(envs), room)
  {
    var t := new Transport();
    t.SetMaxEnvelopeSize(limit);
    var ok := t.WriteAll(envs, room);
    return t.maxEnvelopeSize, t.out;
  }

  /** What is read when the stream breaks off after `room` bytes. */
  ghost predicate ReadExactly(envs: seq<Envelope>, room: nat, got: seq<Envelope>, error: ReadError)
    requires AllInRange(envs)
  {
    if |Frames(envs)| <= room then got == envs && error == EOF
    else got < envs && |Frames(got)| <= room < |Frames(envs[..|got| + 1])|
  }

  lemma ExchangeExact(envs: seq<Envelope>, room: nat, max: nat, bytes: seq<byte>)
    requires AllFit(envs, max) && bytes == UpTo(Frames(envs), room)
    ensures ReadExactly(envs, room, TakeAll(bytes, max).envs, TakeAll(bytes, max).error)
  {
    if |Frames(envs)| <= room {
      ExchangeWhole(envs, room, max, bytes);
    } else {
      ExchangeBroken(envs, room, max, bytes);
    }
  }

  lemma ExchangeWhole(envs: seq<Envelope>, room: nat, max: nat, bytes: seq<byte>)
    requires AllFit(envs, max) && |Frames(envs)| <= room && bytes == Frames(envs)
    ensures ReadExactly(envs, room, TakeAll(bytes, max).envs, TakeAll(bytes, max).error)
  {
    FramesReadBack(envs, max);
  }

  lemma ExchangeBroken(envs: seq<Envelope>, room: nat, max: nat, bytes: seq<byte>)
    requires AllFit(envs, max) && room < |Frames(envs)| && bytes == Frames(envs)[..room]
    ensures ReadExactly(envs, room, TakeAll(bytes, max).envs, TakeAll(bytes, max).error)
  {
    BrokenFramesReadBack(envs, room, max, TakeAll(bytes, max).envs);
  }

  /** Two chunks and three looks at the flag are enough for the client's loop to hand on an envelope nobody sent. */
  lemma StopReached()
    ensures var sent := Envelope(1, 5, 0, []);
            && Fits(sent, 0) && |Frame(sent)| == 8
            && HandedOn([Frame(sent)[..6], Frame(sent)[6..]], 3) == [Envelope(1, 0, 0, [])]
  {
    var sent, short := Envelope(1, 5, 0, []), Envelope(1, 0, 0, []);
    assert Marshal(sent) == [8, 1, 16, 5] && Marshal(short) == [8, 1];
    BigEndianRoundTrip(4);
    RoundTrip(short);
    var f := Frame(sent);
    var first, second := f[..6], f[6..];
    assert first[..4] == BigEndian32(4) && first[4..] == [8, 1];
    ReadAcross(first, second);
    assert FromBigEndian32(first[..4]) == 4 && Unmarshal(first[4..]) == Some(short) && |first[4..]| == 2;
    RoundCutShort([first, second], 2, first[..4], [first[4..], second], 1, first[4..], [second], 0, short);
  }

  lemma RoundCutShort(
      chunks: seq<seq<byte>>, polls: nat, header: seq<byte>, rest: seq<seq<byte>>, left: nat,
      body: seq<byte>, rest': seq<seq<byte>>, left': nat, env: Envelope)
    requires ReadExact(chunks, 4, polls) == (Some(header), rest, left) && |header| == 4
    requires ReadExact(rest, FromBigEndian32(header), left) == (Some(body), rest', left')
    requires 0 < |body| < FromBigEndian32(header) && Unmarshal(body) == Some(env)
    ensures ReadRound(chunks, polls) == (Interrupted(4 + |body|, [env]), rest', left')
    ensures HandedOn(chunks, polls + 1) == [env]
  {}

  /** A chunk of six bytes and two looks: the four of a header, and two of what follows. */
  lemma ReadAcross(first: seq<byte>, second: seq<byte>)
    requires |first| == 6
    ensures ReadExact([first, second], 4, 2) == (Some(first[..4]), [first[4..], second], 1)
    ensures ReadExact([first[4..], second], 4, 1) == (Some(first[4..]), [second], 0)
  {
    NothingBehind(first[..4], [first[4..], second], 1);
    assert [first[4..]] + [first, second][1..] == [first[4..], second] && [first[4..], second][1..] == [second];
    assert ReadChunk([first, second], 4) == (first[..4], [first[4..], second]);
    BehindNext([], [first, second], 4, 1);
    BehindNothing(ReadExact([first, second], 4, 2));
    assert [] + first[..4] == first[..4];
    assert ReadExact([first[4..], second], 0, 1) == (Some([]), [first[4..], second], 1);
    NothingBehind(first[4..], [second], 0);
    assert ReadChunk([first[4..], second], 4) == (first[4..], [second]);
    BehindNext([], [first[4..], second], 4, 0);
    BehindNothing(ReadExact([first[4..], second], 4, 1));
    assert [] + first[4..] == first[4..];
  }
}
