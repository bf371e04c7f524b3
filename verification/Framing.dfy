/** Length-prefixed envelopes as bytes: what the servers and the Python client make of a stream of frames. */
module Framing {
  import opened Prelude
  import opened Protocol
  import opened Wire
  import opened WireParts

  const DEFAULT_MAX_ENVELOPE_SIZE := 4 * 1024 * 1024

  function BigEndian32(n: nat): (b: seq<byte>)
    ensures |b| == 4
  {
    var high, low := n / 0x1_0000, n % 0x1_0000;
    [high / 256 % 256, high % 256, low / 256, low % 256]
  }

  function FromBigEndian32(b: seq<byte>): nat
    requires |b| == 4
  {
    var b3: nat, b2: nat, b1: nat, b0: nat := b[0], b[1], b[2], b[3];
    b3 * 0x100_0000 + b2 * 0x1_0000 + b1 * 0x100 + b0
  }

  lemma BigEndianRoundTrip(n: nat)
    requires n < TWO_32
    ensures FromBigEndian32(BigEndian32(n)) == n
  {
    var high, low := n / 0x1_0000, n % 0x1_0000;
    assert high / 256 % 256 == high / 256;
    assert BigEndian32(n) == [high / 256, high % 256, low / 256, low % 256];
  }

  function Frame(env: Envelope): seq<byte>
    requires InRange(env)
  {
    BigEndian32(|Marshal(env)|) + Marshal(env)
  }

  predicate AllInRange(envs: seq<Envelope>) {
    forall i | 0 <= i < |envs| :: InRange(envs[i])
  }

  function Frames(envs: seq<Envelope>): seq<byte>
    requires AllInRange(envs)
  {
    if envs == [] then [] else Frame(envs[0]) + Frames(envs[1..])
  }

  function Flatten(chunks: seq<seq<byte>>): seq<byte> {
    if chunks == [] then [] else chunks[0] + Flatten(chunks[1..])
  }

  // ---------- the servers' reader ----------

  datatype ReadError = EOF | UnexpectedEOF | TooLarge | Malformed

  /** What one read yields, and the bytes it leaves. */
  datatype Outcome<+T> = Got(value: T, rest: seq<byte>) | Error(error: ReadError, rest: seq<byte>)

  /** Exactly `n` bytes, or everything there is and an error. */
  function TakeFull(stream: seq<byte>, n: nat): Outcome<seq<byte>> {
    if n <= |stream| then Got(stream[..n], stream[n..])
    else Error(if stream == [] then EOF else UnexpectedEOF, [])
  }

  function TakeBody(stream: seq<byte>, size: nat): Outcome<Envelope> {
    match TakeFull(stream, size)
    case Error(e, rest) => Error(e, rest)
    case Got(body, rest) =>
      match Unmarshal(body)
      case None => Error(Malformed, rest)
      case Some(env) => Got(env, rest)
  }

  /** `max` is the size limit, zero for none. */
  function TakeEnvelope(stream: seq<byte>, max: nat): (r: Outcome<Envelope>)
    ensures r.Got? ==> |r.rest| < |stream|
  {
    match TakeFull(stream, 4)
    case Error(e, rest) => Error(e, rest)
    case Got(header, rest) =>
      var size := FromBigEndian32(header);
      if max > 0 && size > max then Error(TooLarge, rest) else TakeBody(rest, size)
  }

  /** What a read loop receives, and the error that ends it. */
  datatype Transcript = Transcript(envs: seq<Envelope>, error: ReadError)

  function TakeAll(stream: seq<byte>, max: nat): Transcript
    decreases |stream|
  {
    match TakeEnvelope(stream, max)
    case Error(e, _) => Transcript([], e)
    case Got(env, rest) => var later := TakeAll(rest, max); later.(envs := [env] + later.envs)
  }

  predicate Fits(env: Envelope, max: nat) {
    InRange(env) && |Marshal(env)| < TWO_32 && (max > 0 ==> |Marshal(env)| <= max)
  }

  predicate AllFit(envs: seq<Envelope>, max: nat) {
    forall i | 0 <= i < |envs| :: Fits(envs[i], max)
  }

  predicate AllNumbered(envs: seq<Envelope>) {
    forall i | 0 <= i < |envs| :: envs[i].msgId != 0
  }

  lemma FrameReadBack(env: Envelope, rest: seq<byte>, max: nat)
    requires Fits(env, max)
    ensures TakeEnvelope(Frame(env) + rest, max) == Got(env, rest)
  {
    var stream := Frame(env) + rest;
    var size := |Marshal(env)|;
    BigEndianRoundTrip(size);
    assert stream[..4] == BigEndian32(size);
    assert stream[4..] == Marshal(env) + rest;
    assert stream[4..][..size] == Marshal(env) && stream[4..][size..] == rest;
    RoundTrip(env);
  }

  lemma TakeOne(stream: seq<byte>, env: Envelope, rest: seq<byte>, max: nat)
    requires TakeEnvelope(stream, max) == Got(env, rest)
    ensures TakeAll(stream, max) == TakeAll(rest, max).(envs := [env] + TakeAll(rest, max).envs)
  {}

  function Prepend(env: Envelope, t: Transcript): Transcript {
    t.(envs := [env] + t.envs)
  }

  lemma FrameThenRest(env: Envelope, rest: seq<byte>, max: nat)
    requires Fits(env, max)
    ensures TakeAll(Frame(env) + rest, max) == Prepend(env, TakeAll(rest, max))
  {
    FrameReadBack(env, rest, max);
    TakeOne(Frame(env) + rest, env, rest, max);
  }

  lemma NothingToRead(max: nat)
    ensures TakeAll([], max) == Transcript([], EOF)
  {}

  /** Part of a frame is no envelope. */
  lemma PartialFrame(env: Envelope, k: nat, max: nat)
    requires Fits(env, max) && k < |Frame(env)|
    ensures TakeAll(Frame(env)[..k], max).envs == []
  {
    var stream, size := Frame(env)[..k], |Marshal(env)|;
    BigEndianRoundTrip(size);
    if k >= 4 {
      assert stream[..4] == BigEndian32(size);
      assert TakeEnvelope(stream, max) == TakeBody(stream[4..], size);
    }
  }

  /** What a reader needs to know about frames: a whole one in front yields its envelope, part of one yields nothing. */
  ghost predicate Reads(take: seq<byte> -> Transcript, envs: seq<Envelope>, frames: seq<seq<byte>>) {
    && |frames| == |envs| && take([]) == Transcript([], EOF)
    && (forall i, rest | 0 <= i < |frames| :: take(frames[i] + rest) == Prepend(envs[i], take(rest)))
    && (forall i, k | 0 <= i < |frames| && 0 <= k < |frames[i]| :: take(frames[i][..k]).envs == [])
  }

  lemma ReadsRest(take: seq<byte> -> Transcript, envs: seq<Envelope>, frames: seq<seq<byte>>)
    requires Reads(take, envs, frames) && envs != []
    ensures Reads(take, envs[1..], frames[1..])
  {
    var tail := frames[1..];
    forall i, rest | 0 <= i < |tail| ensures take(tail[i] + rest) == Prepend(envs[1..][i], take(rest)) {
      assert tail[i] == frames[i + 1];
    }
    forall i, k | 0 <= i < |tail| && 0 <= k < |tail[i]| ensures take(tail[i][..k]).envs == [] {
      assert tail[i] == frames[i + 1];
    }
  }

  lemma {:induction false} ReadWhole(take: seq<byte> -> Transcript, envs: seq<Envelope>, frames: seq<seq<byte>>)
    requires Reads(take, envs, frames)
    ensures take(Flatten(frames)) == Transcript(envs, EOF)
  {
    if envs != [] {
      ReadsRest(take, envs, frames);
      ReadWhole(take, envs[1..], frames[1..]);
      assert take(frames[0] + Flatten(frames[1..])) == Prepend(envs[0], take(Flatten(frames[1..])));
      assert envs == [envs[0]] + envs[1..];
    }
  }

  /** How many whole chunks the first `k` bytes hold. */
  function Whole(chunks: seq<seq<byte>>, k: nat): (n: nat)
    ensures n <= |chunks|
  {
    if chunks == [] || |chunks[0]| > k then 0 else 1 + Whole(chunks[1..], k - |chunks[0]|)
  }

  lemma {:induction false} WholeFits(chunks: seq<seq<byte>>, k: nat)
    requires k < |Flatten(chunks)|
    ensures var n := Whole(chunks, k);
            n < |chunks| && |Flatten(chunks[..n])| <= k < |Flatten(chunks[..n + 1])|
  {
    var n, size := Whole(chunks, k), |chunks[0]|;
    if size > k {
      assert chunks[..1][1..] == [];
    } else {
      WholeFits(chunks[1..], k - size);
      assert chunks[..n][1..] == chunks[1..][..n - 1] && chunks[..n + 1][1..] == chunks[1..][..n];
    }
  }

  /** The first `k` bytes of `p + q`, cut inside `q`. */
  lemma CutInside(p: seq<byte>, q: seq<byte>, k: nat)
    requires |p| <= k <= |p| + |q|
    ensures (p + q)[..k] == p + q[..k - |p|]
  {}

  /** A stream that breaks off after `k` bytes yields exactly the envelopes whose frames are whole. */
  lemma {:induction false} ReadBroken(
      take: seq<byte> -> Transcript, envs: seq<Envelope>, frames: seq<seq<byte>>, k: nat)
    requires Reads(take, envs, frames) && k <= |Flatten(frames)|
    ensures take(Flatten(frames)[..k]).envs == envs[..Whole(frames, k)]
  {
    if envs != [] {
      var size, tail := |frames[0]|, Flatten(frames[1..]);
      if size > k {
        assert Flatten(frames)[..k] == frames[0][..k];
      } else {
        ReadsRest(take, envs, frames);
        ReadBroken(take, envs[1..], frames[1..], k - size);
        CutInside(frames[0], tail, k);
        assert take(frames[0] + tail[..k - size]) == Prepend(envs[0], take(tail[..k - size]));
        var n := Whole(frames[1..], k - size);
        assert envs[..n + 1] == [envs[0]] + envs[1..][..n];
      }
    }
  }

  function FrameList(envs: seq<Envelope>): seq<seq<byte>>
    requires AllInRange(envs)
  {
    seq(|envs|, i requires 0 <= i < |envs| => Frame(envs[i]))
  }

  lemma {:induction false} FramesFlatten(envs: seq<Envelope>)
    requires AllInRange(envs)
    ensures Frames(envs) == Flatten(FrameList(envs))
  {
    if envs != [] {
      FramesFlatten(envs[1..]);
      assert FrameList(envs)[1..] == FrameList(envs[1..]);
    }
  }

  lemma FramesRead(envs: seq<Envelope>, max: nat)
    requires AllFit(envs, max)
    ensures Reads((b: seq<byte>) => TakeAll(b, max), envs, FrameList(envs))
  {
    NothingToRead(max);
    var frames := FrameList(envs);
    forall i, rest | 0 <= i < |frames| ensures TakeAll(frames[i] + rest, max) == Prepend(envs[i], TakeAll(rest, max)) {
      FrameThenRest(envs[i], rest, max);
    }
    forall i, k | 0 <= i < |frames| && 0 <= k < |frames[i]| ensures TakeAll(frames[i][..k], max).envs == [] {
      PartialFrame(envs[i], k, max);
    }
  }

  /** Envelopes written one after the other are read back as exactly that sequence, and then the stream is at its
      end. */
  lemma FramesReadBack(envs: seq<Envelope>, max: nat)
    requires AllFit(envs, max)
    ensures TakeAll(Frames(envs), max) == Transcript(envs, EOF)
  {
    FramesRead(envs, max);
    FramesFlatten(envs);
    ReadWhole((b: seq<byte>) => TakeAll(b, max), envs, FrameList(envs));
  }

  /** How many frames get through whole if the stream breaks off after `k` bytes. */
  function WholeFrames(envs: seq<Envelope>, k: nat): (n: nat)
    requires AllInRange(envs)
    ensures n <= |envs|
  {
    Whole(FrameList(envs), k)
  }

  lemma BrokenFramesTaken(envs: seq<Envelope>, k: nat, max: nat)
    requires AllFit(envs, max) && k < |Frames(envs)|
    ensures TakeAll(Frames(envs)[..k], max).envs == envs[..WholeFrames(envs, k)]
  {
    FramesRead(envs, max);
    FramesFlatten(envs);
    ReadBroken((b: seq<byte>) => TakeAll(b, max), envs, FrameList(envs), k);
  }

  lemma WholeFramesFit(envs: seq<Envelope>, k: nat, n: nat)
    requires AllInRange(envs) && k < |Frames(envs)| && n == WholeFrames(envs, k)
    ensures n < |envs| && |Frames(envs[..n])| <= k < |Frames(envs[..n + 1])|
  {
    FramesFlatten(envs);
    WholeFits(FrameList(envs), k);
    FramesOfPrefix(envs, n);
    FramesOfPrefix(envs, n + 1);
  }

  /** If the stream breaks off inside, exactly the envelopes whose frames got through whole are read. */
  lemma BrokenFramesReadBack(envs: seq<Envelope>, k: nat, max: nat, got: seq<Envelope>)
    requires AllFit(envs, max) && k < |Frames(envs)| && got == TakeAll(Frames(envs)[..k], max).envs
    ensures got < envs && |Frames(got)| <= k < |Frames(envs[..|got| + 1])|
  {
    BrokenFramesTaken(envs, k, max);
    WholePrefix(envs, k, got);
  }

  lemma WholePrefix(envs: seq<Envelope>, k: nat, got: seq<Envelope>)
    requires AllInRange(envs) && k < |Frames(envs)| && got == envs[..WholeFrames(envs, k)]
    ensures got < envs && |Frames(got)| <= k < |Frames(envs[..|got| + 1])|
  {
    WholeFramesFit(envs, k, |got|);
  }

  lemma FramesOfPrefix(envs: seq<Envelope>, n: nat)
    requires AllInRange(envs) && n <= |envs|
    ensures Frames(envs[..n]) == Flatten(FrameList(envs)[..n])
  {
    FramesFlatten(envs[..n]);
    assert FrameList(envs[..n]) == FrameList(envs)[..n];
  }

  /** An oversized length is refused after its four bytes, whatever follows. */
  lemma OversizedRefused(header: seq<byte>, rest: seq<byte>, max: nat)
    requires |header| == 4 && 0 < max < FromBigEndian32(header)
    ensures TakeEnvelope(header + rest, max) == Error(TooLarge, rest)
  {
    assert (header + rest)[..4] == header && (header + rest)[4..] == rest;
  }

  // ---------- the Python client's reader ----------

  /** What the client's receive loop hands on before it stops: at the end of the stream, at an undecodable body, or at
      an empty one. */
  function Received(stream: seq<byte>): seq<Envelope>
    decreases |stream|
  {
    if |stream| < 4 then []
    else
      var size, rest := FromBigEndian32(stream[..4]), stream[4..];
      if size == 0 || |rest| < size then []
      else match Unmarshal(rest[..size])
        case None => []
        case Some(env) => [env] + Received(rest[size..])
  }

  /** The stream begins with a frame of `n` bytes that holds the envelope. */
  predicate Yields(stream: seq<byte>, env: Envelope, n: nat) {
    4 < n <= |stream| && n == 4 + FromBigEndian32(stream[..4]) && Unmarshal(stream[4..n]) == Some(env)
  }

  lemma YieldsFirst(stream: seq<byte>, env: Envelope, n: nat)
    requires Yields(stream, env, n)
    ensures Received(stream) == [env] + Received(stream[n..])
  {
    assert stream[4..][..n - 4] == stream[4..n] && stream[4..][n - 4..] == stream[n..];
  }

  lemma FrameYields(env: Envelope, rest: seq<byte>)
    requires Fits(env, 0) && env != BLANK
    ensures Yields(Frame(env) + rest, env, |Frame(env)|) && (Frame(env) + rest)[|Frame(env)|..] == rest
  {
    var stream, n := Frame(env) + rest, |Frame(env)|;
    BigEndianRoundTrip(|Marshal(env)|);
    EmptyBody(env);
    RoundTrip(env);
    assert stream[..4] == BigEndian32(|Marshal(env)|) && stream[4..n] == Marshal(env);
  }

  lemma BlankEnds(rest: seq<byte>)
    ensures Fits(BLANK, 0) && Received(Frame(BLANK) + rest) == []
  {
    EmptyBody(BLANK);
    BigEndianRoundTrip(0);
    assert (Frame(BLANK) + rest)[..4] == BigEndian32(0);
  }

  /** The envelopes before the first all-default one. */
  function UntilBlank(envs: seq<Envelope>): seq<Envelope> {
    if envs == [] || envs[0] == BLANK then [] else [envs[0]] + UntilBlank(envs[1..])
  }

  /** The client receives exactly the envelopes before the first all-default one: its check for an empty body misfires
      on nothing else. */
  lemma {:induction false} ClientReceives(envs: seq<Envelope>)
    requires AllFit(envs, 0)
    ensures Received(Frames(envs)) == UntilBlank(envs)
  {
    if envs != [] {
      var env, later := envs[0], Frames(envs[1..]);
      if env == BLANK {
        BlankEnds(later);
      } else {
        ClientReceives(envs[1..]);
        FrameYields(env, later);
        YieldsFirst(Frame(env) + later, env, |Frame(env)|);
      }
    }
  }

  lemma {:induction false} NoBlank(envs: seq<Envelope>)
    requires AllNumbered(envs)
    ensures UntilBlank(envs) == envs
  {
    if envs != [] { NoBlank(envs[1..]); }
  }

  /** Envelopes with message IDs all arrive. */
  lemma ClientReceivesAll(envs: seq<Envelope>)
    requires AllFit(envs, 0) && AllNumbered(envs)
    ensures Received(Frames(envs)) == envs
  {
    ClientReceives(envs);
    NoBlank(envs);
  }

  // ---------- a client told to stop ----------

  /** What the client has handed on when it is told to stop after reading exactly the bytes `b`: what it has of a body
      by then counts as the body, unless that is nothing. */
  function ReceivedCut(b: seq<byte>): seq<Envelope>
    decreases |b|
  {
    if |b| < 4 then []
    else
      var size, rest := FromBigEndian32(b[..4]), b[4..];
      if size == 0 || rest == [] then []
      else match Unmarshal(rest[..Min(size, |rest|)])
        case None => []
        case Some(env) => [env] + ReceivedCut(rest[Min(size, |rest|)..])
  }

  lemma YieldsCut(stream: seq<byte>, env: Envelope, n: nat)
    requires Yields(stream, env, n)
    ensures ReceivedCut(stream) == [env] + ReceivedCut(stream[n..])
  {
    assert stream[4..][..n - 4] == stream[4..n] && stream[4..][n - 4..] == stream[n..];
  }

  /** A whole frame in front yields its envelope. */
  ghost predicate Receives(take: seq<byte> -> seq<Envelope>, envs: seq<Envelope>, frames: seq<seq<byte>>) {
    && |frames| == |envs|
    && forall i, rest | 0 <= i < |frames| :: take(frames[i] + rest) == [envs[i]] + take(rest)
  }

  /** What the first `k` bytes hold of the first chunk they do not hold whole. */
  function Rest(chunks: seq<seq<byte>>, k: nat): seq<byte>
    requires k < |Flatten(chunks)|
  {
    if |chunks[0]| > k then chunks[0][..k] else Rest(chunks[1..], k - |chunks[0]|)
  }

  lemma {:induction false} RestIs(chunks: seq<seq<byte>>, k: nat)
    requires k < |Flatten(chunks)|
    ensures var n := Whole(chunks, k);
            && n < |chunks| && |Flatten(chunks[..n])| <= k < |Flatten(chunks[..n])| + |chunks[n]|
            && Rest(chunks, k) == chunks[n][..k - |Flatten(chunks[..n])|]
  {
    var size := |chunks[0]|;
    if size > k {
      assert chunks[..0] == [];
    } else {
      RestIs(chunks[1..], k - size);
      var n := Whole(chunks[1..], k - size);
      assert chunks[..n + 1][1..] == chunks[1..][..n];
    }
  }

  /** The envelopes whose frames are whole, then what the reader makes of the rest. */
  lemma {:induction false} ReceiveUpTo(
      take: seq<byte> -> seq<Envelope>, envs: seq<Envelope>, frames: seq<seq<byte>>, k: nat)
    requires Receives(take, envs, frames) && k < |Flatten(frames)|
    ensures take(Flatten(frames)[..k]) == envs[..Whole(frames, k)] + take(Rest(frames, k))
  {
    var size, tail := |frames[0]|, Flatten(frames[1..]);
    if size > k {
      assert Flatten(frames)[..k] == frames[0][..k];
    } else {
      var frames', envs' := frames[1..], envs[1..];
      forall i, rest | 0 <= i < |frames'| ensures take(frames'[i] + rest) == [envs'[i]] + take(rest) {
        assert frames'[i] == frames[i + 1];
      }
      ReceiveUpTo(take, envs', frames', k - size);
      CutInside(frames[0], tail, k);
      assert take(frames[0] + tail[..k - size]) == [envs[0]] + take(tail[..k - size]);
      assert envs[..Whole(frames, k)] == [envs[0]] + envs'[..Whole(frames', k - size)];
    }
  }

  lemma CutThenRest(env: Envelope, rest: seq<byte>)
    requires Fits(env, 0) && env != BLANK
    ensures ReceivedCut(Frame(env) + rest) == [env] + ReceivedCut(rest)
  {
    FrameYields(env, rest);
    YieldsCut(Frame(env) + rest, env, |Frame(env)|);
  }

  /** A header, and part or all of its body. */
  lemma CutOne(b: seq<byte>, size: nat)
    requires |b| > 4 && FromBigEndian32(b[..4]) == size && |b| <= 4 + size
    ensures ReceivedCut(b) == match Unmarshal(b[4..]) case None => [] case Some(env) => [env]
  {
    var body := b[4..];
    assert body[..|body|] == body && body[|body|..] == [];
  }

  /** A client stopped after `k` bytes has handed on the envelopes whose frames were whole, and at most one more, made
      of the part of a body it had. */
  lemma ClientStopped(envs: seq<Envelope>, k: nat)
    requires AllFit(envs, 0) && AllNumbered(envs) && k < |Frames(envs)|
    ensures var n := WholeFrames(envs, k);
            n < |envs| && |Frames(envs[..n])| <= k < |Frames(envs[..n])| + |Frame(envs[n])|
            && ReceivedCut(Frames(envs)[..k]) == envs[..n] + ReceivedCut(Frame(envs[n])[..k - |Frames(envs[..n])|])
  {
    FramesFlatten(envs);
    FramesReceive(envs);
    ReceiveUpTo(b => ReceivedCut(b), envs, FrameList(envs), k);
    RestIs(FrameList(envs), k);
    FramesOfPrefix(envs, WholeFrames(envs, k));
  }

  /** What it had of the frame in which it stopped. */
  function Remnant(envs: seq<Envelope>, k: nat): seq<byte>
    requires AllFit(envs, 0) && AllNumbered(envs) && k < |Frames(envs)|
  {
    ClientStopped(envs, k);
    var n := WholeFrames(envs, k);
    Frame(envs[n])[..k - |Frames(envs[..n])|]
  }

  /** It has handed on nothing else if and only if it had no more than a header, or stopped inside a field. If it
      stopped at the end of a field it has handed on that envelope with the later fields default, which nobody sent. */
  lemma StopsCleanExactly(envs: seq<Envelope>, k: nat)
    requires AllFit(envs, 0) && AllNumbered(envs) && k < |Frames(envs)|
    ensures var n, part := WholeFrames(envs, k), Remnant(envs, k);
            && n < |envs|
            && (ReceivedCut(Frames(envs)[..k]) == envs[..n]
                <==> |part| <= 4 || !AtFieldEnd(envs[n], |part| - 4))
            && forall i | 0 <= i <= 4 && |part| > 4 && FieldEnd(envs[n], i) == |part| - 4 ::
                 && ReceivedCut(Frames(envs)[..k]) == envs[..n] + [FirstFields(envs[n], i)]
                 && FirstFields(envs[n], i) != envs[n]
  {
    ClientStopped(envs, k);
    var env, part := envs[WholeFrames(envs, k)], Remnant(envs, k);
    PartClean(env, part);
    forall i | 0 <= i <= 4 && |part| > 4 && FieldEnd(env, i) == |part| - 4
      ensures ReceivedCut(part) == [FirstFields(env, i)] && FirstFields(env, i) != env
    {
      PartForged(env, part, i);
    }
  }

  lemma PartClean(env: Envelope, part: seq<byte>)
    requires Fits(env, 0) && part < Frame(env)
    ensures ReceivedCut(part) == [] <==> |part| <= 4 || !AtFieldEnd(env, |part| - 4)
  {
    PartReceived(env, part);
    if |part| > 4 { PartDecodes(env, |part| - 4); }
  }

  lemma PartForged(env: Envelope, part: seq<byte>, i: nat)
    requires Fits(env, 0) && part < Frame(env) && |part| > 4 && i <= 4 && FieldEnd(env, i) == |part| - 4
    ensures ReceivedCut(part) == [FirstFields(env, i)] && FirstFields(env, i) != env
  {
    PartReceived(env, part);
    PartDecodes(env, |part| - 4);
    PartIsForged(env, i);
  }

  lemma PartReceived(env: Envelope, part: seq<byte>)
    requires Fits(env, 0) && part < Frame(env)
    ensures ReceivedCut(part) == if |part| <= 4 then []
                                 else match Unmarshal(Marshal(env)[..|part| - 4])
                                      case None => []
                                      case Some(e) => [e]
  {
    if |part| <= 4 {
      HeaderOnly(part);
    } else {
      PartOfFrame(env, part);
      CutOne(part, |Marshal(env)|);
    }
  }

  lemma HeaderOnly(part: seq<byte>)
    requires |part| <= 4
    ensures ReceivedCut(part) == []
  {
    if |part| == 4 { assert part[4..] == []; }
  }

  lemma PartOfFrame(env: Envelope, part: seq<byte>)
    requires Fits(env, 0) && 4 < |part| && part < Frame(env)
    ensures part[4..] == Marshal(env)[..|part| - 4] && FromBigEndian32(part[..4]) == |Marshal(env)|
  {
    BigEndianRoundTrip(|Marshal(env)|);
    assert part[..4] == BigEndian32(|Marshal(env)|);
  }

  lemma FramesReceive(envs: seq<Envelope>)
    requires AllFit(envs, 0) && AllNumbered(envs)
    ensures Receives(b => ReceivedCut(b), envs, FrameList(envs))
  {
    var frames := FrameList(envs);
    forall i, rest | 0 <= i < |frames| ensures ReceivedCut(frames[i] + rest) == [envs[i]] + ReceivedCut(rest) {
      CutThenRest(envs[i], rest);
    }
  }

  /** That one may be an envelope nobody sent: here the session is cut off. */
  lemma StopForgesEnvelope()
    ensures var sent := Envelope(1, 5, 0, []);
            |Frame(sent)| > 6 && ReceivedCut(Frame(sent)[..6]) == [Envelope(1, 0, 0, [])]
  {
    var body := Marshal(Envelope(1, 5, 0, []));
    assert body == [8, 1, 16, 5];
    var b := Frame(Envelope(1, 5, 0, []))[..6];
    BigEndianRoundTrip(4);
    assert b[..4] == BigEndian32(4) && b[4..] == [8, 1];
    assert b[4..][..2] == [8, 1] && b[4..][2..] == [];
    var short := Envelope(1, 0, 0, []);
    assert Marshal(short) == [8, 1];
    RoundTrip(short);
  }
}
