/** The binary wire codec of `txapns/encoding.py`: the legacy APNs
    "simple notification" frame (command 0) and the 38-byte feedback
    record. JSON serialisation of a notification is the parameter
    `dumps`, standing for `json.dumps(p, separators=(',',':'),
    ensure_ascii=False).encode('utf-8')`. */
module Encoding {
  import opened Wrappers
  import opened Bytes
  import opened Values

  const Command: byte := 0
  const TokenLength: nat := 32
  /** Command, token length, token and payload length: 1 + 2 + 32 + 2. */
  const FrameHeaderLength: nat := 37
  /** `struct.calcsize('!lh32s')`: timestamp, token length, token. */
  const FeedbackRecordLength: nat := 38

  /** The exceptions `encode_notifications` lets escape. */
  datatype EncodeError =
    | BadToken                    // the token is not a string of hexadecimal digits pairs (`TypeError`, `AttributeError`)
    | PayloadTooLong(length: nat) // `struct.pack('!H', ...)` rejects a payload length above 65535

  // ---------------------------------------------------------------------
  // Encoding notifications

  /** What `struct.pack` stores for the format `32s`: the bytes cut or
      padded with zero bytes to exactly `n`. */
  function FitTo(b: seq<byte>, n: nat): (r: seq<byte>)
    ensures |r| == n
    ensures forall i :: 0 <= i < n ==> r[i] == (if i < |b| then b[i] else 0)
  {
    if |b| >= n then b[..n] else b + seq(n - |b|, _ => 0 as byte)
  }

  /** `f` is one frame carrying `token` and `payload`, described field by
      field as a reader of the frame sees it. */
  ghost predicate IsFrame(f: seq<byte>, token: seq<byte>, payload: seq<byte>)
  {
    && |f| == FrameHeaderLength + |payload|
    && f[0] == Command
    && ReadU16(f[1..3]) == TokenLength
    && f[3..35] == token
    && ReadU16(f[35..37]) == |payload|
    && f[37..] == payload
  }

  /** `struct.pack("!BH32sH%ds" % len(p), 0, 32, t, len(p), p)`. */
  function Frame(token: seq<byte>, payload: seq<byte>): (r: Result<seq<byte>, EncodeError>)
    ensures r.Success? <==> |payload| < TwoTo16
    ensures r.Success? ==> IsFrame(r.value, FitTo(token, TokenLength), payload)
    ensures r.Failure? ==> r.error == PayloadTooLong(|payload|)
  {
    if |payload| < TwoTo16 then
      Success([Command] + U16(TokenLength) + FitTo(token, TokenLength) + U16(|payload|) + payload)
    else
      Failure(PayloadTooLong(|payload|))
  }

  /** `t.decode('hex')` on one element of the token list. */
  function TokenBytes(t: Value): (r: Result<seq<byte>, EncodeError>)
    ensures r.Success? <==> t.Str? && IsHexText(t.s)
    ensures r.Success? ==> 2 * |r.value| == |t.s| && HexEncode(r.value) == Lower(t.s)
    ensures r.Failure? ==> r.error == BadToken
  {
    if t.Str? then
      HexDecodeSucceedsIff(t.s);
      match HexDecode(t.s)
      case Some(b) =>
        HexDecodeThenEncode(t.s);
        Success(b)
      case None => Failure(BadToken)
    else Failure(BadToken)
  }

  /** One (token, notification) pair: decode the token, serialise the
      notification, pack the frame; the token is examined first. */
  function EncodePair(t: Value, p: Value, dumps: Value -> seq<byte>): (r: Result<seq<byte>, EncodeError>)
    ensures r.Success? <==> TokenBytes(t).Success? && |dumps(p)| < TwoTo16
    ensures r.Success? ==> IsFrame(r.value, FitTo(TokenBytes(t).value, TokenLength), dumps(p))
    ensures r.Failure? ==> r.error == if TokenBytes(t).Failure? then BadToken else PayloadTooLong(|dumps(p)|)
  {
    match TokenBytes(t)
    case Failure(e) => Failure(e)
    case Success(b) => Frame(b, dumps(p))
  }

  /** Python's `zip`: pairs up to the end of the shorter sequence. */
  function Zip<A, B>(a: seq<A>, b: seq<B>): (r: seq<(A, B)>)
    ensures |r| == if |a| <= |b| then |a| else |b|
    ensures forall i :: 0 <= i < |r| ==> r[i] == (a[i], b[i])
    decreases |a|
  {
    if a == [] || b == [] then [] else [(a[0], b[0])] + Zip(a[1..], b[1..])
  }

  /** `''.join(map(structify, ...))`: the frames of all pairs, in order;
      the first pair that fails raises and nothing is returned. */
  function EncodeAll(pairs: seq<(Value, Value)>, dumps: Value -> seq<byte>): (r: Result<seq<byte>, EncodeError>)
    ensures r.Failure? ==> exists i :: 0 <= i < |pairs| && EncodePair(pairs[i].0, pairs[i].1, dumps) == Failure(r.error)
    ensures r.Success? && pairs != [] ==>
      var first := EncodePair(pairs[0].0, pairs[0].1, dumps);
      first.Success? && |first.value| <= |r.value| && r.value[..|first.value|] == first.value
    decreases |pairs|
  {
    if pairs == [] then Success([])
    else
      match EncodePair(pairs[0].0, pairs[0].1, dumps)
      case Failure(e) => Failure(e)
      case Success(f) =>
        match EncodeAll(pairs[1..], dumps)
        case Failure(e) => Failure(e)
        case Success(rest) => Success(f + rest)
  }

  /** A batch encodes exactly when every one of its pairs does. */
  lemma {:induction false} EncodeAllSucceedsIff(pairs: seq<(Value, Value)>, dumps: Value -> seq<byte>)
    ensures EncodeAll(pairs, dumps).Success? <==>
      forall i :: 0 <= i < |pairs| ==> EncodePair(pairs[i].0, pairs[i].1, dumps).Success?
    decreases |pairs|
  {
    if pairs != [] {
      EncodeAllSucceedsIff(pairs[1..], dumps);
      assert forall i :: 1 <= i < |pairs| ==> pairs[1..][i - 1] == pairs[i];
    }
  }

  /** `encode_notifications(tokens, notifications)`. A single string
      token with a single dict is first wrapped into one-element lists;
      then two lists are zipped and encoded; any other combination of
      argument types falls through and yields `None`. */
  function EncodeNotifications(tokens: Value, notifications: Value, dumps: Value -> seq<byte>)
    : (r: Option<Result<seq<byte>, EncodeError>>)
    ensures r.None? <==> !(tokens.Str? && notifications.Dict?) && !(tokens.List? && notifications.List?)
    ensures tokens.Str? && notifications.Dict? ==> r == Some(EncodePair(tokens, notifications, dumps))
  {
    if notifications.Dict? && tokens.Str? then
      // wrapped into ([tokens], [notifications]) and encoded as two lists
      var pairs := Zip([tokens], [notifications]);
      assert pairs == [(tokens, notifications)] && pairs[1..] == [];
      var x := EncodePair(tokens, notifications, dumps);
      assert x.Success? ==> x.value + [] == x.value;
      assert EncodeAll(pairs[1..], dumps) == Success([]);
      Some(EncodeAll(pairs, dumps))
    else if notifications.List? && tokens.List? then
      Some(EncodeAll(Zip(tokens.items, notifications.items), dumps))
    else
      None
  }

  /** Outcome of encoding `a + b` from the outcomes of `a` and of `b`. */
  function Join(x: Result<seq<byte>, EncodeError>, y: Result<seq<byte>, EncodeError>): Result<seq<byte>, EncodeError>
  {
    if x.Failure? then x else if y.Failure? then y else Success(x.value + y.value)
  }

  lemma EncodeAllCons(pairs: seq<(Value, Value)>, dumps: Value -> seq<byte>)
    requires pairs != []
    ensures EncodeAll(pairs, dumps) == Join(EncodePair(pairs[0].0, pairs[0].1, dumps), EncodeAll(pairs[1..], dumps))
  {
  }

  lemma JoinAssociative(x: Result<seq<byte>, EncodeError>, y: Result<seq<byte>, EncodeError>, z: Result<seq<byte>, EncodeError>)
    ensures Join(x, Join(y, z)) == Join(Join(x, y), z)
  {
    if x.Success? && y.Success? && z.Success? {
      assert x.value + (y.value + z.value) == (x.value + y.value) + z.value;
    }
  }

  /** Encoding is a homomorphism on batches: the frames of `a + b` are
      those of `a` followed by those of `b`, and the first error wins. */
  lemma {:induction false} EncodeAllAppend(a: seq<(Value, Value)>, b: seq<(Value, Value)>, dumps: Value -> seq<byte>)
    ensures EncodeAll(a + b, dumps) == Join(EncodeAll(a, dumps), EncodeAll(b, dumps))
    decreases |a|
  {
    if a == [] {
      assert a + b == b;
      var z := EncodeAll(b, dumps);
      assert z.Success? ==> [] + z.value == z.value;
    } else {
      var ab := a + b;
      assert ab[0] == a[0];
      assert ab[1..] == a[1..] + b;
      EncodeAllAppend(a[1..], b, dumps);
      EncodeAllCons(ab, dumps);
      EncodeAllCons(a, dumps);
      JoinAssociative(EncodePair(a[0].0, a[0].1, dumps), EncodeAll(a[1..], dumps), EncodeAll(b, dumps));
    }
  }

  /** Extra tokens or extra notifications beyond the shorter list are
      ignored: only the first `min(len)` pairs are encoded. */
  lemma EncodeListsTruncates(ts: seq<Value>, ns: seq<Value>, dumps: Value -> seq<byte>)
    ensures var m := if |ts| <= |ns| then |ts| else |ns|;
      EncodeNotifications(List(ts), List(ns), dumps) == EncodeNotifications(List(ts[..m]), List(ns[..m]), dumps)
  {
    var m := if |ts| <= |ns| then |ts| else |ns|;
    assert Zip(ts, ns) == Zip(ts[..m], ns[..m]);
  }

  // ---------------------------------------------------------------------
  // A reader of frames: the inverse the gateway applies

  /** Splits a byte string into (token, payload) frames; `None` when it is
      not a whole number of well-formed frames. */
  ghost function ParseFrames(b: seq<byte>): Option<seq<(seq<byte>, seq<byte>)>>
    decreases |b|
  {
    if b == [] then Some([])
    else if |b| < FrameHeaderLength || b[0] != Command || ReadU16(b[1..3]) != TokenLength then None
    else
      var n := ReadU16(b[35..37]);
      if |b| < FrameHeaderLength + n then None
      else
        match ParseFrames(b[FrameHeaderLength + n..])
        case None => None
        case Some(rest) => Some([(b[3..35], b[37..37 + n])] + rest)
  }

  lemma ParseFrameThenRest(f: seq<byte>, token: seq<byte>, payload: seq<byte>, rest: seq<byte>)
    requires IsFrame(f, token, payload)
    ensures ParseFrames(f + rest) ==
      match ParseFrames(rest)
      case None => None
      case Some(frames) => Some([(token, payload)] + frames)
  {
    var b := f + rest;
    assert b[..|f|] == f;
    assert b[1..3] == f[1..3] && b[35..37] == f[35..37];
    assert b[3..35] == f[3..35];
    assert b[37..37 + |payload|] == f[37..];
    assert b[FrameHeaderLength + |payload|..] == rest;
  }

  /** The bytes of a batch read back as its pairs, in order: each token
      as the 32 bytes of its hex text, each payload as its serialisation. */
  lemma {:induction false} EncodeAllParses(pairs: seq<(Value, Value)>, dumps: Value -> seq<byte>)
    requires EncodeAll(pairs, dumps).Success?
    ensures var parsed := ParseFrames(EncodeAll(pairs, dumps).value);
      && parsed.Some?
      && |parsed.value| == |pairs|
      && forall i :: 0 <= i < |pairs| ==>
           && TokenBytes(pairs[i].0).Success?
           && parsed.value[i] == (FitTo(TokenBytes(pairs[i].0).value, TokenLength), dumps(pairs[i].1))
    decreases |pairs|
  {
    if pairs != [] {
      var (t, p) := pairs[0];
      EncodeAllSucceedsIff(pairs, dumps);
      assert EncodePair(t, p, dumps).Success?;
      assert forall i :: 1 <= i < |pairs| ==> pairs[1..][i - 1] == pairs[i];
      EncodeAllParses(pairs[1..], dumps);
      var f := EncodePair(t, p, dumps).value;
      ParseFrameThenRest(f, FitTo(TokenBytes(t).value, TokenLength), dumps(p), EncodeAll(pairs[1..], dumps).value);
    }
  }

  /** What `encode_notifications` sends for two lists: frame `i` carries
      token `i` and notification `i` for every `i` below the shorter
      length, in input order, and nothing else. */
  lemma EncodedBatchReadsBack(ts: seq<Value>, ns: seq<Value>, dumps: Value -> seq<byte>)
    requires EncodeNotifications(List(ts), List(ns), dumps).value.Success?
    ensures var parsed := ParseFrames(EncodeNotifications(List(ts), List(ns), dumps).value.value);
      && parsed.Some?
      && |parsed.value| == (if |ts| <= |ns| then |ts| else |ns|)
      && forall i :: 0 <= i < |parsed.value| ==>
           && TokenBytes(ts[i]).Success?
           && parsed.value[i] == (FitTo(TokenBytes(ts[i]).value, TokenLength), dumps(ns[i]))
  {
    EncodeAllParses(Zip(ts, ns), dumps);
  }

  // ---------------------------------------------------------------------
  // Decoding feedback

  /** One feedback tuple: the timestamp (seconds since the epoch) and the
      token as lower-case hex. */
  datatype FeedbackRecord = FeedbackRecord(timestamp: int, token: string)

  /** `struct.unpack` raising on the last chunk `f.read(38)` returns when
      it is shorter than a record. */
  datatype DecodeError = TruncatedRecord(length: nat)

  /** `struct.unpack('!lh32s', chunk)`, keeping the timestamp and the
      hexlified token; the 2-byte length field is read and dropped. */
  function DecodeRecord(chunk: seq<byte>): (r: FeedbackRecord)
    requires |chunk| == FeedbackRecordLength
    ensures -(TwoTo31 as int) <= r.timestamp < TwoTo31
    ensures |r.token| == 2 * TokenLength
  {
    FeedbackRecord(ReadI32(chunk[..4]), HexEncode(chunk[6..]))
  }

  /** `decode_feedback(binary_tuples)`: reads 38 bytes at a time until the
      input is used up; a short final chunk makes the whole call raise. */
  function DecodeFeedback(buf: seq<byte>): (r: Result<seq<FeedbackRecord>, DecodeError>)
    ensures r.Success? <==> |buf| % FeedbackRecordLength == 0
    ensures r.Success? ==> |r.value| == |buf| / FeedbackRecordLength
    ensures r.Failure? ==> r.error == TruncatedRecord(|buf| % FeedbackRecordLength)
    decreases |buf|
  {
    if |buf| == 0 then Success([])
    else if |buf| < FeedbackRecordLength then Failure(TruncatedRecord(|buf|))
    else
      match DecodeFeedback(buf[FeedbackRecordLength..])
      case Failure(e) => Failure(e)
      case Success(rest) => Success([DecodeRecord(buf[..FeedbackRecordLength])] + rest)
  }

  /** Record `i` of a whole-record buffer is decoded from bytes
      `38 i .. 38 i + 38`, so the records come out in stream order. */
  lemma {:induction false} DecodeFeedbackRecordAt(buf: seq<byte>)
    requires |buf| % FeedbackRecordLength == 0
    ensures forall i :: 0 <= i < |buf| / FeedbackRecordLength ==>
      DecodeFeedback(buf).value[i] == DecodeRecord(buf[FeedbackRecordLength * i..FeedbackRecordLength * i + FeedbackRecordLength])
    decreases |buf|
  {
    if |buf| > 0 {
      var tail := buf[FeedbackRecordLength..];
      DecodeFeedbackRecordAt(tail);
      var r, rest := DecodeFeedback(buf).value, DecodeFeedback(tail).value;
      assert r == [DecodeRecord(buf[..FeedbackRecordLength])] + rest;
      forall i | 1 <= i < |buf| / FeedbackRecordLength
        ensures r[i] == DecodeRecord(buf[FeedbackRecordLength * i..FeedbackRecordLength * i + FeedbackRecordLength])
      {
        TailChunk(buf, i - 1);
      }
    }
  }

  lemma TailChunk(buf: seq<byte>, j: nat)
    requires FeedbackRecordLength * j + 2 * FeedbackRecordLength <= |buf|
    ensures buf[FeedbackRecordLength..][FeedbackRecordLength * j..FeedbackRecordLength * j + FeedbackRecordLength]
         == buf[FeedbackRecordLength * (j + 1)..FeedbackRecordLength * (j + 1) + FeedbackRecordLength]
  {
  }

  /** A record as the feedback service sends it. */
  datatype WireRecord = WireRecord(timestamp: int, tokenLength: seq<byte>, token: seq<byte>)

  ghost predicate WellFormed(w: WireRecord)
  {
    -(TwoTo31 as int) <= w.timestamp < TwoTo31 && |w.tokenLength| == 2 && |w.token| == TokenLength
  }

  /** The byte stream the feedback service sends for `ws`. */
  ghost function SerializeRecords(ws: seq<WireRecord>): (b: seq<byte>)
    requires forall i :: 0 <= i < |ws| ==> WellFormed(ws[i])
    ensures |b| == FeedbackRecordLength * |ws|
  {
    if ws == [] then []
    else
      assert WellFormed(ws[0]);
      assert forall i :: 1 <= i < |ws| ==> ws[1..][i - 1] == ws[i];
      I32(ws[0].timestamp) + ws[0].tokenLength + ws[0].token + SerializeRecords(ws[1..])
  }

  /** Decoding a feedback stream gives back every record's timestamp and
      the hex of its token, in order, whatever its length field says. */
  lemma {:induction false} FeedbackRoundTrip(ws: seq<WireRecord>)
    requires forall i :: 0 <= i < |ws| ==> WellFormed(ws[i])
    ensures var r := DecodeFeedback(SerializeRecords(ws));
      && r.Success?
      && |r.value| == |ws|
      && forall i :: 0 <= i < |ws| ==> r.value[i] == FeedbackRecord(ws[i].timestamp, HexEncode(ws[i].token))
  {
    if ws != [] {
      var w, rest := ws[0], ws[1..];
      assert forall i :: 0 <= i < |rest| ==> rest[i] == ws[i + 1];
      FeedbackRoundTrip(rest);
      var b, tail := SerializeRecords(ws), SerializeRecords(rest);
      assert WellFormed(w);
      DecodeWireRecord(w, tail);
      var r := DecodeFeedback(b).value;
      assert r == [FeedbackRecord(w.timestamp, HexEncode(w.token))] + DecodeFeedback(tail).value;
    }
  }

  /** The first 38 bytes of a stream starting with `w` decode to `w`'s
      timestamp and hexlified token; the rest is the stream after it. */
  lemma DecodeWireRecord(w: WireRecord, tail: seq<byte>)
    requires WellFormed(w)
    ensures var b := I32(w.timestamp) + w.tokenLength + w.token + tail;
      && b[FeedbackRecordLength..] == tail
      && DecodeRecord(b[..FeedbackRecordLength]) == FeedbackRecord(w.timestamp, HexEncode(w.token))
  {
    var b := I32(w.timestamp) + w.tokenLength + w.token + tail;
    assert b[..FeedbackRecordLength][..4] == I32(w.timestamp);
    assert b[..FeedbackRecordLength][6..] == w.token;
  }

  /** A token read from the feedback service, passed back to
      `encode_notifications` as a string, is packed as the same 32 bytes. */
  lemma FeedbackTokenReencodes(token: seq<byte>)
    requires |token| == TokenLength
    ensures TokenBytes(Str(HexEncode(token))) == Success(token)
    ensures FitTo(token, TokenLength) == token
  {
    HexRoundTrip(token);
  }
}
