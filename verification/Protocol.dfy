// The binary protocol of the test harness: headers, messages, streams of messages.
module Protocol {
  import opened BigEndian
  import Seqs

  const HEADER_SIZE := 24
  const DEFAULT_MAGIC: U32 := 0x57454154
  const MAX_PAYLOAD: U32 := 65536

  datatype MessageType = MessageType(hasPayload: bool, maxPayload: U32)
  datatype Spec = Spec(version: U16, magic: U32, maxPayload: U32, types: map<Byte, MessageType>)

  datatype Header = Header(magic: U32, version: U16, kind: Byte, flags: Byte,
                           length: U32, sequence: U32, timestamp: U64)

  datatype Error =
    | TooShort | BadMagic | BadVersion | UnknownType | TooLarge
    | UnexpectedPayload | MissingPayload | TooLargeForType | Truncated

  datatype Result<T> = Ok(value: T) | Err(error: Error)

  function DefaultSpec(): Spec {
    Spec(1, DEFAULT_MAGIC, MAX_PAYLOAD,
         map[1 := MessageType(false, 0), 2 := MessageType(true, 1024), 3 := MessageType(true, MAX_PAYLOAD),
             4 := MessageType(true, 256), 5 := MessageType(true, 512), 6 := MessageType(true, MAX_PAYLOAD)])
  }

  // --- Headers ---

  function EncodeHeader(h: Header): (bs: seq<Byte>)
    ensures |bs| == HEADER_SIZE
  {
    Bytes(h.magic, 4) + Bytes(h.version, 2) + [h.kind] + [h.flags] +
    Bytes(h.length, 4) + Bytes(h.sequence, 4) + Bytes(h.timestamp, 8)
  }

  function DecodeHeader(bs: seq<Byte>): Header
    requires |bs| >= HEADER_SIZE
  {
    Header(Word32(bs[0..4]), Word16(bs[4..6]), bs[6], bs[7], Word32(bs[8..12]), Word32(bs[12..16]), Word64(bs[16..24]))
  }

  function ValidateHeader(spec: Spec, bs: seq<Byte>): Result<Header> {
    if |bs| < HEADER_SIZE then Err(TooShort)
    else
      var h := DecodeHeader(bs);
      if h.magic != spec.magic then Err(BadMagic)
      else if h.version != spec.version then Err(BadVersion)
      else if h.kind !in spec.types then Err(UnknownType)
      else if h.length > spec.maxPayload then Err(TooLarge)
      else Ok(h)
  }

  lemma EncodedFields(h: Header, rest: seq<Byte>)
    ensures var bs := EncodeHeader(h) + rest;
      && bs[0..4] == Bytes(h.magic, 4) && bs[4..6] == Bytes(h.version, 2) && bs[6] == h.kind && bs[7] == h.flags
      && bs[8..12] == Bytes(h.length, 4) && bs[12..16] == Bytes(h.sequence, 4) && bs[16..24] == Bytes(h.timestamp, 8)
  {
  }

  // Encoding loses nothing, and every 24 bytes are the encoding of what they decode to.
  lemma HeaderRoundTrip(h: Header, rest: seq<Byte>)
    ensures DecodeHeader(EncodeHeader(h) + rest) == h
  {
    EncodedFields(h, rest);
    WordsRoundTrip(h.version, h.magic, h.timestamp);
    WordsRoundTrip(0, h.length, 0);
    WordsRoundTrip(0, h.sequence, 0);
  }

  lemma BytesRoundTrip(bs: seq<Byte>)
    requires |bs| == HEADER_SIZE
    ensures EncodeHeader(DecodeHeader(bs)) == bs
  {
    BytesOfValue(bs[0..4]);
    BytesOfValue(bs[4..6]);
    BytesOfValue(bs[8..12]);
    BytesOfValue(bs[12..16]);
    BytesOfValue(bs[16..24]);
    assert bs == bs[0..4] + bs[4..6] + [bs[6]] + [bs[7]] + bs[8..12] + bs[12..16] + bs[16..24];
  }

  predicate Acceptable(spec: Spec, h: Header) {
    h.magic == spec.magic && h.version == spec.version && h.kind in spec.types && h.length <= spec.maxPayload
  }

  // A header is accepted exactly when it is the encoding of an acceptable one.
  lemma ValidateHeaderIff(spec: Spec, bs: seq<Byte>, h: Header)
    requires |bs| == HEADER_SIZE
    ensures ValidateHeader(spec, bs) == Ok(h) <==> bs == EncodeHeader(h) && Acceptable(spec, h)
  {
    BytesRoundTrip(bs);
    HeaderRoundTrip(h, []);
    assert EncodeHeader(h) + [] == EncodeHeader(h);
  }

  // --- Messages ---

  function ValidateMessage(spec: Spec, bs: seq<Byte>): Result<(Header, seq<Byte>)> {
    if |bs| < HEADER_SIZE then Err(TooShort)
    else
      match ValidateHeader(spec, bs[..HEADER_SIZE])
      case Err(e) => Err(e)
      case Ok(h) =>
        if h.kind !in spec.types then Err(UnknownType)
        else
          var t := spec.types[h.kind];
          if !t.hasPayload && h.length > 0 then Err(UnexpectedPayload)
          else if t.hasPayload && h.length == 0 then Err(MissingPayload)
          else if h.length > t.maxPayload then Err(TooLargeForType)
          else if |bs| < HEADER_SIZE + h.length then Err(Truncated)
          else Ok((h, bs[HEADER_SIZE..HEADER_SIZE + h.length]))
  }

  // The length field is the payload length modulo 2^32; the timestamp is left at 0.
  function CreateHeader(spec: Spec, kind: Byte, length: nat, sequence: U32): Header {
    Header(spec.magic, spec.version, kind, 0, length % 0x1_0000_0000, sequence, 0)
  }

  function CreateMessage(spec: Spec, kind: Byte, payload: seq<Byte>, sequence: U32): seq<Byte> {
    EncodeHeader(CreateHeader(spec, kind, |payload|, sequence)) + payload
  }

  predicate PayloadAllowed(t: MessageType, length: nat) {
    (t.hasPayload <==> length > 0) && length <= t.maxPayload
  }

  lemma MessageHead(h: Header, rest: seq<Byte>)
    ensures (EncodeHeader(h) + rest)[..HEADER_SIZE] == EncodeHeader(h)
    ensures (EncodeHeader(h) + rest)[HEADER_SIZE..] == rest
  {
  }

  lemma MessageRead(spec: Spec, h: Header, tail: seq<Byte>)
    ensures var r := ValidateMessage(spec, EncodeHeader(h) + tail);
      && (r.Ok? <==> Acceptable(spec, h) && PayloadAllowed(spec.types[h.kind], h.length) && h.length <= |tail|)
      && (r.Ok? ==> r.value == (h, tail[..h.length]))
  {
    MessageHead(h, tail);
    HeaderRoundTrip(h, []);
    assert EncodeHeader(h) + [] == EncodeHeader(h);
    var bs := EncodeHeader(h) + tail;
    if h.length <= |tail| { assert bs[HEADER_SIZE..HEADER_SIZE + h.length] == tail[..h.length]; }
  }

  lemma WrapsIff(n: nat)
    ensures n % 0x1_0000_0000 == n <==> n < 0x1_0000_0000
  {
  }

  // What is written for a message, whatever follows: the version and magic number of the specification, the
  // type, no flags, the length modulo 2^32, the sequence number, no timestamp, and the payload.
  lemma CreatedFields(spec: Spec, kind: Byte, payload: seq<Byte>, sequence: U32, tail: seq<Byte>)
    ensures var bs := CreateMessage(spec, kind, payload, sequence) + tail;
      var h := DecodeHeader(bs);
      && h.magic == spec.magic && h.version == spec.version && h.kind == kind && h.flags == 0
      && h.length == |payload| % 0x1_0000_0000 && h.sequence == sequence && h.timestamp == 0
      && bs[24..] == payload + tail
  {
    var h := CreateHeader(spec, kind, |payload|, sequence);
    assert CreateMessage(spec, kind, payload, sequence) + tail == EncodeHeader(h) + (payload + tail);
    HeaderRoundTrip(h, payload + tail);
    MessageHead(h, payload + tail);
  }

  // For every type, payload, sequence number and trailing bytes: a created message validates to the header
  // with these fields and to its payload exactly when the type is known and the length meets its rules.
  lemma MessageRoundTripIff(spec: Spec, kind: Byte, payload: seq<Byte>, sequence: U32, trailing: seq<Byte>)
    ensures ValidateMessage(spec, CreateMessage(spec, kind, payload, sequence) + trailing) ==
            Ok((Header(spec.magic, spec.version, kind, 0, |payload| % 0x1_0000_0000, sequence, 0), payload)) <==>
            && kind in spec.types && |payload| <= spec.maxPayload
            && (spec.types[kind].hasPayload <==> payload != []) && |payload| <= spec.types[kind].maxPayload
  {
    var h := CreateHeader(spec, kind, |payload|, sequence);
    assert CreateMessage(spec, kind, payload, sequence) + trailing == EncodeHeader(h) + (payload + trailing);
    WrapsIff(|payload|);
    MessageRead(spec, h, payload + trailing);
    Head(payload, trailing, h.length);
  }

  lemma Head(a: seq<Byte>, b: seq<Byte>, n: nat)
    requires n <= |a|
    ensures (a + b)[..n] == a <==> n == |a|
  {
  }

  // --- Streams ---

  datatype ReadError = Eof | UnexpectedEof

  datatype Failure = HeaderCut(read: ReadError) | HeaderRefused(why: Error) | PayloadCut(read: ReadError)

  // A result carries the number of valid messages before it, as a uint32.
  datatype Outcome =
    | Valid(header: Header, payload: seq<Byte>, number: U32)
    | Invalid(failure: Failure, number: U32)

  function Next(number: U32): U32 {
    (number + 1) % 0x1_0000_0000
  }

  function Outcomes(spec: Spec, bs: seq<Byte>, number: U32): seq<Outcome>
    decreases |bs|
  {
    if bs == [] then []
    else if |bs| < HEADER_SIZE then [Invalid(HeaderCut(UnexpectedEof), number)]
    else
      var rest := bs[HEADER_SIZE..];
      match ValidateHeader(spec, bs[..HEADER_SIZE])
      case Err(e) => [Invalid(HeaderRefused(e), number)] + Outcomes(spec, rest, number)
      case Ok(h) =>
        if |rest| < h.length then [Invalid(PayloadCut(if rest == [] then Eof else UnexpectedEof), number)]
        else [Valid(h, rest[..h.length], number)] + Outcomes(spec, rest[h.length..], Next(number))
  }

  // Fewer than 24 bytes are a truncated header. A bad header takes 24 bytes and the stream goes on behind them.
  // A payload that does not all come is an end of input exactly when none of it does.
  lemma FailuresAre(spec: Spec, bs: seq<Byte>, number: U32)
    ensures 0 < |bs| < 24 ==> Outcomes(spec, bs, number) == [Invalid(HeaderCut(UnexpectedEof), number)]
    ensures |bs| >= 24 && ValidateHeader(spec, bs[..24]).Err? ==>
              Outcomes(spec, bs, number) ==
              [Invalid(HeaderRefused(ValidateHeader(spec, bs[..24]).error), number)] + Outcomes(spec, bs[24..], number)
    ensures |bs| >= 24 && ValidateHeader(spec, bs[..24]).Ok? ==>
              var length := ValidateHeader(spec, bs[..24]).value.length;
              && (|bs| == 24 && length > 0 ==> Outcomes(spec, bs, number) == [Invalid(PayloadCut(Eof), number)])
              && (24 < |bs| < 24 + length ==>
                    Outcomes(spec, bs, number) == [Invalid(PayloadCut(UnexpectedEof), number)])
  {
    if |bs| == 24 { assert bs[24..] == []; }
  }

  // --- What a stream's results mean ---

  function Flatten(pieces: seq<seq<Byte>>): seq<Byte> {
    if pieces == [] then [] else pieces[0] + Flatten(pieces[1..])
  }

  // A piece of the input and the result it gives: a whole message, 24 bytes of a bad header, or a
  // truncation at the very end.
  ghost predicate Explains(spec: Spec, piece: seq<Byte>, r: Outcome, last: bool) {
    match r
    case Valid(h, payload, _) =>
      Acceptable(spec, h) && |payload| == h.length && piece == EncodeHeader(h) + payload
    case Invalid(HeaderRefused(e), _) =>
      |piece| == HEADER_SIZE && ValidateHeader(spec, piece) == Err(e)
    case Invalid(HeaderCut(read), _) =>
      last && 0 < |piece| < HEADER_SIZE && read == UnexpectedEof
    case Invalid(PayloadCut(read), _) =>
      && last && |piece| >= HEADER_SIZE && Acceptable(spec, DecodeHeader(piece))
      && |piece| < HEADER_SIZE + DecodeHeader(piece).length
      && (read == Eof <==> |piece| == HEADER_SIZE)
  }

  ghost predicate Explained(spec: Spec, pieces: seq<seq<Byte>>, rs: seq<Outcome>, number: U32) {
    && |pieces| == |rs|
    && (pieces != [] ==>
          && Explains(spec, pieces[0], rs[0], |pieces| == 1)
          && rs[0].number == number
          && Explained(spec, pieces[1..], rs[1..], if rs[0].Valid? then Next(number) else number))
  }

  function Pieces(spec: Spec, bs: seq<Byte>): (ps: seq<seq<Byte>>)
    decreases |bs|
  {
    if bs == [] then []
    else if |bs| < HEADER_SIZE then [bs]
    else
      var rest := bs[HEADER_SIZE..];
      match ValidateHeader(spec, bs[..HEADER_SIZE])
      case Err(e) => [bs[..HEADER_SIZE]] + Pieces(spec, rest)
      case Ok(h) =>
        if |rest| < h.length then [bs]
        else [bs[..HEADER_SIZE + h.length]] + Pieces(spec, rest[h.length..])
  }

  lemma ExplainedCons(spec: Spec, piece: seq<Byte>, r: Outcome, pieces: seq<seq<Byte>>, rs: seq<Outcome>)
    requires !(r.Invalid? && (r.failure.HeaderCut? || r.failure.PayloadCut?))
    requires Explains(spec, piece, r, false)
    requires Explained(spec, pieces, rs, if r.Valid? then Next(r.number) else r.number)
    ensures Explained(spec, [piece] + pieces, [r] + rs, r.number)
    ensures Flatten([piece] + pieces) == piece + Flatten(pieces)
  {
    assert ([piece] + pieces)[1..] == pieces && ([r] + rs)[1..] == rs;
  }

  lemma ExplainedLast(spec: Spec, piece: seq<Byte>, r: Outcome)
    requires r.Invalid? && Explains(spec, piece, r, true)
    ensures Explained(spec, [piece], [r], r.number)
    ensures Flatten([piece]) == piece
  {
    assert [piece][1..] == [] && [r][1..] == [];
    assert piece + [] == piece;
  }

  lemma DecodeHead(bs: seq<Byte>)
    requires |bs| >= HEADER_SIZE
    ensures DecodeHeader(bs) == DecodeHeader(bs[..HEADER_SIZE])
  {
    var hd := bs[..HEADER_SIZE];
    assert bs[0..4] == hd[0..4] && bs[4..6] == hd[4..6] && bs[8..12] == hd[8..12];
    assert bs[12..16] == hd[12..16] && bs[16..24] == hd[16..24];
  }

  lemma WholeMessage(spec: Spec, bs: seq<Byte>, h: Header)
    requires HEADER_SIZE <= |bs| && ValidateHeader(spec, bs[..HEADER_SIZE]) == Ok(h) && |bs| >= HEADER_SIZE + h.length
    ensures Acceptable(spec, h)
    ensures bs[..HEADER_SIZE + h.length] == EncodeHeader(h) + bs[HEADER_SIZE..][..h.length]
    ensures bs == bs[..HEADER_SIZE + h.length] + bs[HEADER_SIZE..][h.length..]
  {
    ValidateHeaderIff(spec, bs[..HEADER_SIZE], h);
  }

  // The results tile the input: consecutive pieces, one a result, whose concatenation is the whole input.
  lemma {:induction false} ResultsTileTheInput(spec: Spec, bs: seq<Byte>, number: U32)
    ensures Explained(spec, Pieces(spec, bs), Outcomes(spec, bs, number), number)
    ensures Flatten(Pieces(spec, bs)) == bs
    decreases |bs|
  {
    if bs == [] {
    } else if |bs| < HEADER_SIZE {
      ExplainedLast(spec, bs, Invalid(HeaderCut(UnexpectedEof), number));
    } else {
      var rest := bs[HEADER_SIZE..];
      match ValidateHeader(spec, bs[..HEADER_SIZE])
      case Err(e) =>
        ResultsTileTheInput(spec, rest, number);
        ExplainedCons(spec, bs[..HEADER_SIZE], Invalid(HeaderRefused(e), number),
                      Pieces(spec, rest), Outcomes(spec, rest, number));
        assert bs == bs[..HEADER_SIZE] + rest;
      case Ok(h) =>
        if |rest| < h.length {
          DecodeHead(bs);
          ExplainedLast(spec, bs, Invalid(PayloadCut(if rest == [] then Eof else UnexpectedEof), number));
        } else {
          WholeMessage(spec, bs, h);
          ResultsTileTheInput(spec, rest[h.length..], Next(number));
          ExplainedCons(spec, bs[..HEADER_SIZE + h.length], Valid(h, rest[..h.length], number),
                        Pieces(spec, rest[h.length..]), Outcomes(spec, rest[h.length..], Next(number)));
        }
    }
  }

  lemma OnePiece(spec: Spec, piece: seq<Byte>, r: Outcome, rest: seq<Byte>)
    requires Explains(spec, piece, r, rest == [])
    ensures Outcomes(spec, piece + rest, r.number) ==
            [r] + Outcomes(spec, rest, if r.Valid? then Next(r.number) else r.number)
  {
    var bs := piece + rest;
    match r
    case Valid(h, payload, _) =>
      assert bs == EncodeHeader(h) + (payload + rest);
      MessageHead(h, payload + rest);
      ValidateHeaderIff(spec, EncodeHeader(h), h);
      assert (payload + rest)[..h.length] == payload && (payload + rest)[h.length..] == rest;
    case Invalid(HeaderRefused(e), _) =>
      assert bs[..HEADER_SIZE] == piece && bs[HEADER_SIZE..] == rest;
    case Invalid(HeaderCut(_), _) =>
      assert bs == piece;
    case Invalid(PayloadCut(_), _) =>
      assert bs == piece;
      DecodeHead(bs);
  }

  lemma FirstPiece(spec: Spec, pieces: seq<seq<Byte>>, rs: seq<Outcome>, number: U32)
    requires Explained(spec, pieces, rs, number) && pieces != []
    ensures var after := if rs[0].Valid? then Next(number) else number;
      && Outcomes(spec, Flatten(pieces), number) == [rs[0]] + Outcomes(spec, Flatten(pieces[1..]), after)
      && Explained(spec, pieces[1..], rs[1..], after)
  {
    if |pieces| > 1 { PieceNonEmpty(spec, pieces[1], rs[1], |pieces[1..]| == 1); }
    assert Explains(spec, pieces[0], rs[0], Flatten(pieces[1..]) == []);
    OnePiece(spec, pieces[0], rs[0], Flatten(pieces[1..]));
  }

  // Any way to cut the input into such pieces gives the same results.
  lemma {:induction false} ResultsAreDetermined(spec: Spec, pieces: seq<seq<Byte>>, rs: seq<Outcome>, number: U32)
    requires Explained(spec, pieces, rs, number)
    ensures Outcomes(spec, Flatten(pieces), number) == rs
  {
    if pieces != [] {
      FirstPiece(spec, pieces, rs, number);
      ResultsAreDetermined(spec, pieces[1..], rs[1..], if rs[0].Valid? then Next(number) else number);
      assert rs == [rs[0]] + rs[1..];
    }
  }

  lemma PieceNonEmpty(spec: Spec, piece: seq<Byte>, r: Outcome, last: bool)
    requires Explains(spec, piece, r, last)
    ensures piece != []
  {
  }

  // The results of a stream are exactly the readings of it as a tiling by messages, bad headers and at
  // most one truncation at the end.
  lemma StreamIff(spec: Spec, bs: seq<Byte>, rs: seq<Outcome>)
    ensures Outcomes(spec, bs, 0) == rs <==> exists pieces :: Flatten(pieces) == bs && Explained(spec, pieces, rs, 0)
  {
    ResultsTileTheInput(spec, bs, 0);
    forall pieces | Flatten(pieces) == bs && Explained(spec, pieces, rs, 0) ensures Outcomes(spec, bs, 0) == rs {
      ResultsAreDetermined(spec, pieces, rs, 0);
    }
  }

  function ValidCount(rs: seq<Outcome>): nat {
    if rs == [] then 0 else (if rs[0].Valid? then 1 else 0) + ValidCount(rs[1..])
  }

  // Each result carries the number of valid results before it, modulo 2^32.
  lemma {:induction false} NumbersCountValid(spec: Spec, pieces: seq<seq<Byte>>, rs: seq<Outcome>, number: U32, i: nat)
    requires Explained(spec, pieces, rs, number) && i < |rs|
    ensures rs[i].number == (number + ValidCount(rs[..i])) % 0x1_0000_0000
  {
    if i > 0 {
      assert rs[..i][1..] == rs[1..][..i - 1];
      NextSum(number, ValidCount(rs[1..][..i - 1]));
      NumbersCountValid(spec, pieces[1..], rs[1..], if rs[0].Valid? then Next(number) else number, i - 1);
    }
  }

  lemma StreamNumbers(spec: Spec, bs: seq<Byte>, i: nat)
    requires i < |Outcomes(spec, bs, 0)|
    ensures Outcomes(spec, bs, 0)[i].number == ValidCount(Outcomes(spec, bs, 0)[..i]) % 0x1_0000_0000
  {
    ResultsTileTheInput(spec, bs, 0);
    NumbersCountValid(spec, Pieces(spec, bs), Outcomes(spec, bs, 0), 0, i);
  }

  lemma NextSum(number: U32, n: nat)
    ensures (Next(number) + n) % 0x1_0000_0000 == (number + (1 + n)) % 0x1_0000_0000
  {
  }

  // --- Well-formed streams ---

  datatype Message = Message(header: Header, payload: seq<Byte>)

  ghost predicate WellFormed(spec: Spec, ms: seq<Message>) {
    forall i :: 0 <= i < |ms| ==> Acceptable(spec, ms[i].header) && |ms[i].payload| == ms[i].header.length
  }

  function Stream(ms: seq<Message>): seq<Byte> {
    if ms == [] then [] else EncodeHeader(ms[0].header) + ms[0].payload + Stream(ms[1..])
  }

  function Numbered(ms: seq<Message>, number: U32): seq<Outcome> {
    if ms == [] then [] else [Valid(ms[0].header, ms[0].payload, number)] + Numbered(ms[1..], Next(number))
  }

  // A concatenation of well-formed messages gives back exactly those headers and payloads.
  lemma {:induction false} MessagesComeBack(spec: Spec, ms: seq<Message>, number: U32)
    requires WellFormed(spec, ms)
    ensures Outcomes(spec, Stream(ms), number) == Numbered(ms, number)
  {
    if ms != [] {
      var m := ms[0];
      MessagesComeBack(spec, ms[1..], Next(number));
      OnePiece(spec, EncodeHeader(m.header) + m.payload, Valid(m.header, m.payload, number), Stream(ms[1..]));
    }
  }

  ghost predicate AllValid(rs: seq<Outcome>) {
    forall i :: 0 <= i < |rs| ==> rs[i].Valid?
  }

  lemma {:induction false} ValidStreamIsMessages(spec: Spec, bs: seq<Byte>, number: U32) returns (ms: seq<Message>)
    requires AllValid(Outcomes(spec, bs, number))
    ensures WellFormed(spec, ms) && bs == Stream(ms)
    decreases |bs|
  {
    if bs == [] {
      ms := [];
    } else {
      var rs := Outcomes(spec, bs, number);
      assert rs[0].Valid?;
      var h := ValidateHeader(spec, bs[..HEADER_SIZE]).value;
      var rest := bs[HEADER_SIZE..];
      WholeMessage(spec, bs, h);
      assert rs[1..] == Outcomes(spec, rest[h.length..], Next(number));
      var tail := ValidStreamIsMessages(spec, rest[h.length..], Next(number));
      ms := [Message(h, rest[..h.length])] + tail;
      assert ms[1..] == tail;
    }
  }

  lemma {:induction false} NumberedAreValid(ms: seq<Message>, number: U32)
    ensures AllValid(Numbered(ms, number))
  {
    if ms != [] { NumberedAreValid(ms[1..], Next(number)); }
  }

  // A stream gives no invalid result exactly when it is a concatenation of well-formed messages.
  lemma CompliantIff(spec: Spec, bs: seq<Byte>)
    ensures AllValid(Outcomes(spec, bs, 0)) <==> exists ms :: WellFormed(spec, ms) && bs == Stream(ms)
  {
    if AllValid(Outcomes(spec, bs, 0)) {
      var ms := ValidStreamIsMessages(spec, bs, 0);
    }
    forall ms | WellFormed(spec, ms) && bs == Stream(ms) ensures AllValid(Outcomes(spec, bs, 0)) {
      MessagesComeBack(spec, ms, 0);
      NumberedAreValid(ms, 0);
    }
  }

  lemma OnlyOutcome(spec: Spec, bs: seq<Byte>, r: Outcome)
    requires Outcomes(spec, bs, 0) == [r]
    ensures Explains(spec, bs, r, true)
  {
    ResultsTileTheInput(spec, bs, 0);
    var ps := Pieces(spec, bs);
    assert ps[1..] == [] && ps[0] == ps[0] + [] == bs;
  }

  // The stream validator does not apply the rules of the type: it takes a created message as one valid
  // result exactly when the type is known and the length is within the general maximum.
  lemma StreamAcceptsIff(spec: Spec, kind: Byte, payload: seq<Byte>, sequence: U32)
    ensures Outcomes(spec, CreateMessage(spec, kind, payload, sequence), 0) ==
            [Valid(Header(spec.magic, spec.version, kind, 0, |payload| % 0x1_0000_0000, sequence, 0), payload, 0)] <==>
            kind in spec.types && |payload| <= spec.maxPayload
  {
    var h := CreateHeader(spec, kind, |payload|, sequence);
    var bs := CreateMessage(spec, kind, payload, sequence);
    var r := Valid(h, payload, 0);
    if kind in spec.types && |payload| <= spec.maxPayload {
      OnePiece(spec, bs, r, []);
      assert bs + [] == bs && [r] + [] == [r];
    }
    if Outcomes(spec, bs, 0) == [r] { OnlyOutcome(spec, bs, r); }
  }

  // A stream accepts a message that validation on its own refuses exactly when the length is within the
  // general maximum but breaks the rules of its type.
  lemma StreamIsLaxerIff(spec: Spec, kind: Byte, payload: seq<Byte>, sequence: U32)
    requires kind in spec.types
    ensures var h := Header(spec.magic, spec.version, kind, 0, |payload| % 0x1_0000_0000, sequence, 0);
      (Outcomes(spec, CreateMessage(spec, kind, payload, sequence), 0) == [Valid(h, payload, 0)]
       && ValidateMessage(spec, CreateMessage(spec, kind, payload, sequence)) != Ok((h, payload))) <==>
      && |payload| <= spec.maxPayload
      && !((spec.types[kind].hasPayload <==> payload != []) && |payload| <= spec.types[kind].maxPayload)
  {
    StreamAcceptsIff(spec, kind, payload, sequence);
    MessageRoundTripIff(spec, kind, payload, sequence, []);
    var bs := CreateMessage(spec, kind, payload, sequence);
    assert bs + [] == bs;
  }

  // --- The reader and the loop ---

  class Reader {
    const data: seq<Byte>
    var at: nat

    ghost predicate Valid()
      reads this
    {
      at <= |data|
    }

    constructor (data: seq<Byte>)
      ensures Valid() && this.data == data && at == 0
    {
      this.data := data;
      at := 0;
    }

    // io.ReadFull: all n bytes, or Eof when there are none, or UnexpectedEof with all the rest consumed.
    method ReadFull(n: nat) returns (bytes: seq<Byte>, failed: bool, error: ReadError)
      requires Valid() && n > 0
      modifies this
      ensures Valid()
      ensures failed <==> old(at) + n > |data|
      ensures !failed ==> at == old(at) + n && bytes == data[old(at)..at]
      ensures failed ==> at == |data| && (error == Eof <==> old(at) == |data|)
    {
      error := Eof;
      if at + n <= |data| {
        bytes := data[at..at + n];
        at := at + n;
        failed := false;
      } else {
        bytes := data[at..];
        failed := true;
        if at < |data| {
          error := UnexpectedEof;
        }
        at := |data|;
      }
    }
  }

  lemma CutHeader(spec: Spec, bs: seq<Byte>, number: U32)
    requires 0 < |bs| < HEADER_SIZE
    ensures Outcomes(spec, bs, number) == [Invalid(HeaderCut(UnexpectedEof), number)] + Outcomes(spec, [], number)
  {
  }

  lemma RefusedHeader(spec: Spec, bs: seq<Byte>, number: U32, e: Error)
    requires |bs| >= HEADER_SIZE && ValidateHeader(spec, bs[..HEADER_SIZE]) == Err(e)
    ensures Outcomes(spec, bs, number) ==
            [Invalid(HeaderRefused(e), number)] + Outcomes(spec, bs[HEADER_SIZE..], number)
  {
  }

  lemma CutPayload(spec: Spec, bs: seq<Byte>, number: U32, h: Header)
    requires |bs| >= HEADER_SIZE && ValidateHeader(spec, bs[..HEADER_SIZE]) == Ok(h) && |bs| < HEADER_SIZE + h.length
    ensures Outcomes(spec, bs, number) ==
            [Invalid(PayloadCut(if |bs| == HEADER_SIZE then Eof else UnexpectedEof), number)] +
            Outcomes(spec, [], number)
  {
  }

  lemma AcceptedMessage(spec: Spec, bs: seq<Byte>, number: U32, h: Header)
    requires |bs| >= HEADER_SIZE && ValidateHeader(spec, bs[..HEADER_SIZE]) == Ok(h) && |bs| >= HEADER_SIZE + h.length
    ensures Outcomes(spec, bs, number) ==
            [Valid(h, bs[HEADER_SIZE..HEADER_SIZE + h.length], number)] +
            Outcomes(spec, bs[HEADER_SIZE + h.length..], Next(number))
  {
    var rest := bs[HEADER_SIZE..];
    assert rest[..h.length] == bs[HEADER_SIZE..HEADER_SIZE + h.length];
    assert rest[h.length..] == bs[HEADER_SIZE + h.length..];
  }

  // One turn of the loop, with the input still to be read.
  method ReadOutcome(spec: Spec, reader: Reader, header: seq<Byte>, number: U32)
      returns (r: Outcome, ghost rest: seq<Byte>)
    requires reader.Valid() && |header| == HEADER_SIZE
    modifies reader
    ensures reader.Valid() && reader.at >= old(reader.at) && rest == reader.data[reader.at..]
    ensures Outcomes(spec, header + reader.data[old(reader.at)..], number) ==
            [r] + Outcomes(spec, rest, if r.Valid? then Next(number) else number)
    ensures r.number == number
  {
    ghost var bs := header + reader.data[reader.at..];
    assert bs[..HEADER_SIZE] == header && bs[HEADER_SIZE..] == reader.data[reader.at..];
    match ValidateHeader(spec, header) {
      case Err(e) =>
        r := Invalid(HeaderRefused(e), number);
        RefusedHeader(spec, bs, number, e);
      case Ok(h) =>
        var payload := [];
        if h.length > 0 {
          var failed, error;
          payload, failed, error := reader.ReadFull(h.length);
          if failed {
            CutPayload(spec, bs, number, h);
            r := Invalid(PayloadCut(error), number);
            return r, [];
          }
        }
        r := Valid(h, payload, number);
        AcceptedMessage(spec, bs, number, h);
        assert bs[HEADER_SIZE..HEADER_SIZE + h.length] == payload;
        assert bs[HEADER_SIZE + h.length..] == reader.data[reader.at..];
    }
    rest := reader.data[reader.at..];
  }

  // What is still to be read.
  ghost function Rest(reader: Reader): seq<Byte>
    reads reader
    requires reader.Valid()
  {
    reader.data[reader.at..]
  }

  // One turn of the loop: the end of the input, or one more result.
  method ReadResult(spec: Spec, reader: Reader, number: U32) returns (results: seq<Outcome>, next: U32)
    requires reader.Valid()
    modifies reader
    ensures reader.Valid() && |results| <= 1
    ensures results == [] ==> old(Rest(reader)) == [] && reader.at == |reader.data|
    ensures results != [] ==> reader.at > old(reader.at)
    ensures Outcomes(spec, old(Rest(reader)), number) == results + Outcomes(spec, Rest(reader), next)
  {
    ghost var bs := Rest(reader);
    var header, failed, error := reader.ReadFull(HEADER_SIZE);
    next := number;
    if failed {
      assert Rest(reader) == [];
      if error == Eof {
        return [], next;
      }
      CutHeader(spec, bs, number);
      results := [Invalid(HeaderCut(error), number)];
    } else {
      assert bs == header + Rest(reader);
      var r, rest := ReadOutcome(spec, reader, header, number);
      results := [r];
      if r.Valid? {
        next := Next(number);
      }
    }
  }

  // For every input the loop ends, has consumed everything and returns the stream's results.
  method ValidateStream(spec: Spec, reader: Reader) returns (results: seq<Outcome>)
    requires reader.Valid()
    modifies reader
    ensures reader.at == |reader.data|
    ensures results == Outcomes(spec, old(reader.data[reader.at..]), 0)
  {
    results := [];
    var sequence: U32 := 0;
    ghost var all := Outcomes(spec, Rest(reader), 0);
    assert all == [] + all;
    while true
      invariant reader.Valid()
      invariant all == results + Outcomes(spec, Rest(reader), sequence)
      decreases |reader.data| - reader.at
    {
      ghost var before := results;
      var found;
      found, sequence := ReadResult(spec, reader, sequence);
      if found == [] {
        break;
      }
      results := results + found;
      Seqs.Concat(before, found, Outcomes(spec, Rest(reader), sequence));
    }
    assert results + [] == results;
  }

  // --- The compliance report ---

  datatype Report = Report(compliant: bool, total: nat, valid: nat, invalid: nat,
                           errors: seq<(U32, Failure)>, kinds: map<Byte, nat>)

  function Failures(rs: seq<Outcome>): seq<(U32, Failure)> {
    if rs == [] then []
    else
      var r := rs[|rs| - 1];
      Failures(rs[..|rs| - 1]) + if r.Valid? then [] else [(r.number, r.failure)]
  }

  function OfKind(rs: seq<Outcome>, k: Byte): nat {
    if rs == [] then 0
    else
      var r := rs[|rs| - 1];
      OfKind(rs[..|rs| - 1], k) + if r.Valid? && r.header.kind == k then 1 else 0
  }

  method ComplianceReport(results: seq<Outcome>) returns (report: Report)
    ensures report.total == |results| == report.valid + report.invalid
    ensures report.compliant <==> AllValid(results)
    ensures report.errors == Failures(results) && report.invalid == |report.errors|
    ensures forall k :: OfKind(results, k) == if k in report.kinds then report.kinds[k] else 0
    ensures forall k :: k in report.kinds ==> report.kinds[k] > 0
  {
    var valid, invalid, errors, kinds := 0, 0, [], map[];
    var i := 0;
    while i < |results|
      invariant i <= |results| && i == valid + invalid
      invariant errors == Failures(results[..i]) && invalid == |errors|
      invariant invalid == 0 <==> AllValid(results[..i])
      invariant forall k :: OfKind(results[..i], k) == if k in kinds then kinds[k] else 0
      invariant forall k :: k in kinds ==> kinds[k] > 0
    {
      assert results[..i + 1][..i] == results[..i];
      assert AllValid(results[..i + 1]) <==> AllValid(results[..i]) && results[i].Valid?;
      match results[i] {
        case Valid(h, _, _) =>
          valid := valid + 1;
          kinds := kinds[h.kind := 1 + if h.kind in kinds then kinds[h.kind] else 0];
        case Invalid(failure, number) =>
          invalid := invalid + 1;
          errors := errors + [(number, failure)];
      }
      i := i + 1;
    }
    assert results[..i] == results;
    report := Report(invalid == 0, |results|, valid, invalid, errors, kinds);
  }

  // The errors are those of the invalid results, in their order, each with its number.
  lemma {:induction false} ErrorsInOrder(rs: seq<Outcome>)
    ensures var invalid := Seqs.Filter(rs, (r: Outcome) => r.Invalid?);
      && |Failures(rs)| == |invalid|
      && forall i :: 0 <= i < |invalid| ==>
           invalid[i].Invalid? && Failures(rs)[i] == (invalid[i].number, invalid[i].failure)
  {
    if rs != [] { ErrorsInOrder(rs[..|rs| - 1]); }
  }

  // How many valid results have the type.
  lemma {:induction false} KindsAreCounted(rs: seq<Outcome>, kind: Byte)
    ensures OfKind(rs, kind) == |set i | 0 <= i < |rs| && rs[i].Valid? && rs[i].header.kind == kind|
  {
    if rs != [] {
      var n := |rs| - 1;
      KindsAreCounted(rs[..n], kind);
      var before := set i | 0 <= i < n && rs[..n][i].Valid? && rs[..n][i].header.kind == kind;
      var all := set i | 0 <= i < |rs| && rs[i].Valid? && rs[i].header.kind == kind;
      assert all == before + if rs[n].Valid? && rs[n].header.kind == kind then {n} else {};
    }
  }

  // --- Which refusal it is ---

  // The first of the tests that fails gives the error: magic number, version, type, general maximum.
  lemma HeaderRefusals(spec: Spec, bs: seq<Byte>)
    ensures ValidateHeader(spec, bs) == Err(TooShort) <==> |bs| < 24
    ensures |bs| >= 24 ==>
      var magic, version, kind, length := Value(bs[0..4]), Value(bs[4..6]), bs[6], Value(bs[8..12]);
      && (ValidateHeader(spec, bs) == Err(BadMagic) <==> magic != spec.magic)
      && (ValidateHeader(spec, bs) == Err(BadVersion) <==> magic == spec.magic && version != spec.version)
      && (ValidateHeader(spec, bs) == Err(UnknownType) <==>
          magic == spec.magic && version == spec.version && kind !in spec.types)
      && (ValidateHeader(spec, bs) == Err(TooLarge) <==>
          magic == spec.magic && version == spec.version && kind in spec.types && length > spec.maxPayload)
  {
  }

  // A message whose header is accepted: no payload where none belongs, one where one belongs, the maximum of
  // the type, and the announced number of bytes, in this order.
  lemma MessageRefusals(spec: Spec, bs: seq<Byte>, h: Header)
    requires |bs| >= 24 && ValidateHeader(spec, bs[..24]) == Ok(h)
    ensures var t := spec.types[h.kind];
      && h.kind in spec.types
      && (ValidateMessage(spec, bs) == Err(UnexpectedPayload) <==> !t.hasPayload && h.length > 0)
      && (ValidateMessage(spec, bs) == Err(MissingPayload) <==> t.hasPayload && h.length == 0)
      && (ValidateMessage(spec, bs) == Err(TooLargeForType) <==>
          t.hasPayload && h.length > 0 && h.length > t.maxPayload)
      && (ValidateMessage(spec, bs) == Err(Truncated) <==>
          (t.hasPayload <==> h.length > 0) && h.length <= t.maxPayload && |bs| < 24 + h.length)
  {
  }

  // The shipped specification: magic number WEAT, version 1, and for each of the six types the lengths with
  // which a created message validates.
  lemma ShippedLengths(kind: Byte, payload: seq<Byte>, sequence: U32)
    ensures ValidateMessage(DefaultSpec(), CreateMessage(DefaultSpec(), kind, payload, sequence)) ==
            Ok((Header(0x57454154, 1, kind, 0, |payload| % 0x1_0000_0000, sequence, 0), payload)) <==>
            || (kind == 1 && payload == [])
            || (kind == 2 && 1 <= |payload| <= 1024)
            || ((kind == 3 || kind == 6) && 1 <= |payload| <= 65536)
            || (kind == 4 && 1 <= |payload| <= 256)
            || (kind == 5 && 1 <= |payload| <= 512)
  {
    MessageRoundTripIff(DefaultSpec(), kind, payload, sequence, []);
    assert CreateMessage(DefaultSpec(), kind, payload, sequence) + [] ==
           CreateMessage(DefaultSpec(), kind, payload, sequence);
  }
}
