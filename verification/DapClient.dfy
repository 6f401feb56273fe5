/** The client's side of the wire: framed bodies from a pipe, responses by request number, events queued. */
module DapClient {
  import opened Optional
  import opened Octets
  import opened Piped
  import opened Framing

  datatype BodyResult =
    | Whole(message: Bytes)
    | PeerClosed
    | NotUtf8
    | NoLengthHeader
    | BadLength
    | TruncatedBody
    | ReadFailed(error: IoError)

  // ----- one framed body, on a whole stream -----

  /** One line without its "\n" or "\r\n"; a last line without either is kept as it is. */
  function Chomp(line: Bytes): Bytes {
    if line == [] || line[|line| - 1] != LF then line
    else
      var cut := line[..|line| - 1];
      if cut != [] && cut[|cut| - 1] == CR then cut[..|cut| - 1] else cut
  }

  /** What follows the name on the first Content-Length line. */
  function FirstLength(header: Bytes): Option<Bytes>
    decreases |header|
  {
    if header == [] then None
    else
      var n := LineLength(header, LF);
      var line := Chomp(header[..n]);
      if HasPrefix(line, Name()) then Some(line[|Name()|..])
      else if n == 0 then None
      else FirstLength(header[n..])
  }

  function ReadBody(stream: Bytes, utf8: Bytes -> bool): (BodyResult, Bytes) {
    var i := Find(stream, HEADERS_END);
    if i == |stream| then (PeerClosed, [])
    else AfterHeader(stream[..i + 4], stream[i + 4..], utf8)
  }

  function AfterHeader(header: Bytes, rest: Bytes, utf8: Bytes -> bool): (BodyResult, Bytes) {
    if !utf8(header) then (NotUtf8, rest)
    else
      match FirstLength(header)
      case None => (NoLengthHeader, rest)
      case Some(text) =>
        match ParseUsize(Trim(text))
        case NotANumber => (BadLength, rest)
        case Number(n) =>
          if |rest| < n then (TruncatedBody, rest) else (Whole(header + rest[..n]), rest[n..])
  }

  ghost predicate AcceptsAscii(utf8: Bytes -> bool) {
    forall b: Bytes :: (forall i :: 0 <= i < |b| ==> b[i] < 128) ==> utf8(b)
  }

  lemma HeaderIsAscii(n: nat)
    ensures forall i :: 0 <= i < |HeaderLine(n) + HEADERS_END| ==> (HeaderLine(n) + HEADERS_END)[i] < 128
  {
  }

  lemma BlankLineFollows(h: Bytes)
    ensures h + HEADERS_END == h + CRLF + CRLF
  {
  }

  lemma FirstLineIsTheLength(n: nat)
    requires n < WORD
    ensures FirstLength(HeaderLine(n) + HEADERS_END) == Some(HeaderLine(n)[|Name()|..])
  {
    HeaderLineParses(n);
    hide HeaderLine, FirstLength, ParseUsize, Trim, HasPrefix, Name;
    BlankLineFollows(HeaderLine(n));
    FirstLineTaken(HeaderLine(n), CRLF);
  }

  lemma LineTo(h: Bytes, tail: Bytes)
    requires CR !in h && LF !in h
    ensures var s := h + CRLF + tail;
            LineLength(s, LF) == |h| + 2 && s[..|h| + 2] == h + CRLF && Chomp(h + CRLF) == h
  {
    var s := h + CRLF + tail;
    hide LineLength;
    assert s[|h| + 1] == LF && s[|h|] == CR;
    assert forall j :: 0 <= j < |h| ==> s[j] == h[j];
    assert (h + CRLF)[..|h| + 1] == h + [CR] && (h + [CR])[..|h|] == h;
  }

  /** A first line that names the length is the one taken, whatever lines follow. */
  lemma FirstLineTaken(h: Bytes, tail: Bytes)
    requires CR !in h && LF !in h && HasPrefix(h, Name())
    ensures FirstLength(h + CRLF + tail) == Some(h[|Name()|..])
  {
    hide LineLength, Chomp, Name;
    LineTo(h, tail);
  }

  lemma FrameSplits(body: Bytes, after: Bytes)
    requires |body| <= MAX_BYTES
    ensures var stream := Frame(body) + after; var header := HeaderLine(|body|) + HEADERS_END; var i := Find(stream, HEADERS_END);
            && i + 4 == |header| && i < |stream|
            && stream[..i + 4] == header && stream[i + 4..] == body + after
  {
    HeaderLineParses(|body|);
    hide HeaderLine, ParseUsize, Trim, HasPrefix;
    var h := HeaderLine(|body|);
    var stream := Frame(body) + after;
    assert stream == h + HEADERS_END + (body + after);
    FindSkips(h, HEADERS_END, body + after);
  }

  /** What the body step does once the header has been understood. */
  lemma BodyIsCutOut(header: Bytes, text: Bytes, body: Bytes, after: Bytes, utf8: Bytes -> bool)
    requires utf8(header) && FirstLength(header) == Some(text) && ParseUsize(Trim(text)) == Number(|body|)
    ensures AfterHeader(header, body + after, utf8) == (Whole(header + body), after)
  {
    hide FirstLength, ParseUsize, Trim;
    assert (body + after)[..|body|] == body && (body + after)[|body|..] == after;
  }

  lemma HeaderThenBody(body: Bytes, after: Bytes, utf8: Bytes -> bool)
    requires |body| <= MAX_BYTES && AcceptsAscii(utf8)
    ensures AfterHeader(HeaderLine(|body|) + HEADERS_END, body + after, utf8) == (Whole(Frame(body)), after)
  {
    hide HeaderLine, Name, ParseUsize, Trim, FirstLength, AfterHeader;
    var n := |body|;
    HeaderLineParses(n);
    HeaderIsAscii(n);
    FirstLineIsTheLength(n);
    BodyIsCutOut(HeaderLine(n) + HEADERS_END, HeaderLine(n)[|Name()|..], body, after, utf8);
  }

  /** A frame at the head of the stream is returned whole and exactly it is consumed. */
  lemma FrameIsReadWhole(body: Bytes, after: Bytes, utf8: Bytes -> bool)
    requires |body| <= MAX_BYTES && AcceptsAscii(utf8)
    ensures ReadBody(Frame(body) + after, utf8) == (Whole(Frame(body)), after)
  {
    FrameSplits(body, after);
    HeaderThenBody(body, after, utf8);
    hide HeaderLine, Frame, AfterHeader;
  }

  /** `count` calls in a row. */
  function ReadBodies(stream: Bytes, count: nat, utf8: Bytes -> bool): (seq<BodyResult>, Bytes)
    decreases count
  {
    if count == 0 then ([], stream)
    else
      var first := ReadBody(stream, utf8);
      var others := ReadBodies(first.1, count - 1, utf8);
      ([first.0] + others.0, others.1)
  }

  function WholeFrames(bodies: seq<Bytes>): seq<BodyResult> {
    if bodies == [] then [] else [Whole(Frame(bodies[0]))] + WholeFrames(bodies[1..])
  }

  /** Successive calls return exactly the frames that were sent, in order, and stop where they end. */
  lemma {:induction false} FramesArriveInOrder(bodies: seq<Bytes>, after: Bytes, utf8: Bytes -> bool)
    requires Sendable(bodies) && AcceptsAscii(utf8)
    ensures ReadBodies(Stream(bodies) + after, |bodies|, utf8) == (WholeFrames(bodies), after)
    decreases |bodies|
  {
    hide Frame, ReadBody;
    if bodies == [] {
      assert Stream(bodies) + after == after;
    } else {
      assert Stream(bodies) + after == Frame(bodies[0]) + (Stream(bodies[1..]) + after);
      FrameIsReadWhole(bodies[0], Stream(bodies[1..]) + after, utf8);
      FramesArriveInOrder(bodies[1..], after, utf8);
    }
  }

  // ----- messages -----

  datatype Incoming =
    | Response(requestSeq: nat, success: bool, payload: string)
    | Event(name: string)
    | Malformed(reason: string)
    | Panics

  /** What the JSON fields of a body make of it. */
  type Told = m: Incoming | !m.Panics? witness Malformed("")

  /** `Panicked` is no answer: the parser has stopped the program. */
  datatype Outcome =
    | Answered(payload: string)
    | Refused
    | Protocol
    | Transport
    | Dropped(error: IoError)
    | Happened(name: string)
    | Panicked

  /** The JSON side, which this model does not look into. */
  datatype Codec = Codec(utf8: Bytes -> bool, classify: Bytes -> Told)

  /** `read_one` after the bytes are in: the buffer parser once more, then the JSON fields. */
  function Classified(message: Bytes, codec: Codec): Incoming {
    match ReadOne(message).0
    case Message(body) => codec.classify(body)
    case Panic => Panics
    case _ => Malformed("framing")
  }

  /** How a wait ends when no message could be read. */
  function Stopped(r: BodyResult): Outcome
    requires !r.Whole?
  {
    match r
    case PeerClosed => Transport
    case TruncatedBody => Transport
    case ReadFailed(error) => Dropped(error)
    case _ => Protocol
  }

  /** Reading until the response to `request`: its outcome, the events met on the way, and the bytes left. */
  function Awaited(stream: Bytes, request: nat, codec: Codec): (Outcome, seq<string>, Bytes)
    decreases |stream|
  {
    var (r, rest) := ReadBody(stream, codec.utf8);
    match r
    case Whole(message) =>
      if |rest| >= |stream| then (Transport, [], rest)
      else
        (match Classified(message, codec)
         case Response(seen, success, payload) =>
           if seen == request then (if success then Answered(payload) else Refused, [], rest)
           else Awaited(rest, request, codec)
         case Event(name) =>
           var later := Awaited(rest, request, codec);
           (later.0, [name] + later.1, later.2)
         case Malformed(_) => (Protocol, [], rest)
         case Panics => (Panicked, [], rest))
    case _ => (Stopped(r), [], rest)
  }

  lemma WholeConsumes(stream: Bytes, utf8: Bytes -> bool)
    ensures ReadBody(stream, utf8).0.Whole? ==> |ReadBody(stream, utf8).1| < |stream|
  {
    hide FirstLength, Trim, ParseUsize;
  }

  function EventNames(incoming: seq<Incoming>): seq<string> {
    if incoming == [] then []
    else Queued(incoming[0]) + EventNames(incoming[1..])
  }

  function Incomings(bodies: seq<Bytes>, codec: Codec): seq<Incoming> {
    if bodies == [] then [] else [codec.classify(bodies[0])] + Incomings(bodies[1..], codec)
  }

  /** A message that does not end the wait for `request`. */
  predicate Passing(m: Incoming, request: nat) {
    m.Event? || (m.Response? && m.requestSeq != request)
  }

  /** The outcome that a response with the awaited number brings. */
  function Settles(m: Incoming): Outcome
    requires m.Response?
  {
    if m.success then Answered(m.payload) else Refused
  }

  function Queued(m: Incoming): seq<string> {
    if m.Event? then [m.name] else []
  }

  /** One step of the wait, over a message that has arrived whole. */
  lemma OneMessage(stream: Bytes, message: Bytes, rest: Bytes, request: nat, codec: Codec)
    requires ReadBody(stream, codec.utf8) == (Whole(message), rest) && |rest| < |stream|
    requires Classified(message, codec).Response? || Classified(message, codec).Event?
    ensures var (m, now, later) := (Classified(message, codec), Awaited(stream, request, codec), Awaited(rest, request, codec));
            now == if Passing(m, request) then (later.0, Queued(m) + later.1, later.2) else (Settles(m), [], rest)
  {
    hide ReadBody, Classified;
    var later := Awaited(rest, request, codec);
    assert [] + later.1 == later.1;
  }

  lemma EventNamesOfMore(m: Incoming, others: seq<Incoming>)
    ensures EventNames([m] + others) == Queued(m) + EventNames(others)
  {
    assert ([m] + others)[1..] == others;
  }

  ghost predicate AllPass(bodies: seq<Bytes>, request: nat, codec: Codec) {
    forall i :: 0 <= i < |bodies| ==> Passing(codec.classify(bodies[i]), request)
  }

  lemma FirstPasses(bodies: seq<Bytes>, request: nat, codec: Codec)
    requires bodies != [] && Sendable(bodies) && AllPass(bodies, request, codec)
    ensures |bodies[0]| <= MAX_BYTES && Sendable(bodies[1..])
    ensures Passing(codec.classify(bodies[0]), request) && AllPass(bodies[1..], request, codec)
  {
  }

  /** The response that answers is the first one with its number; every event before it is queued in order and no byte after it is touched. */
  lemma {:induction false} TheFirstMatchingResponseAnswers(bodies: seq<Bytes>, last: Bytes, after: Bytes, request: nat, codec: Codec)
    requires Sendable(bodies) && |last| <= MAX_BYTES && AcceptsAscii(codec.utf8) && AllPass(bodies, request, codec)
    requires codec.classify(last).Response? && codec.classify(last).requestSeq == request
    ensures Awaited(Stream(bodies) + Frame(last) + after, request, codec)
            == (Settles(codec.classify(last)), EventNames(Incomings(bodies, codec)), after)
    decreases |bodies|
  {
    hide Frame, ReadBody, Classified, Awaited, Sendable, AllPass, AcceptsAscii;
    var stream := Stream(bodies) + Frame(last) + after;
    if bodies == [] {
      assert stream == Frame(last) + after;
      OneFrameMore(last, after, codec);
      OneMessage(stream, Frame(last), after, request, codec);
    } else {
      var first, rest := bodies[0], Stream(bodies[1..]) + Frame(last) + after;
      assert stream == Frame(first) + rest;
      FirstPasses(bodies, request, codec);
      OneFrameMore(first, rest, codec);
      OneMessage(stream, Frame(first), rest, request, codec);
      TheFirstMatchingResponseAnswers(bodies[1..], last, after, request, codec);
      EventNamesOfMore(codec.classify(first), Incomings(bodies[1..], codec));
    }
  }

  lemma OneFrameMore(body: Bytes, rest: Bytes, codec: Codec)
    requires |body| <= MAX_BYTES && AcceptsAscii(codec.utf8)
    ensures ReadBody(Frame(body) + rest, codec.utf8) == (Whole(Frame(body)), rest)
    ensures |Frame(body) + rest| > |rest|
    ensures Classified(Frame(body), codec) == codec.classify(body)
  {
    hide ReadBody, ReadOne;
    WholeConsumes(Frame(body) + rest, codec.utf8);
    FrameIsReadWhole(body, rest, codec.utf8);
    FrameReadsBack(body, []);
    hide Frame;
    assert Frame(body) + [] == Frame(body);
  }

  // ----- waiting for an event -----

  /** Where `name` first stands in the queue, or its length. */
  function Position(queue: seq<string>, name: string): (i: nat)
    ensures i <= |queue| && (i < |queue| ==> queue[i] == name)
    ensures forall k :: 0 <= k < i ==> queue[k] != name
  {
    if queue == [] || queue[0] == name then 0 else Position(queue[1..], name) + 1
  }

  /** With nothing held: read on until the named event, letting every other message go. */
  function Sought(stream: Bytes, name: string, codec: Codec): (Outcome, Bytes)
    decreases |stream|
  {
    var (r, rest) := ReadBody(stream, codec.utf8);
    match r
    case Whole(message) =>
      if |rest| >= |stream| then (Transport, rest)
      else
        (match Classified(message, codec)
         case Event(seen) => if seen == name then (Happened(name), rest) else Sought(rest, name, codec)
         case Response(_, _, _) => Sought(rest, name, codec)
         case Malformed(_) => (Protocol, rest)
         case Panics => (Panicked, rest))
    case _ => (Stopped(r), rest)
  }

  // ----- the client -----

  ghost predicate NoEnd(header: Bytes) {
    forall i: nat :: !At(header, i, HEADERS_END)
  }

  predicate EndsHeader(header: Bytes) {
    |header| >= 4 && At(header, |header| - 4, HEADERS_END)
  }

  /** The four bytes can only be completed by the last byte of a line. */
  lemma EndCannotComeEarlier(header: Bytes, stream: Bytes, j: nat)
    requires NoEnd(header) && j + 4 < |header| + LineLength(stream, LF)
    ensures !At(header + stream, j, HEADERS_END)
  {
    var all := header + stream;
    if j + 3 < |header| {
      assert all[j..j + 4] == header[j..j + 4];
      assert !At(header, j, HEADERS_END);
    } else {
      assert all[j + 3] == stream[j + 3 - |header|] != LF;
      assert j + 4 <= |all| ==> all[j..j + 4][3] == all[j + 3];
    }
  }

  lemma OneLineMore(header: Bytes, stream: Bytes)
    requires NoEnd(header)
    ensures var longer := header + stream[..LineLength(stream, LF)];
            if EndsHeader(longer) then HeaderIs(header + stream, longer) else NoEnd(longer)
  {
    hide LineLength;
    var n := LineLength(stream, LF);
    var longer, all := header + stream[..n], header + stream;
    assert longer == all[..|longer|];
    forall j: nat ensures j + 4 <= |longer| ==> At(longer, j, HEADERS_END) == At(all, j, HEADERS_END) {
      assert j + 4 <= |longer| ==> longer[j..j + 4] == all[j..j + 4];
    }
    forall j: nat | j + 4 < |longer| ensures !At(all, j, HEADERS_END) {
      EndCannotComeEarlier(header, stream, j);
    }
  }

  /** `header` is everything up to and with the first blank line. */
  ghost predicate HeaderIs(stream: Bytes, header: Bytes) {
    |header| >= 4 && Find(stream, HEADERS_END) == |header| - 4
  }

  lemma NothingEnds()
    ensures NoEnd([])
  {
  }

  lemma LineTaken(header: Bytes, stream: Bytes, line: Bytes, after: Bytes)
    requires NoEnd(header) && Serves(stream, Until(LF), Handed(line), after)
    ensures header + line + after == header + stream
    ensures line == [] ==> stream == after == [] && NoEnd(header + stream)
    ensures line != [] ==> |after| < |stream|
    ensures if EndsHeader(header + line) then HeaderIs(header + stream, header + line) else NoEnd(header + line)
  {
    OneLineMore(header, stream);
    hide NoEnd, EndsHeader, HeaderIs;
    assert header + [] == header;
  }

  ghost predicate IsTail(tail: Bytes, whole: Bytes) {
    |tail| <= |whole| && whole[|whole| - |tail|..] == tail
  }

  /** What is still to come, put after the events already met. */
  ghost function AfterMet(met: seq<string>, later: (Outcome, seq<string>, Bytes)): (Outcome, seq<string>, Bytes) {
    (later.0, met + later.1, later.2)
  }

  lemma NothingMet(later: (Outcome, seq<string>, Bytes))
    ensures AfterMet([], later) == later
  {
    assert [] + later.1 == later.1;
  }

  lemma AwaitedEnds(met: seq<string>, stream: Bytes, request: nat, codec: Codec)
    ensures var (r, rest) := ReadBody(stream, codec.utf8);
            && (!r.Whole? ==> AfterMet(met, Awaited(stream, request, codec)) == (Stopped(r), met, rest))
            && (r.Whole? && |rest| < |stream| ==>
                  var m := Classified(r.message, codec);
                  && (m.Malformed? ==> AfterMet(met, Awaited(stream, request, codec)) == (Protocol, met, rest))
                  && (m.Panics? ==> AfterMet(met, Awaited(stream, request, codec)) == (Panicked, met, rest))
                  && (m.Response? && !Passing(m, request) ==> AfterMet(met, Awaited(stream, request, codec)) == (Settles(m), met, rest)))
  {
    hide ReadBody, Classified, Stopped;
    assert met + [] == met;
  }

  lemma MetInTurn(met: seq<string>, queued: seq<string>, later: (Outcome, seq<string>, Bytes))
    ensures AfterMet(met, (later.0, queued + later.1, later.2)) == AfterMet(met + queued, later)
  {
    assert met + (queued + later.1) == met + queued + later.1;
  }

  lemma AwaitedGoesOn(met: seq<string>, stream: Bytes, message: Bytes, rest: Bytes, request: nat, codec: Codec)
    requires ReadBody(stream, codec.utf8) == (Whole(message), rest) && |rest| < |stream|
    requires Passing(Classified(message, codec), request)
    ensures AfterMet(met, Awaited(stream, request, codec))
            == AfterMet(met + Queued(Classified(message, codec)), Awaited(rest, request, codec))
  {
    OneMessage(stream, message, rest, request, codec);
    hide ReadBody, Classified, Awaited, Queued, AfterMet;
    var later, queued := Awaited(rest, request, codec), Queued(Classified(message, codec));
    MetInTurn(met, queued, later);
  }

  lemma SoughtStep(stream: Bytes, name: string, codec: Codec)
    ensures var ((r, rest), now) := (ReadBody(stream, codec.utf8), Sought(stream, name, codec));
            && (!r.Whole? ==> now == (Stopped(r), rest))
            && (r.Whole? && |rest| < |stream| ==>
                  match Classified(r.message, codec)
                  case Malformed(_) => now == (Protocol, rest)
                  case Panics => now == (Panicked, rest)
                  case Response(_, _, _) => now == Sought(rest, name, codec)
                  case Event(seen) => now == if seen == name then (Happened(name), rest) else Sought(rest, name, codec))
  {
    hide ReadBody, Classified, Stopped;
  }

  class Client {
    const input: PipedInput
    const codec: Codec
    var events: seq<string>

    ghost predicate Valid()
      reads this, input
    {
      input.Valid()
    }

    constructor (input: PipedInput, codec: Codec)
      requires input.Valid()
      ensures Valid() && this.input == input && this.codec == codec && events == []
    {
      this.input, this.codec, events := input, codec, [];
    }

    /** Whole lines until they end in a blank one, a stream that ends before that, or a failed read. */
    method ReadHeader() returns (header: Bytes, failure: Option<BodyResult>)
      requires Valid()
      modifies input
      ensures Valid() && header + input.Pending() == old(input.Pending())
      ensures failure.None? ==> HeaderIs(old(input.Pending()), header)
      ensures failure.Some? ==> failure.value.ReadFailed? || failure.value.PeerClosed?
      ensures failure == Some(PeerClosed) ==> NoEnd(old(input.Pending())) && input.Pending() == []
      ensures Steady(old(input.script)) ==> (failure.Some? ==> failure.value.PeerClosed?) && Steady(input.script)
    {
      hide LineLength, Steady, Unread, NoEnd, EndsHeader, HeaderIs, Find;
      header := [];
      ghost var all := input.Pending();
      NothingEnds();
      while true
        invariant Valid() && header + input.Pending() == all && NoEnd(header)
        invariant Steady(old(input.script)) ==> Steady(input.script)
        decreases |input.Pending()|
      {
        ghost var pending, before := input.Pending(), header;
        var reply: Reply;
        header, reply := input.ReadUntil(LF, header);
        match reply {
          case Interrupted(error) => return header, Some(ReadFailed(error));
          case CutShort =>
            assert false;
          case Handed(line) =>
            LineTaken(before, pending, line, input.Pending());
            if line == [] {
              return header, Some(PeerClosed);
            }
            if EndsHeader(header) {
              return header, None;
            }
        }
      }
    }

    /** Header lines up to the blank one, then the body they announce. */
    method ReadFramedBody() returns (r: BodyResult)
      requires Valid()
      modifies input
      ensures Valid()
      ensures !r.ReadFailed? ==> (r, input.Pending()) == ReadBody(old(input.Pending()), codec.utf8)
      ensures IsTail(input.Pending(), old(input.Pending()))
      ensures Steady(old(input.script)) ==> !r.ReadFailed? && Steady(input.script)
    {
      hide AfterHeader, Steady, Unread;
      var header, failure := ReadHeader();
      if failure.Some? {
        return failure.value;
      }
      r := ReadAnnounced(header);
    }

    /** The body, once the header is in. */
    method ReadAnnounced(header: Bytes) returns (r: BodyResult)
      requires Valid()
      modifies input
      ensures Valid()
      ensures !r.ReadFailed? ==> (r, input.Pending()) == AfterHeader(header, old(input.Pending()), codec.utf8)
      ensures IsTail(input.Pending(), old(input.Pending()))
      ensures Steady(old(input.script)) ==> !r.ReadFailed? && Steady(input.script)
    {
      hide FirstLength, ParseUsize, Trim, Steady;
      if !codec.utf8(header) {
        return NotUtf8;
      }
      match FirstLength(header) {
        case None => return NoLengthHeader;
        case Some(text) =>
          match ParseUsize(Trim(text)) {
            case NotANumber => return BadLength;
            case Number(n) =>
              var message, reply := input.ReadExactTo(n, header);
              match reply {
                case Handed(_) => return Whole(message);
                case CutShort => return TruncatedBody;
                case Interrupted(error) => return ReadFailed(error);
              }
          }
      }
    }

    /** Read one message; `failure` says why there is none. */
    method ReadMessage() returns (m: Incoming, failure: Option<Outcome>)
      requires Valid()
      modifies input
      ensures Valid()
      ensures var stream := old(input.Pending());
              var (r, rest) := ReadBody(stream, codec.utf8);
              match failure
              case None => r.Whole? && m == Classified(r.message, codec) && input.Pending() == rest && |rest| < |stream|
              case Some(outcome) => outcome.Dropped? || (!r.Whole? && outcome == Stopped(r) && input.Pending() == rest)
      ensures Steady(old(input.script)) ==> (failure.Some? ==> !failure.value.Dropped?) && Steady(input.script)
    {
      hide ReadBody, Steady, Unread;
      WholeConsumes(input.Pending(), codec.utf8);
      m := Malformed("");
      var r := ReadFramedBody();
      if !r.Whole? {
        return m, Some(Stopped(r));
      }
      var framed, next := ReadFrame(r.message, 0);
      assert r.message[0..] == r.message;
      m := if framed.Message? then codec.classify(framed.body) else if framed.Panic? then Panics else Malformed("framing");
      failure := None;
    }

    /** Read until the response to `request`, keeping every event met on the way. */
    method AwaitResponse(request: nat) returns (outcome: Outcome)
      requires Valid()
      modifies this, input
      ensures Valid()
      ensures !outcome.Dropped? ==>
                var (answer, met, rest) := Awaited(old(input.Pending()), request, codec);
                outcome == answer && events == old(events) + met && input.Pending() == rest
      ensures |events| >= |old(events)| && events[..|old(events)|] == old(events)
      ensures Steady(old(input.script)) ==> !outcome.Dropped? && Steady(input.script)
    {
      hide ReadBody, Classified, Steady, Unread, Awaited;
      ghost var queued, met := events, [];
      ghost var stream := input.Pending();
      assert queued + [] == queued;
      NothingMet(Awaited(stream, request, codec));
      while true
        invariant Valid() && events == queued + met
        invariant Awaited(stream, request, codec) == AfterMet(met, Awaited(input.Pending(), request, codec))
        invariant Steady(old(input.script)) ==> Steady(input.script)
        decreases |input.Pending()|
      {
        ghost var before := input.Pending();
        var m, failure := ReadMessage();
        AwaitedEnds(met, before, request, codec);
        if failure.Some? {
          return failure.value;
        }
        if Passing(m, request) {
          AwaitedGoesOn(met, before, ReadBody(before, codec.utf8).0.message, input.Pending(), request, codec);
          met := met + Queued(m);
        }
        match m {
          case Malformed(_) => return Protocol;
          case Panics => return Panicked;
          case Response(seen, success, payload) =>
            if seen == request {
              return if success then Answered(payload) else Refused;
            }
          case Event(name) =>
            events := events + [name];
        }
      }
    }

    /** Take held events from the front until one has the name; failing that, read on. */
    method WaitEvent(name: string) returns (outcome: Outcome)
      requires Valid()
      modifies this, input
      ensures Valid()
      ensures var i := Position(old(events), name);
              if i < |old(events)|
              then outcome == Happened(name) && events == old(events)[i + 1..] && input.Pending() == old(input.Pending())
              else events == [] && (outcome.Dropped? || (outcome, input.Pending()) == Sought(old(input.Pending()), name, codec))
      ensures Steady(old(input.script)) ==> !outcome.Dropped? && Steady(input.script)
    {
      hide ReadBody, Classified, Steady, Unread, Sought;
      ghost var stream := input.Pending();
      var found := PopUntil(name);
      if found {
        return Happened(name);
      }
      while true
        invariant Valid() && events == []
        invariant Sought(stream, name, codec) == Sought(input.Pending(), name, codec)
        invariant Steady(old(input.script)) ==> Steady(input.script)
        decreases |input.Pending()|
      {
        SoughtStep(input.Pending(), name, codec);
        var m, failure := ReadMessage();
        if failure.Some? {
          return failure.value;
        }
        match m {
          case Malformed(_) => return Protocol;
          case Panics => return Panicked;
          case Response(_, _, _) =>
          case Event(seen) =>
            if seen == name {
              return Happened(name);
            }
            events := events + [seen];
            found := PopUntil(name);
        }
      }
    }

    /** The inner loop of the wait: what it pops without a match is gone. */
    method PopUntil(name: string) returns (found: bool)
      modifies this
      ensures var i := Position(old(events), name);
              found == (i < |old(events)|) && events == if found then old(events)[i + 1..] else []
    {
      ghost var popped := 0;
      while events != []
        invariant popped <= |old(events)| && events == old(events)[popped..]
        invariant forall k :: 0 <= k < popped ==> old(events)[k] != name
        decreases |events|
      {
        var event := events[0];
        events := events[1..];
        popped := popped + 1;
        if event == name {
          return true;
        }
      }
      return false;
    }
  }

  lemma {:induction false} ReadOneMore(stream: Bytes, count: nat, utf8: Bytes -> bool)
    ensures var (done, next) := (ReadBodies(stream, count, utf8), ReadBody(ReadBodies(stream, count, utf8).1, utf8));
            ReadBodies(stream, count + 1, utf8) == (done.0 + [next.0], next.1)
    decreases count
  {
    hide ReadBody;
    var first := ReadBody(stream, utf8);
    if count == 0 {
      assert ReadBodies(first.1, 0, utf8) == ([], first.1);
      assert [first.0] + [] == [] + [first.0];
    } else {
      ReadOneMore(first.1, count - 1, utf8);
      var (others, last) := (ReadBodies(first.1, count - 1, utf8), ReadBody(ReadBodies(first.1, count - 1, utf8).1, utf8));
      assert [first.0] + (others.0 + [last.0]) == [first.0] + others.0 + [last.0];
    }
  }

  /** However a stream that holds these frames is cut into pieces, reading as many messages gives exactly them, and what follows stays pending. */
  method ReadMessages(script: seq<Arrival>, count: nat, codec: Codec, ghost bodies: seq<Bytes>, ghost after: Bytes)
    returns (results: seq<BodyResult>, input: PipedInput)
    requires Steady(script) && Unread(script) == Stream(bodies) + after && count == |bodies|
    requires Sendable(bodies) && AcceptsAscii(codec.utf8)
    ensures results == WholeFrames(bodies)
    ensures fresh(input) && input.Pending() == after
  {
    hide Steady, Unread, ReadBody, Sendable, AcceptsAscii;
    input := new PipedInput(script);
    var client := new Client(input, codec);
    results := [];
    ghost var stream := Unread(script);
    for i := 0 to count
      invariant client.Valid() && client.input == input && client.codec == codec && fresh(input) && Steady(input.script)
      invariant (results, input.Pending()) == ReadBodies(stream, i, codec.utf8)
    {
      ReadOneMore(stream, i, codec.utf8);
      var r := client.ReadFramedBody();
      results := results + [r];
    }
    FramesArriveInOrder(bodies, after, codec.utf8);
  }
}
