/** How a wait goes past messages that do not end it, and each way it ends. */
module DapWaits {
  import opened Optional
  import opened Octets
  import opened Piped
  import opened Framing
  import opened DapClient
  import opened DapHeaders

  // ----- waiting for a response -----

  /** Messages that let a wait go on are passed in order, their events queued in order, and the wait goes on from there. */
  lemma {:induction false} AwaitedThrough(bodies: seq<Bytes>, tail: Bytes, request: nat, codec: Codec)
    requires Sendable(bodies) && AcceptsAscii(codec.utf8) && AllPass(bodies, request, codec)
    ensures Awaited(Stream(bodies) + tail, request, codec)
            == AfterMet(EventNames(Incomings(bodies, codec)), Awaited(tail, request, codec))
    decreases |bodies|
  {
    hide Frame, ReadBody, Classified, Awaited, Sendable, AllPass, AcceptsAscii, AfterMet;
    if bodies == [] {
      assert Stream(bodies) + tail == tail;
      NothingMet(Awaited(tail, request, codec));
    } else {
      var (first, rest) := (bodies[0], Stream(bodies[1..]) + tail);
      assert Stream(bodies) + tail == Frame(first) + rest;
      FirstPasses(bodies, request, codec);
      OneFrameMore(first, rest, codec);
      OneMessage(Frame(first) + rest, Frame(first), rest, request, codec);
      AwaitedThrough(bodies[1..], tail, request, codec);
      EventNamesOfMore(codec.classify(first), Incomings(bodies[1..], codec));
      MetTwice(Queued(codec.classify(first)), EventNames(Incomings(bodies[1..], codec)), Awaited(tail, request, codec));
    }
  }

  lemma MetTwice(a: seq<string>, b: seq<string>, later: (Outcome, seq<string>, Bytes))
    ensures var l := AfterMet(b, later); AfterMet(a + b, later) == (l.0, a + l.1, l.2)
  {
    assert a + b + later.1 == a + (b + later.1);
  }

  /** A stream that ends without another whole header is the adapter closing. */
  lemma ClosedStreamEndsTheWait(bodies: seq<Bytes>, after: Bytes, request: nat, codec: Codec)
    requires Sendable(bodies) && AcceptsAscii(codec.utf8) && AllPass(bodies, request, codec) && NoEnd(after)
    ensures Awaited(Stream(bodies) + after, request, codec) == (Transport, EventNames(Incomings(bodies, codec)), [])
  {
    NothingToRead(after, codec.utf8);
    hide ReadBody, Classified, Stream, Awaited, AfterMet, Incomings, EventNames, Sendable, AllPass, AcceptsAscii;
    AwaitedThrough(bodies, after, request, codec);
    AwaitedEnds(EventNames(Incomings(bodies, codec)), after, request, codec);
  }

  lemma NothingToRead(after: Bytes, utf8: Bytes -> bool)
    requires NoEnd(after)
    ensures ReadBody(after, utf8) == (PeerClosed, [])
  {
    hide Find, AfterHeader;
  }

  /** A message that is no message of the protocol is a protocol error, with nothing behind it read. */
  lemma MalformedMessageEndsTheWait(bodies: seq<Bytes>, last: Bytes, after: Bytes, request: nat, codec: Codec)
    requires Sendable(bodies) && |last| <= MAX_BYTES && AcceptsAscii(codec.utf8) && AllPass(bodies, request, codec)
    requires codec.classify(last).Malformed?
    ensures Awaited(Stream(bodies) + (Frame(last) + after), request, codec) == (Protocol, EventNames(Incomings(bodies, codec)), after)
  {
    hide ReadBody, Classified, Stream, Frame, Awaited, AfterMet, Incomings, EventNames, Sendable, AllPass, AcceptsAscii;
    AwaitedThrough(bodies, Frame(last) + after, request, codec);
    OneFrameMore(last, after, codec);
    AwaitedEnds(EventNames(Incomings(bodies, codec)), Frame(last) + after, request, codec);
  }

  lemma EndAtOnce(bodies: seq<Bytes>, tail: Bytes, r: BodyResult, rest: Bytes, request: nat, codec: Codec)
    requires Sendable(bodies) && AcceptsAscii(codec.utf8) && AllPass(bodies, request, codec)
    requires ReadBody(tail, codec.utf8) == (r, rest) && !r.Whole?
    ensures Awaited(Stream(bodies) + tail, request, codec) == (Stopped(r), EventNames(Incomings(bodies, codec)), rest)
  {
    hide ReadBody, Classified, Stream, Awaited, AfterMet, Incomings, EventNames, Sendable, AllPass, AcceptsAscii, Stopped;
    AwaitedThrough(bodies, tail, request, codec);
    AwaitedEnds(EventNames(Incomings(bodies, codec)), tail, request, codec);
  }

  lemma ReadBodyAt(h: Bytes, rest: Bytes, utf8: Bytes -> bool)
    requires CR !in h
    ensures ReadBody(h + HEADERS_END + rest, utf8) == AfterHeader(h + HEADERS_END, rest, utf8)
  {
    hide AfterHeader, Find, At;
    FindSkips(h, HEADERS_END, rest);
    var stream := h + HEADERS_END + rest;
    assert stream[..|h| + 4] == h + HEADERS_END && stream[|h| + 4..] == rest;
  }

  lemma AfterHeaderCut(header: Bytes, text: Bytes, n: nat, rest: Bytes, utf8: Bytes -> bool)
    requires utf8(header) && FirstLength(header) == Some(text) && ParseUsize(Trim(text)) == Number(n) && |rest| < n
    ensures AfterHeader(header, rest, utf8) == (TruncatedBody, rest)
  {
    hide FirstLength, ParseUsize, Trim;
  }

  /** What is left when a stream ends inside a body. */
  function CutFrame(last: Bytes, n: nat): Bytes
    requires n <= |last|
  {
    HeaderLine(|last|) + HEADERS_END + last[..n]
  }

  /** A stream that ends inside a body is a transport error, and what there is of the body stays unread. */
  lemma CutBodyEndsTheWait(bodies: seq<Bytes>, last: Bytes, n: nat, request: nat, codec: Codec)
    requires Sendable(bodies) && |last| <= MAX_BYTES && n < |last| && AcceptsAscii(codec.utf8) && AllPass(bodies, request, codec)
    ensures Awaited(Stream(bodies) + CutFrame(last, n), request, codec) == (Transport, EventNames(Incomings(bodies, codec)), last[..n])
  {
    hide CutFrame, ReadBody, Sendable, AllPass, AcceptsAscii, Awaited, Stream, Incomings, EventNames;
    CutBodyIsTruncated(last, n, codec.utf8);
    EndAtOnce(bodies, CutFrame(last, n), TruncatedBody, last[..n], request, codec);
  }

  lemma CutBodyIsTruncated(last: Bytes, n: nat, utf8: Bytes -> bool)
    requires |last| <= MAX_BYTES && n < |last| && AcceptsAscii(utf8)
    ensures ReadBody(CutFrame(last, n), utf8) == (TruncatedBody, last[..n])
  {
    hide HeaderLine, Name, ParseUsize, Trim, FirstLength, ReadBody, AfterHeader;
    HeaderLineParses(|last|);
    HeaderIsAscii(|last|);
    FirstLineIsTheLength(|last|);
    ReadBodyAt(HeaderLine(|last|), last[..n], utf8);
    AfterHeaderCut(HeaderLine(|last|) + HEADERS_END, HeaderLine(|last|)[|Name()|..], |last|, last[..n], utf8);
  }

  /** A header that announces no length is a protocol error; what follows it stays unread. */
  lemma NoLengthEndsTheWait(bodies: seq<Bytes>, line: Bytes, after: Bytes, request: nat, codec: Codec)
    requires Sendable(bodies) && AcceptsAscii(codec.utf8) && AllPass(bodies, request, codec)
    requires OtherLine(line) && codec.utf8(line + HEADERS_END)
    ensures Awaited(Stream(bodies) + (line + HEADERS_END + after), request, codec)
            == (Protocol, EventNames(Incomings(bodies, codec)), after)
  {
    hide ReadBody, Sendable, AllPass, AcceptsAscii, OtherLine, Awaited, Stream, Incomings, EventNames;
    HeaderWithoutLength(line, after, codec.utf8);
    EndAtOnce(bodies, line + HEADERS_END + after, NoLengthHeader, after, request, codec);
  }

  lemma HeaderWithoutLength(line: Bytes, after: Bytes, utf8: Bytes -> bool)
    requires OtherLine(line) && utf8(line + HEADERS_END)
    ensures ReadBody(line + HEADERS_END + after, utf8) == (NoLengthHeader, after)
  {
    hide Name, ParseUsize, Trim, FirstLength, ReadBody, HasPrefix;
    BlankLineFollows(line);
    LineSkipped(line, CRLF);
    BlankIsNoLength();
    ReadBodyAt(line, after, utf8);
  }

  lemma BlankIsNoLength()
    ensures FirstLength(CRLF) == None
  {
    LineTo([], []);
    assert [] + CRLF + [] == CRLF && CRLF[..2] == CRLF && CRLF[2..] == [];
    hide LineLength, Chomp;
    assert FirstLength([]) == None;
  }

  /** The client also takes lines that end in a bare line feed. */
  lemma BareLineFeedsEndLines(h: Bytes, tail: Bytes)
    requires h != [] && LF !in h && h[|h| - 1] != CR && HasPrefix(h, Name())
    ensures FirstLength(h + [LF] + tail) == Some(h[|Name()|..])
  {
    BareLine(h, tail);
    hide LineLength, Chomp, Name;
    assert (h + [LF] + tail)[..|h| + 1] == h + [LF];
  }

  lemma BareLine(h: Bytes, tail: Bytes)
    requires h != [] && LF !in h && h[|h| - 1] != CR
    ensures LineLength(h + [LF] + tail, LF) == |h| + 1 && Chomp(h + [LF]) == h
  {
    hide LineLength;
    var s := h + [LF] + tail;
    assert s[|h|] == LF && forall j :: 0 <= j < |h| ==> s[j] == h[j];
    assert (h + [LF])[..|h|] == h;
  }

  // ----- waiting for an event -----

  /** Messages that are not the event waited for. */
  ghost predicate AllOverlooked(bodies: seq<Bytes>, name: string, codec: Codec) {
    forall i :: 0 <= i < |bodies| ==> codec.classify(bodies[i]).Response? || (codec.classify(bodies[i]).Event? && codec.classify(bodies[i]).name != name)
  }

  /** They are passed, and let go. */
  lemma {:induction false} SoughtThrough(bodies: seq<Bytes>, tail: Bytes, name: string, codec: Codec)
    requires Sendable(bodies) && AcceptsAscii(codec.utf8) && AllOverlooked(bodies, name, codec)
    ensures Sought(Stream(bodies) + tail, name, codec) == Sought(tail, name, codec)
    decreases |bodies|
  {
    hide Frame, ReadBody, Classified, Sought, AcceptsAscii;
    if bodies == [] {
      assert Stream(bodies) + tail == tail;
    } else {
      var (first, rest) := (bodies[0], Stream(bodies[1..]) + tail);
      assert Stream(bodies) + tail == Frame(first) + rest;
      OneFrameMore(first, rest, codec);
      SoughtStep(Frame(first) + rest, name, codec);
      SoughtThrough(bodies[1..], tail, name, codec);
    }
  }

  /** The first event of the name ends the wait, and nothing behind it is read. */
  lemma TheFirstNamedEventIsFound(bodies: seq<Bytes>, last: Bytes, after: Bytes, name: string, codec: Codec)
    requires Sendable(bodies) && |last| <= MAX_BYTES && AcceptsAscii(codec.utf8) && AllOverlooked(bodies, name, codec)
    requires codec.classify(last) == Event(name)
    ensures Sought(Stream(bodies) + (Frame(last) + after), name, codec) == (Happened(name), after)
  {
    SoughtThrough(bodies, Frame(last) + after, name, codec);
    OneFrameMore(last, after, codec);
    SoughtStep(Frame(last) + after, name, codec);
    hide ReadBody, Classified, Stream, Frame, Sought;
  }

  // ----- the wire itself -----

  /** The frame of an empty body, byte by byte. */
  lemma EmptyFrame()
    ensures Frame([]) == [67, 111, 110, 116, 101, 110, 116, 45, 76, 101, 110, 103, 116, 104, 58, 32, 48, 13, 10, 13, 10]
  {
    var text := "Content-Length:";
    assert Ascii(text) == [67, 111, 110, 116, 101, 110, 116, 45, 76, 101, 110, 103, 116, 104, 58];
    assert Name() == [67, 111, 110, 116, 101, 110, 116, 45, 76, 101, 110, 103, 116, 104, 58];
    assert DigitBytes(0) == [48];
  }

  /** A line whose ninth letter is not an L, as in Content-Type, is no length. */
  lemma ContentTypeIsAnother(line: Bytes)
    requires |line| > 8 && line[8] != 76 && CR !in line && LF !in line
    ensures OtherLine(line)
  {
    var text := "Content-Length:";
    assert text[8] == 'L' && Name()[8] == 76;
    assert |line| >= |Name()| ==> line[..|Name()|][8] == line[8];
  }
}
