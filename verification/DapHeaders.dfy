/** The client reads the first Content-Length of a header and the buffer parser the last: what follows from that. */
module DapHeaders {
  import opened Optional
  import opened Octets
  import opened Piped
  import opened Framing
  import opened DapClient

  // ----- when a message the client accepts parses back -----

  lemma FindIs(s: Bytes, i: nat, pattern: Bytes)
    requires pattern != [] && At(s, i, pattern) && forall j: nat :: j < i ==> !At(s, j, pattern)
    ensures Find(s, pattern) == i
  {
    hide Find;
    assert i < |s|;
    assert Find(s, pattern) < |s| ==> At(s, Find(s, pattern), pattern);
  }

  lemma AtInPrefix(s: Bytes, k: nat, j: nat, pattern: Bytes)
    requires k <= |s| && j + |pattern| <= k
    ensures At(s[..k], j, pattern) == At(s, j, pattern)
  {
    assert s[..k][j..j + |pattern|] == s[j..j + |pattern|];
  }

  lemma FindInPrefix(s: Bytes, k: nat, pattern: Bytes)
    requires pattern != [] && k <= |s| && Find(s, pattern) + |pattern| <= k
    ensures Find(s[..k], pattern) == Find(s, pattern)
  {
    hide Find, At;
    var i := Find(s, pattern);
    forall j: nat | j <= i ensures At(s[..k], j, pattern) == At(s, j, pattern) {
      AtInPrefix(s, k, j, pattern);
    }
    FindIs(s[..k], i, pattern);
  }

  lemma BodyShape(header: Bytes, rest: Bytes, utf8: Bytes -> bool)
    requires AfterHeader(header, rest, utf8).0.Whole?
    ensures var message := AfterHeader(header, rest, utf8).0.message;
            && |header| <= |message| <= |header + rest| && message == (header + rest)[..|message|] && message[..|header|] == header
            && FirstLength(header).Some?
            && ParseUsize(Trim(FirstLength(header).value)) == Number(|message| - |header|)
  {
    hide FirstLength, ParseUsize, Trim;
    var n := ParseUsize(Trim(FirstLength(header).value)).value;
    FrontOfBoth(header, rest, n);
  }

  lemma FrontOfBoth(header: Bytes, rest: Bytes, n: nat)
    requires n <= |rest|
    ensures header + rest[..n] == (header + rest)[..|header| + n] && (header + rest[..n])[..|header|] == header
  {
  }

  lemma FindLeavesRoom(stream: Bytes)
    ensures Find(stream, HEADERS_END) < |stream| ==> Find(stream, HEADERS_END) + 4 <= |stream|
  {
    hide Find;
  }

  /** A message the client returns is the front of the stream: a header, and as many bytes as its first length says. */
  ghost predicate FrontMessage(stream: Bytes, message: Bytes, i: nat) {
    && i + 4 <= |message| <= |stream| && message == stream[..|message|]
    && FirstLength(message[..i + 4]).Some?
    && ParseUsize(Trim(FirstLength(message[..i + 4]).value)) == Number(|message| - i - 4)
  }

  lemma WholeMessageShape(stream: Bytes, message: Bytes, utf8: Bytes -> bool)
    requires ReadBody(stream, utf8).0 == Whole(message)
    ensures FrontMessage(stream, message, Find(stream, HEADERS_END))
  {
    hide FirstLength, ParseUsize, Trim, AfterHeader, Find, At, FrontMessage;
    var i := Find(stream, HEADERS_END);
    FindLeavesRoom(stream);
    assert ReadBody(stream, utf8) == AfterHeader(stream[..i + 4], stream[i + 4..], utf8);
    BodyShape(stream[..i + 4], stream[i + 4..], utf8);
    FrontFromParts(stream, i, message);
  }

  lemma FrontFromParts(stream: Bytes, i: nat, message: Bytes)
    requires i + 4 <= |stream|
    requires var (header, rest) := (stream[..i + 4], stream[i + 4..]);
             && |header| <= |message| <= |header + rest| && message == (header + rest)[..|message|] && message[..|header|] == header
             && FirstLength(header).Some?
             && ParseUsize(Trim(FirstLength(header).value)) == Number(|message| - |header|)
    ensures FrontMessage(stream, message, i)
  {
    hide FirstLength, ParseUsize, Trim;
    assert stream[..i + 4] + stream[i + 4..] == stream;
  }

  lemma EndOfMessage(stream: Bytes, message: Bytes)
    requires FrontMessage(stream, message, Find(stream, HEADERS_END))
    ensures Find(message, HEADERS_END) == Find(stream, HEADERS_END)
  {
    hide FirstLength, ParseUsize, Trim, Find;
    FindInPrefix(stream, |message|, HEADERS_END);
  }

  /**
   A message the client accepts parses back whole if and only if the last length
   in its header is the length of its body too; otherwise what the parser makes
   of it is told by that last length.
   */
  lemma AcceptedMessageParsesBackExactlyWhen(stream: Bytes, utf8: Bytes -> bool)
    requires ReadBody(stream, utf8).0.Whole?
    ensures var message := ReadBody(stream, utf8).0.message;
            var e := Find(message, HEADERS_END);
            && e + 4 <= |message|
            && var (last, body) := (LastLength(SplitLines(message[..e])), message[e + 4..]);
            && (ReadOne(message) == (Message(body), |message|) <==> last == Number(|body|) && |message| < WORD)
            && ReadOne(message).0 == match last
                                     case NotANumber => NoLength
                                     case Number(n) => if e + 4 + n >= WORD then Panic
                                                       else if n > |body| then ShortBody
                                                       else Message(body[..n])
  {
    hide ReadBody, FirstLength, ParseUsize, Trim, SplitLines, LastLength, Find;
    var message := ReadBody(stream, utf8).0.message;
    WholeMessageShape(stream, message, utf8);
    EndOfMessage(stream, message);
    var e := Find(message, HEADERS_END);
    match LastLength(SplitLines(message[..e]))
    case NotANumber =>
    case Number(n) =>
      if n <= |message| - e - 4 {
        assert message[e + 4..e + 4 + n] == message[e + 4..][..n];
        assert n == |message| - e - 4 ==> message[e + 4..][..n] == message[e + 4..];
      }
  }

  // ----- two lengths in one header -----

  function TwoLengths(first: nat, last: nat): Bytes { HeaderLine(first) + CRLF + HeaderLine(last) + HEADERS_END }

  /** Two plain lines hold no blank line before the one that ends them. */
  lemma NoEarlierEnd(h: Bytes, g: Bytes, after: Bytes, j: nat)
    requires CR !in h && g != [] && CR !in g && j < |h| + 2 + |g|
    ensures !At(h + CRLF + g + HEADERS_END + after, j, HEADERS_END)
  {
    var s := h + CRLF + g + HEADERS_END + after;
    if j == |h| {
      assert s[j..j + 4][2] == s[j + 2] == g[0];
    } else {
      assert s[j..j + 4][0] == s[j];
      assert s[j] == if j < |h| then h[j] else if j == |h| + 1 then LF else g[j - |h| - 2];
    }
  }

  lemma TwoLengthsEnd(first: nat, last: nat, after: Bytes)
    requires first < WORD && last < WORD
    ensures Find(TwoLengths(first, last) + after, HEADERS_END) == |TwoLengths(first, last)| - 4
  {
    HeaderLineParses(first);
    HeaderLineParses(last);
    FirstByte(last);
    hide HeaderLine, ParseUsize, Trim, HasPrefix, At, Find;
    var (h, g) := (HeaderLine(first), HeaderLine(last));
    var s := TwoLengths(first, last) + after;
    var k := |h| + 2 + |g|;
    EndStandsThere(h + CRLF + g, after);
    forall j: nat | j < k ensures !At(s, j, HEADERS_END) {
      NoEarlierEnd(h, g, after, j);
    }
    FindIs(s, k, HEADERS_END);
  }

  lemma EndStandsThere(lines: Bytes, after: Bytes)
    ensures At(lines + HEADERS_END + after, |lines|, HEADERS_END)
  {
    assert (lines + HEADERS_END + after)[|lines|..|lines| + 4] == HEADERS_END;
  }

  lemma FirstByte(n: nat)
    ensures HeaderLine(n) != [] && HeaderLine(n)[0] != CR && HeaderLine(n)[0] != LF
  {
  }

  lemma TwoLengthsLast(first: nat, last: nat)
    requires first < WORD && last < WORD
    ensures LastLength(SplitLines(HeaderLine(first) + CRLF + HeaderLine(last))) == Number(last)
  {
    HeaderLineParses(first);
    HeaderLineParses(last);
    hide HeaderLine, Name, ParseUsize, Trim, HasPrefix;
    var (h, g) := (HeaderLine(first), HeaderLine(last));
    var s := h + CRLF + g;
    FindSkips(h, CRLF, g);
    assert s[..|h|] == h && s[|h| + 2..] == g;
    FindMisses(g, CRLF);
    assert SplitLines(g) == [g];
    assert SplitLines(s) == [h] + [g];
    LastOfTwo(h, g);
  }

  lemma LastOfTwo(h: Bytes, g: Bytes)
    requires HasPrefix(g, Name())
    ensures LastLength([h] + [g]) == ParseUsize(Trim(g[|Name()|..]))
  {
  }

  lemma TwoLengthsFirst(first: nat, last: nat)
    requires first < WORD && last < WORD
    ensures FirstLength(TwoLengths(first, last)) == Some(HeaderLine(first)[|Name()|..])
  {
    HeaderLineParses(first);
    hide HeaderLine, FirstLength, ParseUsize, Trim, Name;
    var (h, tail) := (HeaderLine(first), HeaderLine(last) + HEADERS_END);
    assert TwoLengths(first, last) == h + CRLF + tail;
    hide HasPrefix, TwoLengths;
    FirstLineTaken(h, tail);
  }

  lemma TwoLengthsAreAscii(first: nat, last: nat)
    ensures forall i :: 0 <= i < |TwoLengths(first, last)| ==> TwoLengths(first, last)[i] < 128
  {
    HeaderIsAscii(first);
    HeaderIsAscii(last);
    var (h, g) := (HeaderLine(first), HeaderLine(last));
    hide HeaderLine;
    assert forall i :: 0 <= i < |h| ==> (h + HEADERS_END)[i] == h[i];
    assert forall i :: 0 <= i < |g| ==> (g + HEADERS_END)[i] == g[i];
  }

  lemma ClientTakesTheFirst(body: Bytes, last: nat, after: Bytes, utf8: Bytes -> bool)
    requires |body| < WORD && last < WORD && AcceptsAscii(utf8)
    ensures var message := TwoLengths(|body|, last) + body; ReadBody(message + after, utf8) == (Whole(message), after)
  {
    hide FirstLength, ParseUsize, Trim, Find, HeaderLine, AfterHeader, TwoLengths, Name;
    var header := TwoLengths(|body|, last);
    HeaderLineParses(|body|);
    TwoLengthsFirst(|body|, last);
    TwoLengthsAreAscii(|body|, last);
    TwoLengthsEnd(|body|, last, body + after);
    BodyIsCutOut(header, HeaderLine(|body|)[|Name()|..], body, after, utf8);
    assert header + body + after == header + (body + after);
    assert (header + (body + after))[..|header|] == header && (header + (body + after))[|header|..] == body + after;
    HasAnEnd(|body|, last);
  }

  lemma HasAnEnd(first: nat, last: nat)
    ensures |TwoLengths(first, last)| >= 4
    ensures TwoLengths(first, last)[..|TwoLengths(first, last)| - 4] == HeaderLine(first) + CRLF + HeaderLine(last)
  {
    hide HeaderLine;
  }

  lemma ParserTakesTheLast(first: nat, last: nat, body: Bytes)
    requires first < WORD && last < WORD
    ensures var (message, end) := (TwoLengths(first, last) + body, |TwoLengths(first, last)| + last);
            && (end >= WORD ==> ReadOne(message).0 == Panic)
            && (|body| < last && end < WORD ==> ReadOne(message).0 == ShortBody)
  {
    hide SplitLines, LastLength, Find, HeaderLine, TwoLengths;
    var header := TwoLengths(first, last);
    TwoLengthsEnd(first, last, body);
    TwoLengthsLast(first, last);
    HasAnEnd(first, last);
    assert (header + body)[..|header| - 4] == header[..|header| - 4];
  }

  /** The client takes the first of two lengths, the parser the last. */
  lemma TheyDisagree(body: Bytes, last: nat, after: Bytes, utf8: Bytes -> bool)
    requires |body| < WORD && last < WORD && AcceptsAscii(utf8)
    ensures var message := TwoLengths(|body|, last) + body;
            && ReadBody(message + after, utf8) == (Whole(message), after)
            && (|TwoLengths(|body|, last)| + last >= WORD ==> ReadOne(message).0 == Panic)
            && (|body| < last && |TwoLengths(|body|, last)| + last < WORD ==> ReadOne(message).0 == ShortBody)
  {
    hide ReadBody, ReadOne, TwoLengths;
    ClientTakesTheFirst(body, last, after, utf8);
    ParserTakesTheLast(|body|, last, body);
  }

  // ----- when waiting stops the program -----

  /** `n` messages that are let pass come first, and then this one. */
  ghost predicate Arrives(stream: Bytes, passes: Incoming -> bool, codec: Codec, message: Bytes, n: nat)
    decreases n
  {
    var (r, rest) := ReadBody(stream, codec.utf8);
    && r.Whole?
    && if n == 0 then r.message == message
       else passes(Classified(r.message, codec)) && Arrives(rest, passes, codec, message, n - 1)
  }

  /** Messages that do not end the wait for a response. */
  function ForResponse(request: nat): Incoming -> bool { (m: Incoming) => Passing(m, request) }

  /** Messages that do not end the wait for an event. */
  function ForEvent(name: string): Incoming -> bool { (m: Incoming) => m.Response? || (m.Event? && m.name != name) }

  lemma PanicsWithItsHeader(message: Bytes, codec: Codec)
    ensures Classified(message, codec).Panics? <==> HeaderOverflows(message)
  {
    hide SplitLines, LastLength;
  }

  lemma {:induction false} PanicAfter(stream: Bytes, request: nat, codec: Codec, message: Bytes, n: nat)
    requires Arrives(stream, ForResponse(request), codec, message, n) && HeaderOverflows(message)
    ensures Awaited(stream, request, codec).0 == Panicked
    decreases n
  {
    hide ReadBody, Classified, HeaderOverflows, Awaited;
    WholeConsumes(stream, codec.utf8);
    AwaitedEnds([], stream, request, codec);
    PanicsWithItsHeader(message, codec);
    if n > 0 {
      var (r, rest) := ReadBody(stream, codec.utf8);
      OneMessage(stream, r.message, rest, request, codec);
      PanicAfter(rest, request, codec, message, n - 1);
    }
  }

  lemma {:induction false} PanicComesFrom(stream: Bytes, request: nat, codec: Codec) returns (message: Bytes, n: nat)
    requires Awaited(stream, request, codec).0 == Panicked
    ensures Arrives(stream, ForResponse(request), codec, message, n) && HeaderOverflows(message)
    decreases |stream|
  {
    hide ReadBody, Classified, HeaderOverflows, Awaited, Settles;
    WholeConsumes(stream, codec.utf8);
    AwaitedEnds([], stream, request, codec);
    var (r, rest) := ReadBody(stream, codec.utf8);
    NeverPanicsItself(r, codec, request);
    PanicsWithItsHeader(r.message, codec);
    if Classified(r.message, codec).Panics? {
      return r.message, 0;
    }
    OneMessage(stream, r.message, rest, request, codec);
    message, n := PanicComesFrom(rest, request, codec);
    n := n + 1;
  }

  lemma NeverPanicsItself(r: BodyResult, codec: Codec, request: nat)
    ensures !r.Whole? ==> Stopped(r) != Panicked
    ensures forall m: Incoming :: m.Response? ==> Settles(m) != Panicked
  {
  }

  /** Waiting for a response stops the program exactly when a message arrives in time whose last length ends past the word. */
  lemma WaitingPanicsExactlyWhen(stream: Bytes, request: nat, codec: Codec)
    ensures Awaited(stream, request, codec).0 == Panicked
            <==> exists message: Bytes, n: nat :: Arrives(stream, ForResponse(request), codec, message, n) && HeaderOverflows(message)
  {
    hide Arrives, HeaderOverflows, Awaited;
    if Awaited(stream, request, codec).0 == Panicked {
      var message, n := PanicComesFrom(stream, request, codec);
    }
    if message: Bytes, n: nat :| Arrives(stream, ForResponse(request), codec, message, n) && HeaderOverflows(message) {
      PanicAfter(stream, request, codec, message, n);
    }
  }

  lemma {:induction false} PanicAfterEvents(stream: Bytes, name: string, codec: Codec, message: Bytes, n: nat)
    requires Arrives(stream, ForEvent(name), codec, message, n) && HeaderOverflows(message)
    ensures Sought(stream, name, codec).0 == Panicked
    decreases n
  {
    hide ReadBody, Classified, HeaderOverflows, Sought;
    WholeConsumes(stream, codec.utf8);
    SoughtStep(stream, name, codec);
    PanicsWithItsHeader(message, codec);
    if n > 0 {
      PanicAfterEvents(ReadBody(stream, codec.utf8).1, name, codec, message, n - 1);
    }
  }

  lemma {:induction false} EventPanicComesFrom(stream: Bytes, name: string, codec: Codec) returns (message: Bytes, n: nat)
    requires Sought(stream, name, codec).0 == Panicked
    ensures Arrives(stream, ForEvent(name), codec, message, n) && HeaderOverflows(message)
    decreases |stream|
  {
    hide ReadBody, Classified, HeaderOverflows, Sought;
    WholeConsumes(stream, codec.utf8);
    SoughtStep(stream, name, codec);
    var (r, rest) := ReadBody(stream, codec.utf8);
    NeverPanicsItself(r, codec, 0);
    PanicsWithItsHeader(r.message, codec);
    if Classified(r.message, codec).Panics? {
      return r.message, 0;
    }
    message, n := EventPanicComesFrom(rest, name, codec);
    n := n + 1;
  }

  /** And so does waiting for an event, once no held one has the name. */
  lemma WaitingForEventsPanicsExactlyWhen(stream: Bytes, name: string, codec: Codec)
    ensures Sought(stream, name, codec).0 == Panicked
            <==> exists message: Bytes, n: nat :: Arrives(stream, ForEvent(name), codec, message, n) && HeaderOverflows(message)
  {
    hide Arrives, HeaderOverflows, Sought;
    if Sought(stream, name, codec).0 == Panicked {
      var message, n := EventPanicComesFrom(stream, name, codec);
    }
    if message: Bytes, n: nat :| Arrives(stream, ForEvent(name), codec, message, n) && HeaderOverflows(message) {
      PanicAfterEvents(stream, name, codec, message, n);
    }
  }

  /** It happens: a body length of zero that the client believes, and after it the largest length that parses. */
  lemma TwoLengthsStopTheClient(after: Bytes, request: nat, name: string, codec: Codec)
    requires AcceptsAscii(codec.utf8)
    ensures Awaited(TwoLengths(0, WORD - 1) + after, request, codec).0 == Panicked
    ensures Sought(TwoLengths(0, WORD - 1) + after, name, codec).0 == Panicked
  {
    hide ReadBody, ReadOne, Awaited, Sought, TwoLengths, HeaderOverflows;
    var message := TwoLengths(0, WORD - 1);
    TheyDisagree([], WORD - 1, after, codec.utf8);
    assert message + [] == message;
    LongEnough();
    assert Classified(message, codec).Panics?;
    PanicsWithItsHeader(message, codec);
    assert Arrives(message + after, ForResponse(request), codec, message, 0);
    PanicAfter(message + after, request, codec, message, 0);
    assert Arrives(message + after, ForEvent(name), codec, message, 0);
    PanicAfterEvents(message + after, name, codec, message, 0);
  }

  lemma LongEnough()
    ensures |TwoLengths(0, WORD - 1)| > 0
  {
    hide HeaderLine;
  }

  // ----- other header lines -----

  /** A header line that says something else: not empty, not broken, and not a length. */
  ghost predicate OtherLine(line: Bytes) {
    line != [] && CR !in line && LF !in line && !HasPrefix(line, Name())
  }

  lemma SplitsInTwo(h: Bytes, g: Bytes)
    requires CR !in h && CR !in g
    ensures SplitLines(h + CRLF + g) == [h] + [g]
  {
    var s := h + CRLF + g;
    FindSkips(h, CRLF, g);
    assert s[..|h|] == h && s[|h| + 2..] == g;
    FindMisses(g, CRLF);
    assert SplitLines(g) == [g];
  }

  lemma OnlyLengthsCount(h: Bytes, g: Bytes)
    ensures !HasPrefix(g, Name()) ==> LastLength([h] + [g]) == LastLength([h])
    ensures HasPrefix(g, Name()) ==> LastLength([h] + [g]) == ParseUsize(Trim(g[|Name()|..]))
    ensures HasPrefix(h, Name()) ==> LastLength([h]) == ParseUsize(Trim(h[|Name()|..]))
  {
    assert ([h] + [g])[..1] == [h];
    hide Name, HasPrefix, ParseUsize, Trim;
  }

  /** Two lines, of which one is the length: the client finds it wherever it stands. */
  lemma LengthIsFound(h: Bytes, g: Bytes)
    requires CR !in h && LF !in h && CR !in g && LF !in g
    ensures HasPrefix(h, Name()) ==> FirstLength(h + CRLF + g + HEADERS_END) == Some(h[|Name()|..])
    ensures !HasPrefix(h, Name()) && HasPrefix(g, Name()) ==> FirstLength(h + CRLF + g + HEADERS_END) == Some(g[|Name()|..])
  {
    var tail := g + HEADERS_END;
    assert h + CRLF + g + HEADERS_END == h + CRLF + tail;
    BlankLineFollows(g);
    hide Name;
    if HasPrefix(h, Name()) {
      FirstLineTaken(h, tail);
    } else if HasPrefix(g, Name()) {
      LineSkipped(h, tail);
      hide HasPrefix, FirstLength;
      FirstLineTaken(g, CRLF);
    }
  }

  lemma LineSkipped(h: Bytes, tail: Bytes)
    requires CR !in h && LF !in h && !HasPrefix(h, Name())
    ensures FirstLength(h + CRLF + tail) == FirstLength(tail)
  {
    LineTo(h, tail);
    hide LineLength, Chomp, Name;
    assert (h + CRLF + tail)[|h| + 2..] == tail;
  }

  lemma TwoLinesEnd(h: Bytes, g: Bytes, after: Bytes)
    requires CR !in h && CR !in g && g != []
    ensures Find(h + CRLF + g + HEADERS_END + after, HEADERS_END) == |h| + 2 + |g|
  {
    hide At, Find;
    EndStandsThere(h + CRLF + g, after);
    forall j: nat | j < |h| + 2 + |g| ensures !At(h + CRLF + g + HEADERS_END + after, j, HEADERS_END) {
      NoEarlierEnd(h, g, after, j);
    }
    FindIs(h + CRLF + g + HEADERS_END + after, |h| + 2 + |g|, HEADERS_END);
  }

  /** A header of two lines that both readers take to announce `body`. */
  ghost predicate Announcing(h: Bytes, g: Bytes, body: Bytes, utf8: Bytes -> bool) {
    && CR !in h && LF !in h && CR !in g && LF !in g && g != []
    && ((h == HeaderLine(|body|) && OtherLine(g)) || (g == HeaderLine(|body|) && OtherLine(h)))
    && utf8(h + CRLF + g + HEADERS_END)
  }

  lemma AnnouncedLength(h: Bytes, g: Bytes, body: Bytes, utf8: Bytes -> bool)
    requires |body| <= MAX_BYTES && Announcing(h, g, body, utf8)
    ensures LastLength(SplitLines(h + CRLF + g)) == Number(|body|)
    ensures FirstLength(h + CRLF + g + HEADERS_END).Some?
    ensures ParseUsize(Trim(FirstLength(h + CRLF + g + HEADERS_END).value)) == Number(|body|)
  {
    HeaderLineParses(|body|);
    SplitsInTwo(h, g);
    hide SplitLines, FirstLength, HeaderLine, Name, HasPrefix, ParseUsize, Trim;
    OnlyLengthsCount(h, g);
    hide LastLength;
    LengthIsFound(h, g);
  }

  /** Another header line, such as Content-Type, before or after the length changes nothing for either reader. */
  lemma OtherLinesChangeNothing(h: Bytes, g: Bytes, body: Bytes, after: Bytes, utf8: Bytes -> bool)
    requires |h| + |g| + |body| + 6 <= MAX_BYTES && Announcing(h, g, body, utf8)
    ensures var message := h + CRLF + g + HEADERS_END + body;
            && ReadOne(message + after) == (Message(body), |message|)
            && ReadBody(message + after, utf8) == (Whole(message), after)
  {
    hide ReadOne, ReadBody, SplitLines, LastLength, FirstLength, ParseUsize, Trim, Find, Announcing;
    AnnouncedLength(h, g, body, utf8);
    AnnouncedEnd(h, g, body, after, utf8);
    BothReadOn(h + CRLF + g, body, after, utf8);
  }

  lemma AnnouncedEnd(h: Bytes, g: Bytes, body: Bytes, after: Bytes, utf8: Bytes -> bool)
    requires Announcing(h, g, body, utf8)
    ensures utf8(h + CRLF + g + HEADERS_END)
    ensures Find(h + CRLF + g + HEADERS_END + (body + after), HEADERS_END) == |h + CRLF + g|
  {
    hide HeaderLine, OtherLine, Find;
    TwoLinesEnd(h, g, body + after);
  }

  lemma BothReadOn(lines: Bytes, body: Bytes, after: Bytes, utf8: Bytes -> bool)
    requires Find(lines + HEADERS_END + (body + after), HEADERS_END) == |lines| && |lines| + 4 + |body| < WORD
    requires LastLength(SplitLines(lines)) == Number(|body|) && utf8(lines + HEADERS_END)
    requires FirstLength(lines + HEADERS_END).Some? && ParseUsize(Trim(FirstLength(lines + HEADERS_END).value)) == Number(|body|)
    ensures var message := lines + HEADERS_END + body;
            && ReadOne(message + after) == (Message(body), |message|)
            && ReadBody(message + after, utf8) == (Whole(message), after)
  {
    hide ReadOne, ReadBody, SplitLines, LastLength, FirstLength, ParseUsize, Trim, Find;
    HeaderThenRest(lines, body, after);
    var stream := lines + HEADERS_END + body + after;
    ParserReadsOn(lines, body, stream);
    ClientReadsOn(lines, body, after, stream, utf8);
  }

  lemma ParserReadsOn(lines: Bytes, body: Bytes, stream: Bytes)
    requires Find(stream, HEADERS_END) == |lines| && |lines| + 4 + |body| <= |stream| && |lines| + 4 + |body| < WORD
    requires stream[..|lines|] == lines && LastLength(SplitLines(lines)) == Number(|body|)
    requires stream[|lines| + 4..|lines| + 4 + |body|] == body
    ensures ReadOne(stream) == (Message(body), |lines| + 4 + |body|)
  {
    hide SplitLines, LastLength, Find;
  }

  lemma ClientReadsOn(lines: Bytes, body: Bytes, after: Bytes, stream: Bytes, utf8: Bytes -> bool)
    requires Find(stream, HEADERS_END) == |lines| < |stream| && |lines| + 4 <= |stream|
    requires stream[..|lines| + 4] == lines + HEADERS_END && stream[|lines| + 4..] == body + after
    requires utf8(lines + HEADERS_END) && FirstLength(lines + HEADERS_END).Some?
    requires ParseUsize(Trim(FirstLength(lines + HEADERS_END).value)) == Number(|body|)
    ensures ReadBody(stream, utf8) == (Whole(lines + HEADERS_END + body), after)
  {
    hide FirstLength, ParseUsize, Trim, Find, AfterHeader;
    BodyIsCutOut(lines + HEADERS_END, FirstLength(lines + HEADERS_END).value, body, after, utf8);
  }

  lemma HeaderThenRest(lines: Bytes, body: Bytes, after: Bytes)
    ensures var (header, stream) := (lines + HEADERS_END, lines + HEADERS_END + body + after);
            && stream == header + (body + after)
            && stream[..|lines|] == lines && stream[..|lines| + 4] == header && stream[|lines| + 4..] == body + after
            && stream[|lines| + 4..|lines| + 4 + |body|] == body
  {
    var stream := lines + HEADERS_END + body + after;
    assert stream[|lines| + 4..][..|body|] == body;
  }
}
