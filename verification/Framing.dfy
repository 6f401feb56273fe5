/**
 Content-Length framing, as section "Base Protocol" of the Debug Adapter
 Protocol specification defines it: a printer, and a parser over a byte buffer.
 */
module Framing {
  import opened Decimal
  import opened Octets
  import opened Piped

  const CR: Byte := 13
  const LF: Byte := 10
  const CRLF: Bytes := [CR, LF]
  const HEADERS_END: Bytes := [CR, LF, CR, LF]

  /** One more than the largest length a machine word holds. */
  const WORD: nat := 0x1_0000_0000_0000_0000

  /** No buffer is longer than half of that. */
  const MAX_BYTES: nat := 0x7FFF_FFFF_FFFF_FFFF

  function Ascii(s: string): (b: Bytes)
    requires forall i :: 0 <= i < |s| ==> s[i] < 128 as char
    ensures |b| == |s| && forall i :: 0 <= i < |s| ==> b[i] == s[i] as int
  {
    seq(|s|, i requires 0 <= i < |s| => s[i] as int)
  }

  /** The header's name and colon, without the space that the printer adds. */
  function Name(): (n: Bytes)
    ensures forall i :: 0 <= i < |n| ==> n[i] > 32
    ensures 0 < |n| < 20
  {
    Ascii("Content-Length:")
  }

  const SPACE: Byte := 32

  function DigitBytes(n: nat): (b: Bytes)
    ensures |b| == |Digits(n)| > 0 && forall i :: 0 <= i < |b| ==> 48 <= b[i] <= 57 && b[i] == 48 + Digits(n)[i]
  {
    seq(|Digits(n)|, i requires 0 <= i < |Digits(n)| => 48 + Digits(n)[i])
  }

  function HeaderLine(length: nat): Bytes { Name() + [SPACE] + DigitBytes(length) }

  function Frame(body: Bytes): Bytes { HeaderLine(|body|) + HEADERS_END + body }

  // ----- reading a length -----

  predicate IsSpace(b: Byte) { 9 <= b <= 13 || b == 32 }

  function TrimLeft(s: Bytes): Bytes {
    if s != [] && IsSpace(s[0]) then TrimLeft(s[1..]) else s
  }

  function TrimRight(s: Bytes): Bytes {
    if s != [] && IsSpace(s[|s| - 1]) then TrimRight(s[..|s| - 1]) else s
  }

  function Trim(s: Bytes): Bytes { TrimRight(TrimLeft(s)) }

  predicate AllDigits(s: Bytes) { forall i :: 0 <= i < |s| ==> 48 <= s[i] <= 57 }

  function DigitsOf(s: Bytes): (ds: seq<nat>)
    requires AllDigits(s)
    ensures |ds| == |s| && forall i :: 0 <= i < |s| ==> ds[i] == s[i] - 48
  {
    seq(|s|, i requires 0 <= i < |s| => s[i] - 48)
  }

  datatype Parsed = Number(value: nat) | NotANumber

  /** `parse::<usize>`: an optional plus sign, at least one digit, and a value that fits the word. */
  function ParseUsize(s: Bytes): Parsed {
    var digits := if s != [] && s[0] == 43 then s[1..] else s;
    if digits == [] || !AllDigits(digits) then NotANumber
    else if Value(DigitsOf(digits)) >= WORD then NotANumber
    else Number(Value(DigitsOf(digits)))
  }

  predicate HasPrefix(s: Bytes, prefix: Bytes) { |prefix| <= |s| && s[..|prefix|] == prefix }

  // ----- the buffer parser -----

  /** `split("\r\n")`. */
  function SplitLines(s: Bytes): (lines: seq<Bytes>)
    decreases |s|
  {
    var i := Find(s, CRLF);
    if i == |s| then [s] else [s[..i]] + SplitLines(s[i + 2..])
  }

  /** The last Content-Length header decides, even when it does not parse. */
  function LastLength(lines: seq<Bytes>): Parsed {
    if lines == [] then NotANumber
    else
      var last := lines[|lines| - 1];
      if HasPrefix(last, Name()) then ParseUsize(Trim(last[|Name()|..])) else LastLength(lines[..|lines| - 1])
  }

  /** `Panic` is no answer: the code stops there, on the addition or on the slice that the wrapped sum asks for. */
  datatype Framed = Message(body: Bytes) | NoTerminator | NoLength | ShortBody | Panic

  /** One message from the front of `rest`, and how many bytes it took. */
  function ReadOne(rest: Bytes): (Framed, nat) {
    var headerEnd := Find(rest, HEADERS_END);
    if headerEnd == |rest| then (NoTerminator, 0)
    else
      match LastLength(SplitLines(rest[..headerEnd]))
      case NotANumber => (NoLength, 0)
      case Number(length) =>
        var start := headerEnd + 4;
        if start + length >= WORD then (Panic, 0)
        else if |rest| < start + length then (ShortBody, 0)
        else (Message(rest[start..start + length]), start + length)
  }

  /** A whole header whose length takes the end of the body past the machine word. */
  predicate HeaderOverflows(rest: Bytes) {
    var headerEnd := Find(rest, HEADERS_END);
    && headerEnd < |rest|
    && var length := LastLength(SplitLines(rest[..headerEnd]));
    length.Number? && headerEnd + 4 + length.value >= WORD
  }

  /** The header loop as the code runs it, over the lines in order. */
  method ScanHeaders(lines: seq<Bytes>) returns (length: Parsed)
    ensures length == LastLength(lines)
  {
    length := NotANumber;
    for i := 0 to |lines|
      invariant length == LastLength(lines[..i])
    {
      assert lines[..i + 1][..i] == lines[..i];
      if HasPrefix(lines[i], Name()) {
        length := ParseUsize(Trim(lines[i][|Name()|..]));
      }
    }
    assert lines[..|lines|] == lines;
  }

  /** Read one message at `offset`; anything short of a whole message leaves the offset alone, and a length past the word stops the program. */
  method ReadFrame(input: Bytes, offset: nat) returns (framed: Framed, next: nat)
    requires offset <= |input|
    ensures framed == ReadOne(input[offset..]).0 && next == offset + ReadOne(input[offset..]).1
    ensures framed.Panic? <==> HeaderOverflows(input[offset..])
    ensures !framed.Message? && !framed.Panic? ==> next == offset
  {
    hide SplitLines, LastLength;
    var rest := input[offset..];
    var headerEnd := Find(rest, HEADERS_END);
    if headerEnd == |rest| {
      return NoTerminator, offset;
    }
    var length := ScanHeaders(SplitLines(rest[..headerEnd]));
    if length.NotANumber? {
      return NoLength, offset;
    }
    var start := headerEnd + 4;
    if start + length.value >= WORD {
      return Panic, offset;
    }
    var end := start + length.value;
    if |rest| < end {
      return ShortBody, offset;
    }
    framed, next := Message(rest[start..end]), offset + end;
  }

  // ----- printing and parsing meet -----

  lemma FindSkips(head: Bytes, pattern: Bytes, tail: Bytes)
    requires pattern != [] && pattern[0] !in head
    ensures Find(head + pattern + tail, pattern) == |head|
  {
    var s := head + pattern + tail;
    assert s[|head|..|head| + |pattern|] == pattern;
    assert At(s, |head|, pattern);
    assert forall i :: 0 <= i < |head| && i + |pattern| <= |s| ==> s[i..i + |pattern|][0] == head[i];
  }

  lemma FindMisses(s: Bytes, pattern: Bytes)
    requires pattern != [] && forall i :: 0 <= i < |s| && i + |pattern| <= |s| ==> s[i] != pattern[0]
    ensures Find(s, pattern) == |s|
  {
    assert forall i :: 0 <= i < |s| && i + |pattern| <= |s| ==> s[i..i + |pattern|][0] == s[i];
  }

  lemma DigitsParseBack(n: nat)
    requires n < WORD
    ensures ParseUsize(DigitBytes(n)) == Number(n)
  {
    var b := DigitBytes(n);
    assert DigitsOf(b) == Digits(n);
    ValueOfDigits(n);
  }

  lemma TrimKeepsDigits(b: Bytes)
    requires b != [] && AllDigits(b)
    ensures Trim([SPACE] + b) == b
  {
    assert ([SPACE] + b)[1..] == b;
    assert TrimLeft([SPACE] + b) == TrimLeft(b) == b;
  }

  lemma HeaderLineParses(n: nat)
    requires n < WORD
    ensures HasPrefix(HeaderLine(n), Name()) && ParseUsize(Trim(HeaderLine(n)[|Name()|..])) == Number(n)
    ensures CR !in HeaderLine(n) && LF !in HeaderLine(n)
  {
    hide Name;
    assert HeaderLine(n)[|Name()|..] == [SPACE] + DigitBytes(n);
    assert HeaderLine(n)[..|Name()|] == Name();
    assert forall i :: 0 <= i < |HeaderLine(n)| ==> HeaderLine(n)[i] >= 32;
    hide HeaderLine, Trim, ParseUsize;
    TrimKeepsDigits(DigitBytes(n));
    DigitsParseBack(n);
  }

  lemma HeaderAlone(n: nat)
    requires n < WORD
    ensures LastLength(SplitLines(HeaderLine(n))) == Number(n)
  {
    HeaderLineParses(n);
    hide HeaderLine, Name, Trim, ParseUsize;
    var h := HeaderLine(n);
    FindMisses(h, CRLF);
    assert SplitLines(h) == [h];
  }

  /** A frame at the front of the buffer is read back whole, whatever follows it and whatever its body holds. */
  lemma FrameReadsBack(body: Bytes, after: Bytes)
    requires |body| <= MAX_BYTES
    ensures ReadOne(Frame(body) + after) == (Message(body), |Frame(body)|)
  {
    hide HeaderLine, SplitLines, LastLength, DigitBytes;
    var h := HeaderLine(|body|);
    HeaderLineParses(|body|);
    HeaderAlone(|body|);
    var rest := Frame(body) + after;
    assert rest == h + HEADERS_END + (body + after);
    FindSkips(h, HEADERS_END, body + after);
    assert rest[..|h|] == h;
    assert rest[|h| + 4..|h| + 4 + |body|] == body;
    ShortHeader(|body|);
  }

  /** The header of any buffer that exists is a few bytes: no length it declares overflows the word. */
  lemma ShortHeader(n: nat)
    requires n <= MAX_BYTES
    ensures |HeaderLine(n)| + 4 + n < WORD
  {
    hide Name;
    DigitCountBound(n);
  }

  lemma {:induction false} DigitCountBound(n: nat)
    ensures |Digits(n)| <= n / 10 + 1
  {
    if n >= 10 {
      DigitCountBound(n / 10);
    }
  }

  /** A frame that has not arrived whole is refused and nothing is consumed. */
  lemma StrictPrefixIsRefused(body: Bytes, n: nat)
    requires |body| <= MAX_BYTES && n < |Frame(body)|
    ensures ReadOne(Frame(body)[..n]) == (if n < |HeaderLine(|body|)| + 4 then NoTerminator else ShortBody, 0)
  {
    hide HeaderLine, SplitLines, LastLength, DigitBytes;
    var h := HeaderLine(|body|);
    HeaderLineParses(|body|);
    var rest := Frame(body)[..n];
    if n < |h| + 4 {
      forall i | 0 <= i < |rest| && i + 4 <= |rest| ensures rest[i] != CR {
        assert rest[i] == h[i];
      }
      FindMisses(rest, HEADERS_END);
    } else {
      HeaderAlone(|body|);
      ShortHeader(|body|);
      assert rest == h + HEADERS_END + body[..n - |h| - 4];
      FindSkips(h, HEADERS_END, body[..n - |h| - 4]);
      assert rest[..|h|] == h;
    }
  }

  /** A printed header stops the parser exactly when what it announces ends past the word, whatever follows. */
  lemma PrintedHeaderPanicsExactlyWhen(n: nat, after: Bytes)
    requires n < WORD
    ensures ReadOne(HeaderLine(n) + HEADERS_END + after).0.Panic? <==> |HeaderLine(n)| + 4 + n >= WORD
  {
    hide HeaderLine, SplitLines, LastLength;
    var h := HeaderLine(n);
    HeaderLineParses(n);
    HeaderAlone(n);
    FindSkips(h, HEADERS_END, after);
    assert (h + HEADERS_END + after)[..|h|] == h;
  }

  /** The largest length that parses does so. */
  lemma LargestLengthPanics(after: Bytes)
    ensures ReadOne(HeaderLine(WORD - 1) + HEADERS_END + after).0 == Panic
  {
    hide HeaderLine, ReadOne;
    PrintedHeaderPanicsExactlyWhen(WORD - 1, after);
  }

  // ----- a buffer of many frames -----

  function Stream(bodies: seq<Bytes>): Bytes {
    if bodies == [] then [] else Frame(bodies[0]) + Stream(bodies[1..])
  }

  ghost predicate Sendable(bodies: seq<Bytes>) {
    forall i :: 0 <= i < |bodies| ==> |bodies[i]| <= MAX_BYTES
  }

  /** Where message `k` starts. */
  function Offset(bodies: seq<Bytes>, k: nat): nat
    requires k <= |bodies|
  {
    if k == 0 then 0 else Offset(bodies, k - 1) + |Frame(bodies[k - 1])|
  }

  lemma {:induction false} StreamAtOffset(bodies: seq<Bytes>, k: nat)
    requires k <= |bodies|
    ensures Offset(bodies, k) <= |Stream(bodies)| && Stream(bodies)[Offset(bodies, k)..] == Stream(bodies[k..])
  {
    hide Frame;
    if k == 0 {
      assert bodies[0..] == bodies;
    } else {
      StreamAtOffset(bodies, k - 1);
      var from := Offset(bodies, k - 1);
      assert bodies[k - 1..][1..] == bodies[k..];
      assert Stream(bodies[k - 1..]) == Frame(bodies[k - 1]) + Stream(bodies[k..]);
      assert Stream(bodies)[from..][|Frame(bodies[k - 1])|..] == Stream(bodies)[from + |Frame(bodies[k - 1])|..];
    }
  }

  /** Reading on from each offset yields the messages in order, each leaving the offset at the next. */
  lemma StreamReadsBackInOrder(bodies: seq<Bytes>, k: nat)
    requires Sendable(bodies) && k < |bodies|
    ensures Offset(bodies, k) <= |Stream(bodies)|
    ensures ReadOne(Stream(bodies)[Offset(bodies, k)..]) == (Message(bodies[k]), Offset(bodies, k + 1) - Offset(bodies, k))
  {
    hide Frame, ReadOne;
    StreamAtOffset(bodies, k);
    assert bodies[k..][0] == bodies[k];
    FrameReadsBack(bodies[k], Stream(bodies[k..][1..]));
  }

  // ----- white space and signs -----

  /** Tab, line feed, vertical tab, form feed, carriage return and space. */
  predicate AllSpace(s: Bytes) {
    forall i :: 0 <= i < |s| ==> s[i] in {9, 10, 11, 12, 13, 32}
  }

  lemma {:induction false} TrimmedLeft(a: Bytes, core: Bytes)
    requires AllSpace(a) && core != [] && core[0] !in {9, 10, 11, 12, 13, 32}
    ensures TrimLeft(a + core) == core
    decreases |a|
  {
    if a == [] {
      assert a + core == core;
    } else {
      assert (a + core)[1..] == a[1..] + core;
      TrimmedLeft(a[1..], core);
    }
  }

  lemma {:induction false} TrimmedRight(core: Bytes, b: Bytes)
    requires AllSpace(b) && core != [] && core[|core| - 1] !in {9, 10, 11, 12, 13, 32}
    ensures TrimRight(core + b) == core
    decreases |b|
  {
    if b == [] {
      assert core + b == core;
    } else {
      assert (core + b)[..|core + b| - 1] == core + b[..|b| - 1];
      TrimmedRight(core, b[..|b| - 1]);
    }
  }

  /** White space on either side of a number, and a plus sign in front of it, do not matter. */
  lemma NumbersAreReadLeniently(a: Bytes, n: nat, b: Bytes)
    requires AllSpace(a) && AllSpace(b) && n < WORD
    ensures ParseUsize(Trim(a + DigitBytes(n) + b)) == Number(n)
    ensures ParseUsize(Trim(a + ([43] + DigitBytes(n)) + b)) == Number(n)
  {
    var (digits, signed) := (DigitBytes(n), [43] + DigitBytes(n));
    DigitsParseBack(n);
    assert signed[1..] == digits;
    assert ParseUsize(signed) == ParseUsize(digits);
    hide ParseUsize;
    TrimsTo(a, digits, b);
    TrimsTo(a, signed, b);
  }

  lemma TrimsTo(a: Bytes, core: Bytes, b: Bytes)
    requires AllSpace(a) && AllSpace(b) && core != []
    requires core[0] !in {9, 10, 11, 12, 13, 32} && core[|core| - 1] !in {9, 10, 11, 12, 13, 32}
    ensures Trim(a + core + b) == core
  {
    hide TrimLeft, TrimRight;
    assert a + core + b == a + (core + b);
    TrimmedLeft(a, core + b);
    TrimmedRight(core, b);
  }
}
