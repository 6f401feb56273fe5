/**
 A buffered reader over a pipe that hands over bytes in pieces of its own
 choosing and sometimes goes silent.
 */
module Piped {
  import opened Octets

  /** A read that returns data returns at least one byte. */
  type Chunk = c: Bytes | |c| > 0 witness [0]

  const CHUNK_BYTES: nat := 8192

  /** What the descriptor has in store for successive polls; after the last one it is at end of stream. */
  datatype Arrival = Data(bytes: Chunk) | Silence | Fault

  datatype IoError = TimedOut | UnexpectedEof | Os

  datatype Filled = Read(count: nat) | FillFailed(error: IoError)

  /** The bytes still to come. */
  function Unread(script: seq<Arrival>): Bytes {
    if script == [] then []
    else (if script[0].Data? then script[0].bytes else []) + Unread(script[1..])
  }

  ghost predicate Steady(script: seq<Arrival>) {
    forall i :: 0 <= i < |script| ==> script[i].Data?
  }

  predicate At(s: Bytes, i: nat, pattern: Bytes) {
    i + |pattern| <= |s| && s[i..i + |pattern|] == pattern
  }

  lemma AtShifts(s: Bytes, j: nat, pattern: Bytes)
    requires s != [] && j > 0
    ensures At(s, j, pattern) == At(s[1..], j - 1, pattern)
  {
    if j + |pattern| <= |s| {
      assert s[j..j + |pattern|] == s[1..][j - 1..j - 1 + |pattern|];
    }
  }

  /** Index of the first place where `pattern` stands in `s`, or `|s|` when it stands nowhere. */
  function Find(s: Bytes, pattern: Bytes): (i: nat)
    requires pattern != []
    ensures i <= |s| && (i < |s| ==> At(s, i, pattern))
    ensures forall j: nat :: j < i ==> !At(s, j, pattern)
  {
    if s == [] || At(s, 0, pattern) then 0
    else
      assert forall j: nat :: j > 0 ==> At(s, j, pattern) == At(s[1..], j - 1, pattern) by {
        forall j: nat | j > 0 ensures At(s, j, pattern) == At(s[1..], j - 1, pattern) {
          AtShifts(s, j, pattern);
        }
      }
      Find(s[1..], pattern) + 1
  }

  // ----- the calls, on a whole stream at once -----

  datatype Request = Until(byte: Byte) | Exactly(count: nat)

  datatype Reply = Handed(bytes: Bytes) | CutShort | Interrupted(error: IoError)

  /** Length of what a read up to and including `byte` takes: the line, or all there is. */
  function LineLength(stream: Bytes, byte: Byte): (n: nat)
    ensures n <= |stream|
    ensures forall j :: 0 <= j < n - 1 ==> stream[j] != byte
    ensures byte in stream ==> n > 0 && stream[n - 1] == byte
    ensures byte !in stream ==> n == |stream|
  {
    if stream == [] then 0
    else if stream[0] == byte then 1
    else 1 + LineLength(stream[1..], byte)
  }

  /** The reply a whole stream gives, and what is left of it. */
  function Answer(stream: Bytes, request: Request): (Reply, Bytes) {
    match request
    case Until(byte) => (Handed(stream[..LineLength(stream, byte)]), stream[LineLength(stream, byte)..])
    case Exactly(count) => if |stream| < count then (CutShort, stream) else (Handed(stream[..count]), stream[count..])
  }

  /** What one call may do to the bytes pending: answer as the whole stream would, or lose nothing. */
  ghost predicate Serves(before: Bytes, request: Request, reply: Reply, after: Bytes) {
    if reply.Interrupted? then after == before else (reply, after) == Answer(before, request)
  }

  lemma LineWithin(buffer: Bytes, rest: Bytes, byte: Byte)
    requires byte in buffer
    ensures LineLength(buffer + rest, byte) == LineLength(buffer, byte)
  {
    var n, m := LineLength(buffer, byte), LineLength(buffer + rest, byte);
    assert (buffer + rest)[n - 1] == byte;
    assert m - 1 < |buffer| ==> (buffer + rest)[m - 1] == buffer[m - 1];
  }

  /** What the pipe still holds once `n` bytes of its first piece have been read. */
  function Remaining(script: seq<Arrival>, n: nat): seq<Arrival>
    requires script != [] && script[0].Data? && n <= |script[0].bytes|
  {
    if n == |script[0].bytes| then script[1..] else [Data(script[0].bytes[n..])] + script[1..]
  }

  lemma ReadingMoves(script: seq<Arrival>, n: nat)
    requires script != [] && script[0].Data? && n <= |script[0].bytes|
    ensures Unread(script) == script[0].bytes[..n] + Unread(Remaining(script, n))
    ensures Steady(script) ==> Steady(Remaining(script, n))
  {
    var bytes, after := script[0].bytes, Unread(script[1..]);
    if n == |bytes| {
      assert bytes[..n] == bytes;
    } else {
      assert ([Data(bytes[n..])] + script[1..])[1..] == script[1..];
      assert bytes + after == bytes[..n] + (bytes[n..] + after);
    }
  }

  class PipedInput {
    var buffer: Bytes
    var eof: bool
    var script: seq<Arrival>

    /** Buffered bytes, then the ones still in the pipe. */
    ghost function Pending(): Bytes
      reads this
    {
      buffer + Unread(script)
    }

    ghost predicate Valid()
      reads this
    {
      eof ==> script == []
    }

    constructor (script: seq<Arrival>)
      ensures Valid() && Pending() == Unread(script) && this.script == script
    {
      buffer, eof := [], false;
      this.script := script;
      new;
      assert [] + Unread(script) == Unread(script);
    }

    /** One poll-then-read step. */
    method Fill() returns (r: Filled)
      requires Valid()
      modifies this
      ensures Valid() && Pending() == old(Pending())
      ensures r.Read? && r.count == 0 ==> script == [] && buffer == old(buffer)
      ensures r.Read? && r.count > 0 ==> |Unread(script)| < |Unread(old(script))|
      ensures r.FillFailed? ==> r.error != UnexpectedEof && buffer == old(buffer)
      ensures Steady(old(script)) ==> r.Read? && Steady(script)
    {
      if eof || script == [] {
        eof := true;
        script := [];
        return Read(0);
      }
      var next := script[0];
      match next {
        case Silence =>
          script := script[1..];
          return FillFailed(TimedOut);
        case Fault =>
          script := script[1..];
          return FillFailed(Os);
        case Data(bytes) =>
          var n := if |bytes| <= CHUNK_BYTES then |bytes| else CHUNK_BYTES;
          ReadingMoves(script, n);
          ghost var pending, after := Unread(script), Unread(Remaining(script, n));
          assert buffer + (bytes[..n] + after) == (buffer + bytes[..n]) + after;
          buffer := buffer + bytes[..n];
          script := Remaining(script, n);
          return Read(n);
      }
    }

    /** Read up to and including the next `byte`; at end of stream, whatever is left. */
    method ReadUntil(byte: Byte, out: Bytes) returns (out': Bytes, reply: Reply)
      requires Valid()
      modifies this
      ensures Valid() && Serves(old(Pending()), Until(byte), reply, Pending())
      ensures out' == if reply.Handed? then out + reply.bytes else out
      ensures Steady(old(script)) ==> reply.Handed? && Steady(script)
    {
      out' := out;
      while true
        invariant Valid() && Pending() == old(Pending())
        invariant Steady(old(script)) ==> Steady(script)
        decreases |Unread(script)|
      {
        if byte in buffer {
          LineWithin(buffer, Unread(script), byte);
          var n := LineLength(buffer, byte);
          assert Pending()[..n] == buffer[..n] && Pending()[n..] == buffer[n..] + Unread(script);
          out' := out + buffer[..n];
          reply := Handed(buffer[..n]);
          buffer := buffer[n..];
          return;
        }
        var filled := Read(0);
        if !eof {
          filled := Fill();
        }
        if filled.FillFailed? {
          return out, Interrupted(filled.error);
        }
        if filled.count == 0 {
          ghost var all := old(Pending());
          assert all == buffer && all[..|all|] == all && all[|all|..] == [];
          out' := out + buffer;
          reply := Handed(buffer);
          buffer := [];
          eof := true;
          assert Pending() == [];
          return;
        }
      }
    }

    /** Read exactly `count` bytes; a stream that ends first keeps what it had. */
    method ReadExactTo(count: nat, out: Bytes) returns (out': Bytes, reply: Reply)
      requires Valid()
      modifies this
      ensures Valid() && Serves(old(Pending()), Exactly(count), reply, Pending())
      ensures out' == if reply.Handed? then out + reply.bytes else out
      ensures Steady(old(script)) ==> !reply.Interrupted? && Steady(script)
    {
      while |buffer| < count
        invariant Valid() && Pending() == old(Pending())
        invariant Steady(old(script)) ==> Steady(script)
        decreases |Unread(script)|
      {
        var filled := Read(0);
        if !eof {
          filled := Fill();
        }
        if filled.FillFailed? {
          return out, Interrupted(filled.error);
        }
        if filled.count == 0 {
          eof := true;
          return out, CutShort;
        }
      }
      assert Pending()[..count] == buffer[..count] && Pending()[count..] == buffer[count..] + Unread(script);
      out' := out + buffer[..count];
      reply := Handed(buffer[..count]);
      buffer := buffer[count..];
    }
  }

  // ----- any sequence of calls -----

  datatype Call = Call(request: Request, reply: Reply)

  /** A run of calls, each served from what the one before left. */
  ghost predicate Trace(before: Bytes, calls: seq<Call>, after: Bytes)
    decreases |calls|
  {
    if calls == [] then before == after
    else exists mid :: Serves(before, calls[0].request, calls[0].reply, mid) && Trace(mid, calls[1..], after)
  }

  /** The calls that were not interrupted. */
  function Settled(calls: seq<Call>): seq<Call> {
    if calls == [] then []
    else (if calls[0].reply.Interrupted? then [] else [calls[0]]) + Settled(calls[1..])
  }

  function Requests(calls: seq<Call>): seq<Request> {
    if calls == [] then [] else [calls[0].request] + Requests(calls[1..])
  }

  function Replies(calls: seq<Call>): seq<Reply> {
    if calls == [] then [] else [calls[0].reply] + Replies(calls[1..])
  }

  /** The same requests put to the whole stream at once, with nothing in pieces and nothing silent. */
  function AllAtOnce(stream: Bytes, requests: seq<Request>): (seq<Reply>, Bytes) {
    if requests == [] then ([], stream)
    else
      var first := Answer(stream, requests[0]);
      var others := AllAtOnce(first.1, requests[1..]);
      ([first.0] + others.0, others.1)
  }

  function HandedOver(calls: seq<Call>): Bytes {
    if calls == [] then []
    else (if calls[0].reply.Handed? then calls[0].reply.bytes else []) + HandedOver(calls[1..])
  }

  /** Chunking and silence are invisible: the calls that settle are answered as on the whole stream. */
  lemma {:induction false} ChunkingIsInvisible(before: Bytes, calls: seq<Call>, after: Bytes)
    requires Trace(before, calls, after)
    ensures AllAtOnce(before, Requests(Settled(calls))) == (Replies(Settled(calls)), after)
    decreases |calls|
  {
    if calls != [] {
      var mid :| Serves(before, calls[0].request, calls[0].reply, mid) && Trace(mid, calls[1..], after);
      ChunkingIsInvisible(mid, calls[1..], after);
      if !calls[0].reply.Interrupted? {
        assert Settled(calls)[1..] == Settled(calls[1..]);
        assert Requests(Settled(calls))[1..] == Requests(Settled(calls[1..]));
      } else {
        assert Settled(calls) == Settled(calls[1..]);
      }
    }
  }

  lemma AnswerSplits(before: Bytes, call: Call, after: Bytes)
    requires Serves(before, call.request, call.reply, after)
    ensures (if call.reply.Handed? then call.reply.bytes else []) + after == before
  {
  }

  /** No byte is lost, repeated or reordered: what was handed over, then what is pending, is the stream. */
  lemma {:induction false} BytesAreConserved(before: Bytes, calls: seq<Call>, after: Bytes)
    requires Trace(before, calls, after)
    ensures HandedOver(calls) + after == before
    decreases |calls|
  {
    hide Serves;
    if calls != [] {
      var mid :| Serves(before, calls[0].request, calls[0].reply, mid) && Trace(mid, calls[1..], after);
      BytesAreConserved(mid, calls[1..], after);
      AnswerSplits(before, calls[0], mid);
      var first := if calls[0].reply.Handed? then calls[0].reply.bytes else [];
      calc {
        HandedOver(calls) + after;
        (first + HandedOver(calls[1..])) + after;
        first + (HandedOver(calls[1..]) + after);
        first + mid;
      }
    }
  }

  lemma {:induction false} TraceExtends(before: Bytes, calls: seq<Call>, mid: Bytes, call: Call, after: Bytes)
    requires Trace(before, calls, mid) && Serves(mid, call.request, call.reply, after)
    ensures Trace(before, calls + [call], after)
    decreases |calls|
  {
    hide Serves;
    if calls == [] {
      assert [] + [call] == [call] && [call][1..] == [];
      assert Trace(after, [], after);
    } else {
      var next :| Serves(before, calls[0].request, calls[0].reply, next) && Trace(next, calls[1..], mid);
      TraceExtends(next, calls[1..], mid, call, after);
      assert (calls + [call])[1..] == calls[1..] + [call];
    }
  }

  lemma {:induction false} RequestsExtend(calls: seq<Call>, call: Call)
    ensures Requests(calls + [call]) == Requests(calls) + [call.request]
  {
    if calls == [] {
      assert [] + [call] == [call];
    } else {
      assert (calls + [call])[1..] == calls[1..] + [call];
      RequestsExtend(calls[1..], call);
    }
  }

  ghost predicate NoneInterrupted(calls: seq<Call>) {
    forall i :: 0 <= i < |calls| ==> !calls[i].reply.Interrupted?
  }

  lemma {:induction false} AllSettled(calls: seq<Call>)
    requires NoneInterrupted(calls)
    ensures Settled(calls) == calls
  {
    if calls != [] {
      AllSettled(calls[1..]);
    }
  }

  method Serve(input: PipedInput, request: Request) returns (reply: Reply)
    requires input.Valid()
    modifies input
    ensures input.Valid() && Serves(old(input.Pending()), request, reply, input.Pending())
    ensures Steady(old(input.script)) ==> !reply.Interrupted? && Steady(input.script)
  {
    var out;
    match request {
      case Until(byte) => out, reply := input.ReadUntil(byte, []);
      case Exactly(count) => out, reply := input.ReadExactTo(count, []);
    }
  }

  /** Any list of requests put to the reader one after another, over pieces and silences of any kind. */
  method ServeAll(input: PipedInput, requests: seq<Request>) returns (calls: seq<Call>)
    requires input.Valid()
    modifies input
    ensures input.Valid() && Requests(calls) == requests && Trace(old(input.Pending()), calls, input.Pending())
    ensures AllAtOnce(old(input.Pending()), Requests(Settled(calls))) == (Replies(Settled(calls)), input.Pending())
    ensures HandedOver(calls) + input.Pending() == old(input.Pending())
    ensures Steady(old(input.script)) ==> AllAtOnce(old(input.Pending()), requests) == (Replies(calls), input.Pending())
  {
    hide Serves, Steady, Unread;
    calls := [];
    ghost var stream := input.Pending();
    for i := 0 to |requests|
      invariant input.Valid() && Requests(calls) == requests[..i] && Trace(stream, calls, input.Pending())
      invariant Steady(old(input.script)) ==> NoneInterrupted(calls) && Steady(input.script)
    {
      ghost var before := input.Pending();
      var reply := Serve(input, requests[i]);
      var call := Call(requests[i], reply);
      TraceExtends(stream, calls, before, call, input.Pending());
      RequestsExtend(calls, call);
      calls := calls + [call];
      assert requests[..i + 1] == requests[..i] + [requests[i]];
    }
    assert requests[..|requests|] == requests;
    ChunkingIsInvisible(stream, calls, input.Pending());
    BytesAreConserved(stream, calls, input.Pending());
    if NoneInterrupted(calls) {
      AllSettled(calls);
    }
  }
}
