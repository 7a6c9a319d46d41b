/**
 The incremental parser: a buffer that grows by chunks and gives up complete
 instructions.  However a byte stream is cut into chunks, the parser sees what
 one parse of the whole stream sees.
 */
module GuacStream {
  import opened Decimal
  import opened GuacWire

  /** Instructions taken from a buffer, what is left of it, and whether it may go on. */
  datatype Drained = Drained(out: seq<Instruction>, rest: Text, ok: bool)

  function After(out: seq<Instruction>, d: Drained): Drained {
    Drained(out + d.out, d.rest, d.ok)
  }

  lemma AfterTwice(a: seq<Instruction>, b: seq<Instruction>, d: Drained)
    ensures After(a, After(b, d)) == After(a + b, d)
  {
    assert a + (b + d.out) == (a + b) + d.out;
  }

  /** One pure parse of a whole byte stream. */
  function ParseAll(stream: Text): Drained
    decreases |stream|
  {
    if stream == [] then Drained([], [], true)
    else
      match Parse(stream)
      case Malformed => Drained([], stream, false)
      case Incomplete => Drained([], stream, true)
      case Complete(i, n) =>
        After([i], ParseAll(stream[n..]))
  }

  /** What the parser loop does with its buffer, including the size guard after each instruction. */
  function Drain(buffer: Text): Drained
    decreases |buffer|
  {
    if buffer == [] then Drained([], [], true)
    else
      match Parse(buffer)
      case Malformed => Drained([], buffer, false)
      case Incomplete => Drained([], buffer, true)
      case Complete(i, n) =>
        if |buffer[n..]| > MAX_MESSAGE then Drained([i], buffer[n..], false)
        else After([i], Drain(buffer[n..]))
  }

  datatype FeedResult = Fed(instructions: seq<Instruction>) | FeedError

  function Result(d: Drained): FeedResult {
    if d.ok then Fed(d.out) else FeedError
  }

  lemma DrainStep(out: seq<Instruction>, buffer: Text)
    requires buffer != [] && Parse(buffer).Complete?
    ensures var Complete(i, n) := Parse(buffer);
            After(out, Drain(buffer)) ==
            if |buffer[n..]| > MAX_MESSAGE then Drained(out + [i], buffer[n..], false)
            else After(out + [i], Drain(buffer[n..]))
  {
    var Complete(i, n) := Parse(buffer);
    if |buffer[n..]| <= MAX_MESSAGE {
      assert out + ([i] + Drain(buffer[n..]).out) == (out + [i]) + Drain(buffer[n..]).out;
    }
  }

  class InstructionParser {
    var buffer: Text

    constructor ()
      ensures buffer == []
    {
      buffer := [];
    }

    method Feed(data: Text) returns (r: FeedResult)
      modifies this
      ensures buffer == Drain(old(buffer) + data).rest
      ensures r == Result(Drain(old(buffer) + data))
    {
      buffer := buffer + data;
      ghost var whole := Drain(buffer);
      var out: seq<Instruction> := [];
      while buffer != []
        invariant whole == After(out, Drain(buffer))
        decreases |buffer|
      {
        var verdict := ParseInstruction(buffer);
        match verdict
        case Malformed => return FeedError;
        case Incomplete => break;
        case Complete(i, n) =>
          DrainStep(out, buffer);
          buffer := buffer[n..];
          out := out + [i];
          if |buffer| > MAX_MESSAGE {
            return FeedError;
          }
      }
      assert out + [] == out;
      return Fed(out);
    }
  }

  // ---------------------------------------------------------------------------
  //  Chunk independence
  // ---------------------------------------------------------------------------

  /** What a buffer looks like between two successful calls: it holds no complete instruction. */
  predicate Settled(buffer: Text) {
    buffer == [] || Parse(buffer).Incomplete?
  }

  lemma {:induction false} ParseAllSettles(stream: Text)
    ensures ParseAll(stream).ok ==> Settled(ParseAll(stream).rest)
    ensures |ParseAll(stream).rest| <= |stream|
    ensures ParseAll(stream).rest == stream[|stream| - |ParseAll(stream).rest|..]
    ensures !ParseAll(stream).ok ==> ParseAll(stream).rest != [] && Parse(ParseAll(stream).rest).Malformed?
    decreases |stream|
  {
    hide Parse;
    if stream != [] && Parse(stream).Complete? {
      ParseAllSettles(stream[Parse(stream).consumed..]);
    }
  }

  lemma ParseAllStep(stream: Text, i: Instruction, n: nat, more: Text)
    requires stream != [] && Parse(stream) == Complete(i, n) && stream[n..] == more
    ensures ParseAll(stream) == After([i], ParseAll(more))
  {
    hide Parse;
  }

  /** A parse of `first`, resumed with the bytes it left once `second` has arrived. */
  function Resumed(first: Text, second: Text): Drained {
    var p := ParseAll(first);
    if p.ok then After(p.out, ParseAll(p.rest + second)) else Drained(p.out, p.rest + second, false)
  }

  lemma ResumedStep(first: Text, second: Text, i: Instruction, n: nat, more: Text)
    requires first != [] && Parse(first) == Complete(i, n) && first[n..] == more
    ensures Resumed(first, second) == After([i], Resumed(more, second))
  {
    hide Parse;
    var p := ParseAll(more);
    ParseAllStep(first, i, n, more);
    if p.ok {
      AfterTwice([i], p.out, ParseAll(p.rest + second));
    }
  }

  lemma ParseAllStepExtended(first: Text, second: Text, i: Instruction, n: nat, more: Text)
    requires first != [] && Parse(first) == Complete(i, n) && first[n..] == more
    ensures ParseAll(first + second) == After([i], ParseAll(more + second))
  {
    hide Parse;
    VerdictStable(first, second);
    assert (first + second)[n..] == more + second;
    ParseAllStep(first + second, i, n, more + second);
  }

  /** Parsing may stop anywhere and resume with the bytes it left. */
  lemma {:induction false} ParseAllResumes(first: Text, second: Text)
    ensures ParseAll(first + second) == Resumed(first, second)
    decreases |first|
  {
    hide Parse;
    if first == [] {
      assert first + second == second;
    } else if Parse(first).Complete? {
      var Complete(i, n) := Parse(first);
      var more := first[n..];
      ResumedStep(first, second, i, n, more);
      ParseAllResumes(more, second);
      ParseAllStepExtended(first, second, i, n, more);
    } else {
      VerdictStable(first, second);
    }
  }

  lemma {:induction false} ShortDrain(buffer: Text)
    requires |buffer| <= MAX_MESSAGE
    ensures Drain(buffer) == ParseAll(buffer)
    decreases |buffer|
  {
    if buffer != [] && Parse(buffer).Complete? {
      ShortDrain(buffer[Parse(buffer).consumed..]);
    }
  }

  /**
   The size guard never fires: the buffer kept between calls holds no complete
   instruction, so the first one taken ends inside the new chunk.
   */
  lemma GuardUnreachable(held: Text, chunk: Text)
    requires Settled(held) && |chunk| <= MAX_MESSAGE
    ensures Drain(held + chunk) == ParseAll(held + chunk)
  {
    hide Parse;
    var data := held + chunk;
    if data != [] && Parse(data).Complete? {
      CompleteInside(held, chunk);
      ShortDrain(data[Parse(data).consumed..]);
    }
  }

  /** An instruction that ends inside the first part is already complete there. */
  lemma CompleteInside(first: Text, second: Text)
    requires first + second != [] && Parse(first + second).Complete?
    ensures Parse(first + second).consumed <= |first| ==> first != [] && Parse(first) == Parse(first + second)
  {
    hide Parse;
    var data := first + second;
    var n := Parse(data).consumed;
    if n <= |first| {
      VerdictStable(data, []);
      VerdictStable(data[..n], first[n..]);
      assert data[..n] + first[n..] == first;
    }
  }

  /** A guard that is needed for larger chunks only: there it does fire. */
  lemma GuardFiresOnLargeChunk(i: Instruction, tail: Text)
    requires Encodable(i) && |tail| > MAX_MESSAGE
    ensures !Drain(Encode(i) + tail).ok
  {
    EncodeParseRoundTrip(i, tail);
    assert (Encode(i) + tail)[|Encode(i)|..] == tail;
  }

  function Concat(chunks: seq<Text>): Text {
    if chunks == [] then [] else chunks[0] + Concat(chunks[1..])
  }

  /** A parser fed chunk by chunk until a call fails; a failing call hands out nothing. */
  function FeedAll(held: Text, chunks: seq<Text>): Drained
    decreases |chunks|
  {
    if chunks == [] then Drained([], held, true)
    else
      var d := Drain(held + chunks[0]);
      if !d.ok then Drained([], d.rest, false)
      else After(d.out, FeedAll(d.rest, chunks[1..]))
  }

  predicate ChunksFit(chunks: seq<Text>) {
    forall j :: 0 <= j < |chunks| ==> |chunks[j]| <= MAX_MESSAGE
  }

  lemma {:induction false} FeedAllFrom(held: Text, chunks: seq<Text>)
    requires Settled(held) && ChunksFit(chunks)
    ensures var fed, whole := FeedAll(held, chunks), ParseAll(held + Concat(chunks));
            && fed.ok == whole.ok
            && (whole.ok ==> fed == whole)
            && fed.out <= whole.out
    decreases |chunks|
  {
    hide Parse;
    if chunks == [] {
      assert held + Concat(chunks) == held;
    } else {
      var head, tail := held + chunks[0], Concat(chunks[1..]);
      assert held + Concat(chunks) == head + tail;
      GuardUnreachable(held, chunks[0]);
      ParseAllResumes(head, tail);
      if ParseAll(head).ok {
        ParseAllSettles(head);
        FeedAllFrom(ParseAll(head).rest, chunks[1..]);
      }
    }
  }

  /**
   Chunk independence: over any cutting of a stream into chunks within the limit,
   the parser fails iff one parse of the whole stream does, and otherwise hands out
   the same instructions in the same order and is left with the same buffer.  When it
   fails, what it handed out before is a prefix of what the whole parse finds.
   */
  lemma ChunkIndependence(chunks: seq<Text>)
    requires ChunksFit(chunks)
    ensures FeedAll([], chunks).ok == ParseAll(Concat(chunks)).ok
    ensures ParseAll(Concat(chunks)).ok ==> FeedAll([], chunks) == ParseAll(Concat(chunks))
    ensures FeedAll([], chunks).out <= ParseAll(Concat(chunks)).out
  {
    FeedAllFrom([], chunks);
    assert [] + Concat(chunks) == Concat(chunks);
  }

  // ---------------------------------------------------------------------------
  //  Encoded streams
  // ---------------------------------------------------------------------------

  function EncodeAll(instructions: seq<Instruction>): Text {
    if instructions == [] then []
    else Encode(instructions[0]) + EncodeAll(instructions[1..])
  }

  predicate AllEncodable(instructions: seq<Instruction>) {
    forall j :: 0 <= j < |instructions| ==> Encodable(instructions[j])
  }

  lemma {:induction false} EncodeAllAppend(a: seq<Instruction>, i: Instruction)
    ensures EncodeAll(a + [i]) == EncodeAll(a) + Encode(i)
  {
    if a == [] {
      assert a + [i] == [i];
      assert EncodeAll([i]) == Encode(i) + EncodeAll([]);
    } else {
      EncodeAllAppend(a[1..], i);
      assert (a + [i])[1..] == a[1..] + [i];
      assert (a + [i])[0] == a[0];
    }
  }

  /** A written stream reads back as exactly the instructions written iff each of them is encodable. */
  lemma {:induction false} EncodedStreamReadsBack(instructions: seq<Instruction>)
    ensures ParseAll(EncodeAll(instructions)) == Drained(instructions, [], true) <==> AllEncodable(instructions)
  {
    hide Parse;
    if instructions != [] {
      var i, more := instructions[0], instructions[1..];
      EncodedStreamReadsBack(more);
      EncodeParseRoundTrip(i, EncodeAll(more));
      assert (Encode(i) + EncodeAll(more))[|Encode(i)|..] == EncodeAll(more);
      assert instructions == [i] + more;
    }
  }
}
