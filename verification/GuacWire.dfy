/**
 The Guacamole wire form: the instruction grammar, the
 instruction parser and the instruction encoder.  Everything is counted in bytes.
 */
module GuacWire {

  import opened Decimal

  const MAX_MESSAGE: nat := 16777216
  const DOT: byte := 46
  const COMMA: byte := 44
  const SEMICOLON: byte := 59

  datatype Instruction = Instruction(opcode: Text, args: seq<Text>)

  /** What the parser says about the bytes at the front of its buffer. */
  datatype Verdict = Complete(instruction: Instruction, consumed: nat) | Incomplete | Malformed

  /** A slice that stays inside a prefix is a slice of the whole. */
  lemma SliceOfPrefix(data: Text, n: nat, a: nat, b: nat)
    requires a <= b <= n <= |data|
    ensures data[..n][a..b] == data[a..b]
  {
  }

  // ---------------------------------------------------------------------------
  //  The grammar: which bytes are a wire form of which fields
  // ---------------------------------------------------------------------------

  /** The first `k` bytes are a length prefix for a field of `n` bytes. */
  predicate IsLength(w: Text, k: nat, n: nat) {
    0 < k && Digits(w, k) && Value(w, k) == n <= MAX_MESSAGE
  }

  /** `w` spells `fields`: length, dot, bytes, comma, ..., length, dot, bytes, semicolon. */
  ghost predicate IsWire(w: Text, fields: seq<Text>)
    decreases |fields|
  {
    fields != [] && exists k: nat :: IsWireAt(w, fields, k)
  }

  /** `IsWire` with the dot of the first field at offset `k`. */
  ghost predicate IsWireAt(w: Text, fields: seq<Text>, k: nat)
    requires fields != []
    decreases |fields|, 0
  {
    var end := k + 1 + |fields[0]|;
    && end < |w|
    && IsLength(w, k, |fields[0]|) && w[k] == DOT && w[k + 1..end] == fields[0]
    && if |fields| == 1 then w[end..] == [SEMICOLON]
       else w[end] == COMMA && IsWire(w[end + 1..], fields[1..])
  }

  /**
   `w` starts a wire form that is not finished: fields with a comma behind each, and then nothing,
   or digits only, or a length within the limit, a dot and no more bytes than that length.
   */
  ghost predicate IsUnfinished(w: Text)
    decreases |w|, 1
  {
    w != [] && (Digits(w, |w|) || exists k: nat, n: nat :: IsUnfinishedAt(w, k, n))
  }

  /** `IsUnfinished` with the dot of the first field at offset `k` and a length of `n` in front of it. */
  ghost predicate IsUnfinishedAt(w: Text, k: nat, n: nat)
    decreases |w|, 0
  {
    && k < |w| && IsLength(w, k, n) && w[k] == DOT
    && (|w| <= k + 1 + n || (w[k + 1 + n] == COMMA && (|w| == k + 2 + n || IsUnfinished(w[k + 2 + n..]))))
  }

  // ---------------------------------------------------------------------------
  //  The parser
  // ---------------------------------------------------------------------------

  /** One field: its bytes and the offset of the separator behind it. */
  datatype Scan = Field(text: Text, end: nat) | Cut | Broken

  function ScanField(data: Text): (s: Scan)
    ensures s.Field? ==> s.end < |data| && |s.text| < s.end && data[s.end - |s.text|..s.end] == s.text
    ensures s.Field? ==> |s.text| <= MAX_MESSAGE
    ensures data == [] ==> s.Broken?
  {
    var k := DigitRun(data);
    if k == 0 then Broken
    else if k == |data| then Cut
    else if data[k] != DOT then Broken
    else
      var length := Value(data, k);
      if length < 0 || length > MAX_MESSAGE then Broken
      else if k + 1 + length >= |data| then Cut
      else Field(data[k + 1..k + 1 + length], k + 1 + length)
  }

  datatype FieldsVerdict = Got(fields: seq<Text>, used: nat) | More | Bad

  /** The parser started at a field boundary: all fields up to the semicolon. */
  function ParseFields(data: Text): (v: FieldsVerdict)
    ensures v.Got? ==> 0 < v.used <= |data| && v.fields != []
    decreases |data|
  {
    if data == [] then More
    else
      match ScanField(data)
      case Cut => More
      case Broken => Bad
      case Field(text, end) =>
        if data[end] == COMMA then Prepend([text], end + 1, ParseFields(data[end + 1..]))
        else if data[end] == SEMICOLON then Got([text], end + 1)
        else Bad
  }

  function Prepend(fields: seq<Text>, index: nat, v: FieldsVerdict): FieldsVerdict {
    match v
    case Got(rest, used) => Got(fields + rest, index + used)
    case More => More
    case Bad => Bad
  }

  /** The verdict on a whole buffer: empty buffers and empty opcodes are malformed. */
  function Parse(data: Text): (v: Verdict)
    ensures v.Complete? ==> 0 < v.consumed <= |data|
  {
    if data == [] then Malformed
    else
      match ParseFields(data)
      case More => Incomplete
      case Bad => Malformed
      case Got(fields, used) =>
        if fields[0] == [] then Malformed else Complete(Instruction(fields[0], fields[1..]), used)
  }

  /** The digit loop and the field slice of the parser, at one index of the buffer. */
  method ReadField(data: Text, index: nat) returns (s: Scan)
    requires index <= |data|
    ensures s == ScanField(data[index..])
  {
    ghost var here := data[index..];
    var dot := index;
    while dot < |data| && 48 <= data[dot] <= 57
      invariant index <= dot <= |data|
      invariant forall i :: index <= i < dot ==> IsDigit(data[i])
    {
      dot := dot + 1;
    }
    assert Digits(here, dot - index) && DigitRun(here) == dot - index;
    if dot == index {
      return Broken;
    }
    if dot >= |data| {
      return Cut;
    }
    if data[dot] != DOT {
      return Broken;
    }
    var length := Value(data[index..dot], dot - index);
    assert here[..dot - index] == data[index..dot] == data[index..dot][..dot - index];
    ValueAgrees(data[index..dot], here, dot - index);
    if length < 0 || length > MAX_MESSAGE {
      return Broken;
    }
    var start := dot + 1;
    var end := start + length;
    if end >= |data| {
      return Cut;
    }
    assert here[dot - index + 1..end - index] == data[start..end];
    return Field(data[start..end], end - index);
  }

  /** The parser as the gateway runs it: an index moving over the buffer, field by field. */
  method ParseInstruction(data: Text) returns (v: Verdict)
    ensures v == Parse(data)
  {
    hide ScanField;
    var fields: seq<Text> := [];
    var index := 0;
    while true
      invariant 0 <= index <= |data|
      invariant index == |data| ==> data == []
      invariant ParseFields(data) == Prepend(fields, index, ParseFields(data[index..]))
      decreases |data| - index
    {
      var scan := ReadField(data, index);
      match scan
      case Broken => return Malformed;
      case Cut => return Incomplete;
      case Field(text, offset) =>
        var end := index + offset;
        assert data[index..][offset] == data[end];
        assert data[index..][offset + 1..] == data[end + 1..];
        ParseStep(data[index..], text, offset, data[end + 1..]);
        if data[end] == COMMA {
          PrependTwice(fields, index, text, offset + 1, ParseFields(data[end + 1..]));
          fields, index := fields + [text], end + 1;
        } else if data[end] == SEMICOLON {
          fields := fields + [text];
          if |fields| == 0 || fields[0] == [] {
            return Malformed;
          }
          return Complete(Instruction(fields[0], fields[1..]), end + 1);
        } else {
          return Malformed;
        }
        if index >= |data| {
          return Incomplete;
        }
    }
  }

  /** One step of `ParseFields` behind a scanned field. */
  lemma ParseStep(data: Text, text: Text, end: nat, after: Text)
    requires end < |data| && ScanField(data) == Field(text, end) && data[end + 1..] == after
    ensures data[end] == COMMA ==> ParseFields(data) == Prepend([text], end + 1, ParseFields(after))
    ensures data[end] == SEMICOLON ==> ParseFields(data) == Got([text], end + 1)
    ensures data[end] != COMMA && data[end] != SEMICOLON ==> ParseFields(data) == Bad
  {
    hide ScanField;
  }

  lemma PrependTail(text: Text, offset: nat, v: FieldsVerdict)
    requires v.Got?
    ensures Prepend([text], offset, v).fields[1..] == v.fields
  {
  }

  lemma PrependTwice(before: seq<Text>, index: nat, text: Text, offset: nat, v: FieldsVerdict)
    ensures Prepend(before, index, Prepend([text], offset, v)) == Prepend(before + [text], index + offset, v)
  {
    if v.Got? {
      assert before + ([text] + v.fields) == (before + [text]) + v.fields;
    }
  }

  // ---------------------------------------------------------------------------
  //  Parser and grammar agree
  // ---------------------------------------------------------------------------

  /** What the scanner makes of a digit string of `k` bytes, a dot, `n` bytes and something behind them. */
  lemma ScanAt(data: Text, k: nat, n: nat)
    requires 0 < k && k + 1 + n < |data|
    requires Digits(data, k) && data[k] == DOT && Value(data, k) == n
    ensures ScanField(data) == if n <= MAX_MESSAGE then Field(data[k + 1..k + 1 + n], k + 1 + n) else Broken
  {
    assert DigitRun(data) == k;
  }

  /** A scanned field depends only on the bytes up to and including its separator. */
  lemma ScanStable(data: Text, other: Text)
    requires ScanField(data).Field?
    requires ScanField(data).end < |other|
    requires other[..ScanField(data).end + 1] == data[..ScanField(data).end + 1]
    ensures ScanField(other) == ScanField(data) && other[ScanField(data).end] == data[ScanField(data).end]
  {
    var end := ScanField(data).end;
    var k := DigitRun(data);
    assert forall i :: 0 <= i <= end ==> other[i] == other[..end + 1][i] == data[..end + 1][i] == data[i];
    assert other[..k] == data[..k] && other[k + 1..end] == data[k + 1..end];
    ValueAgrees(data, other, k);
    ScanAt(other, k, end - k - 1);
  }

  /** Where the parts of a scanned field lie. */
  lemma ScanShape(data: Text) returns (k: nat)
    requires ScanField(data).Field?
    ensures IsLength(data, k, |ScanField(data).text|) && data[k] == DOT
    ensures ScanField(data).end == k + 1 + |ScanField(data).text|
  {
    k := DigitRun(data);
  }

  /** A scanned field with a good tail is a wire form. */
  lemma HeadIsWire(data: Text, fields: seq<Text>, used: nat)
    requires ScanField(data).Field? && fields != [] && fields[0] == ScanField(data).text
    requires ScanField(data).end < used <= |data|
    requires var end := ScanField(data).end;
             if |fields| == 1 then data[end] == SEMICOLON && used == end + 1
             else data[end] == COMMA && IsWire(data[end + 1..used], fields[1..])
    ensures IsWire(data[..used], fields)
  {
    hide ScanField, IsWire, Value;
    var end, w := ScanField(data).end, data[..used];
    var k := ScanShape(data);
    SliceOfPrefix(data, used, 0, k);
    ValueAgrees(data, w, k);
    SliceOfPrefix(data, used, k + 1, end);
    SliceOfPrefix(data, used, end + 1, used);
    WireIntro(w, fields, k);
  }

  lemma WireIntro(w: Text, fields: seq<Text>, k: nat)
    requires fields != [] && IsWireAt(w, fields, k)
    ensures IsWire(w, fields)
  {
  }

  /** The scanner finds the first field of a wire form. */
  lemma WireHead(data: Text, n: nat, fields: seq<Text>) returns (end: nat)
    requires n <= |data| && IsWire(data[..n], fields)
    ensures fields != [] && end < n && ScanField(data) == Field(fields[0], end)
    ensures if |fields| == 1 then data[end] == SEMICOLON && n == end + 1
            else data[end] == COMMA && IsWire(data[end + 1..n], fields[1..])
  {
    var w := data[..n];
    var k: nat :| IsWireAt(w, fields, k);
    end := k + 1 + |fields[0]|;
    SliceOfPrefix(data, n, 0, k);
    ValueAgrees(data, w, k);
    SliceOfPrefix(data, n, k + 1, end);
    SliceOfPrefix(data, n, end + 1, n);
    assert |fields| == 1 ==> |w[end..]| == 1 && w[end..][0] == w[end];
    ScanAt(data, k, |fields[0]|);
  }

  lemma {:induction false} ParsedIsWire(data: Text)
    requires ParseFields(data).Got?
    ensures IsWire(data[..ParseFields(data).used], ParseFields(data).fields)
    decreases |data|
  {
    hide ScanField, IsWire;
    var Got(fields, used) := ParseFields(data);
    var Field(text, end) := ScanField(data);
    var after := data[end + 1..];
    ParseStep(data, text, end, after);
    if data[end] == COMMA {
      ParsedIsWire(after);
      assert data[end + 1..used] == after[..used - end - 1];
      PrependTail(text, end + 1, ParseFields(after));
    }
    HeadIsWire(data, fields, used);
  }

  lemma {:induction false} WireParses(data: Text, n: nat, fields: seq<Text>)
    requires n <= |data| && IsWire(data[..n], fields)
    ensures ParseFields(data) == Got(fields, n)
    decreases |fields|
  {
    hide ScanField, IsWire;
    var end := WireHead(data, n, fields);
    var after := data[end + 1..];
    ParseStep(data, fields[0], end, after);
    if |fields| == 1 {
      assert fields == [fields[0]];
    } else {
      assert after[..n - end - 1] == data[end + 1..n];
      WireParses(after, n - end - 1, fields[1..]);
      assert fields == [fields[0]] + fields[1..];
    }
  }

  /**
   The parser accepts exactly the grammar: it completes with `i` after `n` bytes
   iff the first `n` bytes are a wire form of `i` and the opcode is not empty.
   */
  lemma ParseIffWire(data: Text, i: Instruction, n: nat)
    ensures Parse(data) == Complete(i, n) <==>
            n <= |data| && i.opcode != [] && IsWire(data[..n], [i.opcode] + i.args)
  {
    var fields := [i.opcode] + i.args;
    assert fields[1..] == i.args;
    if Parse(data) == Complete(i, n) {
      ParsedIsWire(data);
      assert ParseFields(data).fields == fields;
    }
    if n <= |data| && i.opcode != [] && IsWire(data[..n], fields) {
      WireParses(data, n, fields);
    }
  }

  /** What the scanner makes of the beginning of a field. */
  lemma ScanCut(data: Text)
    requires data != []
    ensures ScanField(data).Cut? <==>
            Digits(data, |data|) || exists k: nat, n: nat :: k < |data| && IsLength(data, k, n) && data[k] == DOT && |data| <= k + 1 + n
  {
    var k := DigitRun(data);
    if ScanField(data).Cut? {
      if k < |data| {
        assert IsLength(data, k, Value(data, k));
      }
    }
    if Digits(data, |data|) {
      assert k == |data|;
    }
    if i: nat, n: nat :| i < |data| && IsLength(data, i, n) && data[i] == DOT && |data| <= i + 1 + n {
      assert k == i;
    }
  }

  lemma UnfinishedIntro(data: Text, k: nat, n: nat)
    requires data != [] && IsUnfinishedAt(data, k, n)
    ensures IsUnfinished(data)
  {
  }

  lemma {:induction false} MoreIsUnfinished(data: Text)
    requires data != [] && ParseFields(data).More?
    ensures IsUnfinished(data)
    decreases |data|
  {
    hide ScanField, Value;
    if ScanField(data).Cut? {
      ScanCut(data);
      if !Digits(data, |data|) {
        var k: nat, n: nat :| k < |data| && IsLength(data, k, n) && data[k] == DOT && |data| <= k + 1 + n;
        UnfinishedIntro(data, k, n);
      }
    } else {
      var Field(text, end) := ScanField(data);
      var after := data[end + 1..];
      ParseStep(data, text, end, after);
      var k := ScanShape(data);
      if after != [] {
        MoreIsUnfinished(after);
      }
      UnfinishedIntro(data, k, |text|);
    }
  }

  lemma {:induction false} UnfinishedIsMore(data: Text)
    requires IsUnfinished(data)
    ensures ParseFields(data).More?
    decreases |data|
  {
    hide ScanField, Value;
    ScanCut(data);
    if !ScanField(data).Cut? {
      var k: nat, n: nat :| IsUnfinishedAt(data, k, n);
      ScanAt(data, k, n);
      var end := k + 1 + n;
      var after := data[end + 1..];
      ParseStep(data, data[k + 1..end], end, after);
      if after != [] {
        UnfinishedIsMore(after);
      }
    }
  }

  /**
   The other two verdicts: a buffer is incomplete iff it is an unfinished form, and malformed iff
   it is neither that nor starts with a wire form of an instruction with an opcode.
   */
  lemma IncompleteIffUnfinished(data: Text)
    ensures Parse(data).Incomplete? <==> IsUnfinished(data)
    ensures Parse(data).Malformed? <==>
            !IsUnfinished(data) && forall i: Instruction, n: nat :: n <= |data| && i.opcode != [] ==> !IsWire(data[..n], [i.opcode] + i.args)
  {
    hide ParseFields, IsWire, IsUnfinished;
    if data != [] && ParseFields(data).More? {
      MoreIsUnfinished(data);
    }
    if IsUnfinished(data) {
      NotEmpty(data);
      UnfinishedIsMore(data);
    }
    forall i: Instruction, n: nat ensures Parse(data) == Complete(i, n) <==> n <= |data| && i.opcode != [] && IsWire(data[..n], [i.opcode] + i.args) {
      ParseIffWire(data, i, n);
    }
  }

  lemma NotEmpty(w: Text)
    requires IsUnfinished(w)
    ensures w != []
  {
  }

  lemma {:induction false} BadStable(data: Text, ext: Text)
    requires data != [] && ParseFields(data).Bad?
    ensures ParseFields(data + ext).Bad?
    decreases |data|
  {
    hide ScanField;
    if ScanField(data).Broken? {
      BrokenStable(data, ext);
    } else {
      var Field(text, end) := ScanField(data);
      var after := data[end + 1..];
      ScanExtends(data, ext);
      ParseStep(data, text, end, after);
      ParseStep(data + ext, text, end, after + ext);
      if data[end] == COMMA {
        BadStable(after, ext);
      }
    }
  }

  /** A scanned field stays as it is when bytes are appended. */
  lemma ScanExtends(data: Text, ext: Text)
    requires ScanField(data).Field?
    ensures ScanField(data + ext) == ScanField(data)
    ensures (data + ext)[ScanField(data).end] == data[ScanField(data).end]
    ensures (data + ext)[ScanField(data).end + 1..] == data[ScanField(data).end + 1..] + ext
  {
    var end := ScanField(data).end;
    assert (data + ext)[..end + 1] == data[..end + 1];
    ScanStable(data, data + ext);
  }

  /** A broken field stays broken whatever follows. */
  lemma BrokenStable(data: Text, ext: Text)
    requires data != [] && ScanField(data).Broken?
    ensures ScanField(data + ext).Broken?
  {
    var k := DigitRun(data);
    var whole := data + ext;
    assert forall i :: 0 <= i < |data| ==> whole[i] == data[i];
    assert DigitRun(whole) == k;
    assert whole[..k] == data[..k];
    ValueAgrees(data, whole, k);
  }

  lemma GotStable(data: Text, ext: Text)
    requires ParseFields(data).Got?
    ensures ParseFields(data + ext) == ParseFields(data)
    ensures ParseFields(data[..ParseFields(data).used]) == ParseFields(data)
  {
    var Got(fields, used) := ParseFields(data);
    ParsedIsWire(data);
    assert (data + ext)[..used] == data[..used] == data[..used][..used];
    WireParses(data + ext, used, fields);
    WireParses(data[..used], used, fields);
  }

  /**
   Prefix stability: a complete or malformed verdict on non-empty data is final,
   and a complete verdict was already reached on the consumed bytes alone.
   */
  lemma VerdictStable(data: Text, ext: Text)
    requires data != []
    ensures !Parse(data).Incomplete? ==> Parse(data + ext) == Parse(data)
    ensures Parse(data).Complete? ==> Parse(data[..Parse(data).consumed]) == Parse(data)
  {
    if ParseFields(data).Got? {
      GotStable(data, ext);
    } else if ParseFields(data).Bad? {
      BadStable(data, ext);
    }
  }

  // ---------------------------------------------------------------------------
  //  The encoder
  // ---------------------------------------------------------------------------

  function EncodeField(field: Text): Text {
    NatToText(|field|) + [DOT] + field
  }

  /** Fields joined by commas, then the semicolon. */
  function EncodeFields(fields: seq<Text>): Text
    requires fields != []
  {
    EncodeField(fields[0]) +
    if |fields| == 1 then [SEMICOLON] else [COMMA] + EncodeFields(fields[1..])
  }

  function Encode(i: Instruction): Text {
    EncodeFields([i.opcode] + i.args)
  }

  /** The part of the encoding that is still missing once `index` fields are written. */
  function Missing(fields: seq<Text>, index: nat): Text
    requires fields != [] && index <= |fields|
  {
    if index == |fields| then [SEMICOLON]
    else if index == 0 then EncodeFields(fields)
    else [COMMA] + EncodeFields(fields[index..])
  }

  /** The encoder as the gateway runs it: a builder filled field by field. */
  method EncodeInstruction(i: Instruction) returns (wire: Text)
    ensures wire == Encode(i)
  {
    var fields := [i.opcode] + i.args;
    var builder: Text := [];
    for index := 0 to |fields|
      invariant builder + Missing(fields, index) == Encode(i)
    {
      MissingStep(fields, index);
      Regroup(builder, if index > 0 then [COMMA] else [], NatToText(|fields[index]|), fields[index], Missing(fields, index + 1));
      if index > 0 {
        builder := builder + [COMMA];
      }
      builder := builder + NatToText(|fields[index]|);
      builder := builder + [DOT];
      builder := builder + fields[index];
    }
    wire := builder + [SEMICOLON];
  }

  lemma Regroup(built: Text, sep: Text, digits: Text, field: Text, more: Text)
    ensures built + (sep + (digits + [DOT] + field) + more) == (built + sep + digits + [DOT] + field) + more
    ensures built + [] == built
  {
  }

  lemma MissingStep(fields: seq<Text>, index: nat)
    requires index < |fields|
    ensures Missing(fields, index) ==
            (if index > 0 then [COMMA] else []) + EncodeField(fields[index]) + Missing(fields, index + 1)
  {
    assert fields[index..][1..] == fields[index + 1..];
    assert fields[0..] == fields;
  }

  predicate Fits(fields: seq<Text>) {
    forall j :: 0 <= j < |fields| ==> |fields[j]| <= MAX_MESSAGE
  }

  /** An instruction the parser can give back. */
  predicate Encodable(i: Instruction) {
    i.opcode != [] && Fits([i.opcode] + i.args)
  }

  /** The first field of an encoding, and where what follows it starts. */
  lemma EncodedHead(field: Text, after: Text)
    requires after != []
    ensures ScanField(EncodeField(field) + after) ==
            if |field| <= MAX_MESSAGE then Field(field, |EncodeField(field)|) else Broken
  {
    var d := NatToText(|field|);
    var data := d + [DOT] + field + after;
    assert data[..|d|] == d == d[..|d|];
    ValueAgrees(data, d, |d|);
    assert data[|d| + 1..|d| + 1 + |field|] == field;
    ScanAt(data, |d|, |field|);
  }

  lemma {:induction false} EncodedFields(fields: seq<Text>, rest: Text)
    requires fields != []
    ensures ParseFields(EncodeFields(fields) + rest) ==
            if Fits(fields) then Got(fields, |EncodeFields(fields)|) else Bad
    decreases |fields|
  {
    hide ScanField;
    var e := EncodeField(fields[0]);
    FitsSplit(fields);
    if |fields| == 1 {
      assert EncodeFields(fields) + rest == e + ([SEMICOLON] + rest);
      EncodedStep(fields[0], SEMICOLON, rest);
      assert fields == [fields[0]];
    } else {
      var after := EncodeFields(fields[1..]) + rest;
      assert EncodeFields(fields) + rest == e + ([COMMA] + after);
      EncodedStep(fields[0], COMMA, after);
      EncodedFields(fields[1..], rest);
      assert fields == [fields[0]] + fields[1..];
    }
  }

  lemma EncodedStep(field: Text, sep: byte, after: Text)
    requires sep == COMMA || sep == SEMICOLON
    ensures ParseFields(EncodeField(field) + ([sep] + after)) ==
            if |field| > MAX_MESSAGE then Bad
            else if sep == COMMA then Prepend([field], |EncodeField(field)| + 1, ParseFields(after))
            else Got([field], |EncodeField(field)| + 1)
  {
    hide ScanField;
    var e := EncodeField(field);
    var data := e + ([sep] + after);
    EncodedHead(field, [sep] + after);
    assert data[|e|] == sep && data[|e| + 1..] == after;
    if |field| <= MAX_MESSAGE {
      ParseStep(data, field, |e|, after);
    }
  }

  /** Every parsed field is within the limit. */
  lemma {:induction false} ParsedFits(data: Text)
    requires ParseFields(data).Got?
    ensures Fits(ParseFields(data).fields)
    decreases |data|
  {
    hide ScanField;
    var Field(text, end) := ScanField(data);
    var after := data[end + 1..];
    ParseStep(data, text, end, after);
    if data[end] == COMMA {
      ParsedFits(after);
    }
  }

  lemma FitsSplit(fields: seq<Text>)
    requires fields != []
    ensures Fits(fields) <==> |fields[0]| <= MAX_MESSAGE && Fits(fields[1..])
  {
    assert fields == [fields[0]] + fields[1..];
  }

  /**
   Round trip, in every case: behind any encoded instruction, whatever follows, the
   parser returns that instruction and its exact length iff its opcode is not empty
   and no field is over the limit; otherwise it refuses.
   */
  lemma EncodeParseRoundTrip(i: Instruction, rest: Text)
    ensures Parse(Encode(i) + rest) ==
            if Encodable(i) then Complete(i, |Encode(i)|) else Malformed
  {
    var fields := [i.opcode] + i.args;
    EncodedFields(fields, rest);
    assert fields[1..] == i.args;
  }
}
