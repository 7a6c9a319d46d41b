/**
 Field lengths in characters, as the Guacamole manual counts them (chapter "The Guacamole
 protocol", section "Design"), against lengths in bytes, as the gateway counts them.
 */
module GuacCharacters {
  import opened Decimal
  import opened GuacWire

  // ---------------------------------------------------------------------------
  //  UTF-8
  // ---------------------------------------------------------------------------

  /** Bytes of a character by its first byte (section 4 of RFC 3629); 0 when no character starts so. */
  function Width(lead: byte): nat {
    if lead < 0x80 then 1
    else if 0xC2 <= lead <= 0xDF then 2
    else if 0xE0 <= lead <= 0xEF then 3
    else if 0xF0 <= lead <= 0xF4 then 4
    else 0
  }

  /** The second byte of a longer character excludes overlong forms, surrogates and what is out of range. */
  predicate IsSecond(lead: byte, b: byte) {
    && (if lead == 0xE0 then 0xA0 else if lead == 0xF0 then 0x90 else 0x80) <= b
    && b <= (if lead == 0xED then 0x9F else if lead == 0xF4 then 0x8F else 0xBF)
  }

  predicate StartsCharacter(s: Text) {
    && s != []
    && 0 < Width(s[0]) <= |s|
    && (Width(s[0]) > 1 ==> IsSecond(s[0], s[1]))
    && forall i :: 2 <= i < Width(s[0]) ==> 0x80 <= s[i] <= 0xBF
  }

  predicate IsUtf8(s: Text)
    decreases |s|
  {
    s == [] || (StartsCharacter(s) && IsUtf8(s[Width(s[0])..]))
  }

  function Characters(s: Text): nat
    requires IsUtf8(s)
    decreases |s|
  {
    if s == [] then 0 else 1 + Characters(s[Width(s[0])..])
  }

  predicate IsAscii(s: Text) {
    forall i :: 0 <= i < |s| ==> s[i] < 0x80
  }

  /** A text has as many characters as bytes exactly when it is ASCII. */
  lemma {:induction false} AsciiExactly(s: Text)
    requires IsUtf8(s)
    ensures Characters(s) <= |s|
    ensures Characters(s) == |s| <==> IsAscii(s)
    decreases |s|
  {
    if s != [] {
      var w := Width(s[0]);
      AsciiExactly(s[w..]);
      assert forall i :: 0 <= i < |s| - w ==> s[w..][i] == s[w + i];
      if w == 1 {
        assert forall i :: 1 <= i < |s| ==> s[i] == s[1..][i - 1];
      }
    }
  }

  // ---------------------------------------------------------------------------
  //  The manual's form
  // ---------------------------------------------------------------------------

  predicate AllUtf8(fields: seq<Text>) {
    forall j :: 0 <= j < |fields| ==> IsUtf8(fields[j])
  }

  function ManualField(field: Text): Text
    requires IsUtf8(field)
  {
    NatToText(Characters(field)) + [DOT] + field
  }

  function ManualFields(fields: seq<Text>): Text
    requires fields != [] && AllUtf8(fields)
  {
    ManualField(fields[0]) +
    if |fields| == 1 then [SEMICOLON] else [COMMA] + ManualFields(fields[1..])
  }

  /** A number ends at the dot behind it. */
  lemma NumberEnds(d: Text, a: Text, e: Text, b: Text)
    requires Digits(d, |d|) && Digits(e, |e|) && d + [DOT] + a == e + [DOT] + b
    ensures d == e && a == b
  {
    var s, t := d + [DOT] + a, e + [DOT] + b;
    assert s[|d|] == DOT && t[|e|] == DOT;
    assert forall i :: 0 <= i < |d| ==> s[i] == d[i] && IsDigit(s[i]);
    assert forall i :: 0 <= i < |e| ==> t[i] == e[i] && IsDigit(t[i]);
    assert |d| == |e|;
    assert s[..|d|] == d && t[..|e|] == e && s[|d| + 1..] == a && t[|e| + 1..] == b;
  }

  /** Two forms of a field, with whatever behind them, agree exactly when lengths and the rest do. */
  lemma FieldForms(n: nat, m: nat, field: Text, a: Text, b: Text)
    ensures NatToText(n) + [DOT] + field + a == NatToText(m) + [DOT] + field + b <==> n == m && a == b
  {
    hide NatToText, Value;
    var d, e := NatToText(n), NatToText(m);
    assert d + [DOT] + field + a == d + [DOT] + (field + a);
    assert e + [DOT] + field + b == e + [DOT] + (field + b);
    if d + [DOT] + (field + a) == e + [DOT] + (field + b) {
      NumberEnds(d, field + a, e, field + b);
      assert (field + a)[|field|..] == a && (field + b)[|field|..] == b;
    }
  }

  lemma {:induction false} FormsAgree(fields: seq<Text>)
    requires fields != [] && AllUtf8(fields)
    ensures EncodeFields(fields) == ManualFields(fields) <==> forall j :: 0 <= j < |fields| ==> IsAscii(fields[j])
    decreases |fields|
  {
    hide NatToText, IsAscii, Characters, IsUtf8;
    var f, rest := fields[0], fields[1..];
    assert IsUtf8(f);
    AsciiExactly(f);
    if |fields| == 1 {
      FieldForms(|f|, Characters(f), f, [SEMICOLON], [SEMICOLON]);
    } else {
      assert forall j :: 0 <= j < |rest| ==> rest[j] == fields[j + 1];
      FormsAgree(rest);
      var a, b: Text := [COMMA] + EncodeFields(rest), [COMMA] + ManualFields(rest);
      FieldForms(|f|, Characters(f), f, a, b);
      assert a[1..] == EncodeFields(rest) && b[1..] == ManualFields(rest);
      assert forall j :: 1 <= j < |fields| ==> fields[j] == rest[j - 1];
    }
  }

  /** For valid text the gateway writes the manual's form exactly when every field is ASCII. */
  lemma ManualFormExactly(i: Instruction)
    requires AllUtf8([i.opcode] + i.args)
    ensures Encode(i) == ManualFields([i.opcode] + i.args) <==> forall j :: 0 <= j < 1 + |i.args| ==> IsAscii(([i.opcode] + i.args)[j])
  {
    FormsAgree([i.opcode] + i.args);
  }
}
