/**
 The browser/guacd bridge: the connect rewrite, and the two pumps as a state
 machine over their atomic steps, so that every interleaving is a sequence of events.
 */
module GuacBridge {
  import opened Options
  import opened Decimal
  import opened GuacWire
  import opened GuacStream

  function Ascii(s: string): Text {
    seq(|s|, i requires 0 <= i < |s| => (s[i] as int) % 256)
  }

  const SELECT := Ascii("select")
  const CONNECT := Ascii("connect")
  const ARGS := Ascii("args")

  // ---------------------------------------------------------------------------
  //  The connect rewrite
  // ---------------------------------------------------------------------------

  datatype Target = Target(protocol: Text, host: Text, port: int, username: Text)

  datatype Slot = HostSlot | PortSlot | UserSlot | PasswordSlot | CertSlot | OtherSlot

  /**
   Lower case of UTF-8 text as far as an ASCII keyword can tell: ASCII capitals, and
   the two other characters whose lower case is ASCII (U+0130 to i, U+212A to k).
   */
  function Lower(name: Text): Text
    decreases |name|
  {
    if name == [] then []
    else if 65 <= name[0] <= 90 then [name[0] + 32] + Lower(name[1..])
    else if |name| >= 2 && name[..2] == [0xC4, 0xB0] then [105] + Lower(name[2..])
    else if |name| >= 3 && name[..3] == [0xE2, 0x84, 0xAA] then [107] + Lower(name[3..])
    else [name[0]] + Lower(name[1..])
  }

  function SlotOf(name: Text): Slot {
    var lower := Lower(name);
    if lower in {Ascii("hostname"), Ascii("host"), Ascii("server")} then HostSlot
    else if lower == Ascii("port") then PortSlot
    else if lower in {Ascii("username"), Ascii("user")} then UserSlot
    else if lower == Ascii("password") then PasswordSlot
    else if lower == Ascii("ignore-cert") then CertSlot
    else OtherSlot
  }

  /** The value the server imposes on a slot, if it imposes one. */
  function Imposed(name: Text, target: Target, password: Text): Option<Text> {
    match SlotOf(name)
    case HostSlot => Some(target.host)
    case PortSlot => Some(IntToText(target.port))
    case UserSlot => if target.username != [] then Some(target.username) else None
    case PasswordSlot => if password != [] then Some(password) else None
    case CertSlot => Some(Ascii("false"))
    case OtherSlot => None
  }

  function Padded(values: seq<Text>, length: nat): (out: seq<Text>)
    ensures |out| == if |values| < length then length else |values|
    ensures forall j :: 0 <= j < |out| ==> out[j] == if j < |values| then values[j] else []
  {
    if |values| < length then values + seq(length - |values|, _ => []) else values
  }

  function Rewrite(values: seq<Text>, names: seq<Text>, target: Target, password: Text): (out: seq<Text>)
    ensures |out| == if |values| < |names| then |names| else |values|
  {
    var padded := Padded(values, |names|);
    seq(|padded|, j requires 0 <= j < |padded| =>
      if j < |names| && Imposed(names[j], target, password).Some?
      then Imposed(names[j], target, password).value else padded[j])
  }

  method RewriteConnect(values: seq<Text>, names: seq<Text>, target: Target, password: Text)
    returns (out: seq<Text>)
    ensures out == Rewrite(values, names, target, password)
    ensures IsRewritten(values, names, target, password, out)
  {
    RewriteMeans(values, names, target, password);
    hide IsRewritten;
    out := values;
    while |out| < |names|
      invariant |values| <= |out|
      invariant |out| <= |names| || out == values
      invariant forall j :: 0 <= j < |out| ==> out[j] == if j < |values| then values[j] else []
    {
      out := out + [[]];
    }
    ghost var padded := out;
    for index := 0 to |names|
      invariant |out| == |padded|
      invariant forall j :: index <= j < |out| ==> out[j] == padded[j]
      invariant forall j :: 0 <= j < index ==> out[j] == Rewrite(values, names, target, password)[j]
    {
      match SlotOf(names[index]) {
        case HostSlot => out := out[index := target.host];
        case PortSlot => out := out[index := IntToText(target.port)];
        case UserSlot =>
          if target.username != [] {
            out := out[index := target.username];
          }
        case PasswordSlot =>
          if password != [] {
            out := out[index := password];
          }
        case CertSlot => out := out[index := Ascii("false")];
        case OtherSlot =>
      }
    }
  }

  /**
   Whatever the browser puts in its connect arguments, the slots the server imposes
   come out the same, every other supplied value passes through, and rewriting an
   already rewritten connect changes nothing.
   */
  lemma RewriteImposes(v: seq<Text>, w: seq<Text>, names: seq<Text>, target: Target, password: Text, j: nat)
    ensures var a, b := Rewrite(v, names, target, password), Rewrite(w, names, target, password);
            && (j < |names| && Imposed(names[j], target, password).Some? ==>
                  a[j] == b[j] == Imposed(names[j], target, password).value)
            && (j < |v| && (j >= |names| || Imposed(names[j], target, password).None?) ==> a[j] == v[j])
            && Rewrite(a, names, target, password) == a
  {
    var a := Rewrite(v, names, target, password);
    assert Padded(a, |names|) == a;
    assert Rewrite(a, names, target, password) == a;
  }

  /** The opcodes as bytes, and the sizes of reads and messages. */
  lemma Opcodes()
    ensures SELECT == [115, 101, 108, 101, 99, 116]
    ensures CONNECT == [99, 111, 110, 110, 101, 99, 116]
    ensures ARGS == [97, 114, 103, 115]
    ensures READ_BUFFER == 64 * 1024 && MAX_MESSAGE == 16 * 1024 * 1024
  {
  }

  // ---------------------------------------------------------------------------
  //  What the rewrite puts where
  // ---------------------------------------------------------------------------

  predicate SameLetter(b: byte, letter: byte) {
    b == letter || (97 <= letter <= 122 && b == letter - 32)
  }

  /**
   The name spells the keyword up to case: byte by byte, small or capital, or with the dotted
   capital I (U+0130) for an i or the Kelvin sign (U+212A) for a k.
   */
  predicate Spells(name: Text, keyword: Text)
    decreases |keyword|
  {
    if keyword == [] then name == []
    else
      || (name != [] && SameLetter(name[0], keyword[0]) && Spells(name[1..], keyword[1..]))
      || (keyword[0] == 105 && |name| >= 2 && name[..2] == [0xC4, 0xB0] && Spells(name[2..], keyword[1..]))
      || (keyword[0] == 107 && |name| >= 3 && name[..3] == [0xE2, 0x84, 0xAA] && Spells(name[3..], keyword[1..]))
  }

  const HOSTNAME: Text := [104, 111, 115, 116, 110, 97, 109, 101]
  const HOST: Text := [104, 111, 115, 116]
  const SERVER: Text := [115, 101, 114, 118, 101, 114]
  const PORT: Text := [112, 111, 114, 116]
  const USERNAME: Text := [117, 115, 101, 114, 110, 97, 109, 101]
  const USER: Text := [117, 115, 101, 114]
  const PASSWORD: Text := [112, 97, 115, 115, 119, 111, 114, 100]
  const IGNORE_CERT: Text := [105, 103, 110, 111, 114, 101, 45, 99, 101, 114, 116]
  const FALSE: Text := [102, 97, 108, 115, 101]

  /** The bytes are the shortest decimal form of the number. */
  predicate IsDecimal(t: Text, n: int) {
    if n < 0 then t != [] && t[0] == 45 && IsDecimal(t[1..], -n)
    else t != [] && Digits(t, |t|) && Value(t, |t|) == n && (n > 0 ==> t[0] != 48)
  }

  /** What stands in a connect for one argument name, given what the browser sent for it. */
  predicate Stands(name: Text, target: Target, password: Text, sent: Text, out: Text) {
    if Spells(name, HOSTNAME) || Spells(name, HOST) || Spells(name, SERVER) then out == target.host
    else if Spells(name, PORT) then IsDecimal(out, target.port)
    else if (Spells(name, USERNAME) || Spells(name, USER)) && target.username != [] then out == target.username
    else if Spells(name, PASSWORD) && password != [] then out == password
    else if Spells(name, IGNORE_CERT) then out == FALSE
    else out == sent
  }

  /** Every argument stands as its name asks, what has no name is as sent, and what was not sent is empty. */
  predicate IsRewritten(values: seq<Text>, names: seq<Text>, target: Target, password: Text, out: seq<Text>) {
    && |out| == (if |values| < |names| then |names| else |values|)
    && forall j :: 0 <= j < |out| ==>
         var sent := if j < |values| then values[j] else [];
         if j < |names| then Stands(names[j], target, password, sent, out[j]) else out[j] == sent
  }

  /** A keyword in small letters. */
  predicate IsKeyword(keyword: Text) {
    forall i :: 0 <= i < |keyword| ==> keyword[i] < 128 && !(65 <= keyword[i] <= 90)
  }

  /** A name is a keyword in lower case exactly when it spells it. */
  lemma {:induction false} LowerSpells(name: Text, keyword: Text)
    requires IsKeyword(keyword)
    ensures Lower(name) == keyword <==> Spells(name, keyword)
    decreases |name|
  {
    if name != [] && keyword != [] {
      var rest := keyword[1..];
      assert keyword == [keyword[0]] + rest;
      assert forall i :: 0 <= i < |rest| ==> rest[i] == keyword[i + 1];
      LowerSpells(name[1..], rest);
      if |name| >= 2 && name[..2] == [0xC4, 0xB0] {
        assert name[0] == name[..2][0];
        LowerSpells(name[2..], rest);
        assert Lower(name) == [105] + Lower(name[2..]);
        assert Lower(name)[1..] == Lower(name[2..]);
      } else if |name| >= 3 && name[..3] == [0xE2, 0x84, 0xAA] {
        assert name[0] == name[..3][0];
        LowerSpells(name[3..], rest);
        assert Lower(name) == [107] + Lower(name[3..]);
        assert Lower(name)[1..] == Lower(name[3..]);
      } else {
        assert Lower(name) == [if 65 <= name[0] <= 90 then name[0] + 32 else name[0]] + Lower(name[1..]);
        assert Lower(name)[1..] == Lower(name[1..]);
      }
    }
  }

  lemma Keywords()
    ensures Ascii("hostname") == HOSTNAME && Ascii("host") == HOST && Ascii("server") == SERVER && Ascii("port") == PORT
    ensures Ascii("false") == FALSE
  {
  }

  lemma MoreKeywords()
    ensures Ascii("username") == USERNAME && Ascii("user") == USER && Ascii("password") == PASSWORD
    ensures Ascii("ignore-cert") == IGNORE_CERT
  {
  }

  lemma SlotSpells(name: Text)
    ensures SlotOf(name) ==
            if Spells(name, HOSTNAME) || Spells(name, HOST) || Spells(name, SERVER) then HostSlot
            else if Spells(name, PORT) then PortSlot
            else if Spells(name, USERNAME) || Spells(name, USER) then UserSlot
            else if Spells(name, PASSWORD) then PasswordSlot
            else if Spells(name, IGNORE_CERT) then CertSlot
            else OtherSlot
    ensures Spells(name, IGNORE_CERT) ==> SlotOf(name).CertSlot?
    ensures Spells(name, PASSWORD) ==> SlotOf(name).PasswordSlot?
  {
    hide Lower, Spells, Ascii;
    Keywords();
    MoreKeywords();
    LowerSpells(name, HOSTNAME);
    LowerSpells(name, HOST);
    LowerSpells(name, SERVER);
    LowerSpells(name, PORT);
    LowerSpells(name, USERNAME);
    LowerSpells(name, USER);
    LowerSpells(name, PASSWORD);
    LowerSpells(name, IGNORE_CERT);
  }

  lemma PortIsDecimal(n: int)
    ensures IsDecimal(IntToText(n), n)
  {
    if n < 0 {
      assert IntToText(n)[1..] == NatToText(-n);
    }
  }

  /** The rewrite puts the target's host, port, user and password, and no trust, under their names, and nothing else anywhere. */
  lemma RewriteMeans(values: seq<Text>, names: seq<Text>, target: Target, password: Text)
    ensures IsRewritten(values, names, target, password, Rewrite(values, names, target, password))
  {
    hide SlotOf, Spells, IsDecimal, IntToText, Ascii;
    Keywords();
    PortIsDecimal(target.port);
    var out := Rewrite(values, names, target, password);
    forall j | 0 <= j < |names| ensures Stands(names[j], target, password, if j < |values| then values[j] else [], out[j]) {
      SlotSpells(names[j]);
    }
  }

  // ---------------------------------------------------------------------------
  //  The two pumps
  // ---------------------------------------------------------------------------

  /** The target record and its password; `None` when the saved password cannot be opened. */
  datatype Config = Config(target: Target, password: Option<Text>)

  /** What becomes of one browser instruction, given the argument names in force. */
  function Transform(i: Instruction, names: seq<Text>, c: Config): Instruction
    requires i.opcode == CONNECT ==> c.password.Some?
  {
    if i.opcode == SELECT then Instruction(i.opcode, [c.target.protocol])
    else if i.opcode == CONNECT then Instruction(i.opcode, Rewrite(i.args, names, c.target, c.password.value))
    else i
  }

  /**
   One forwarded instruction: what came in, what went out, how many guacd instructions
   the browser had been shown when the message was read, up to the first read that failed to
   parse and in all, and how many the names in force reflected.
   */
  datatype Sent = Sent(input: Instruction, output: Instruction, shown: nat, seen: nat, basis: nat)

  /** The pump from the browser to guacd. */
  datatype BrowserPump = BrowserPump(
    read: Text,                      // bytes of the messages accepted so far
    held: Text,                      // parser buffer
    queue: seq<Instruction>,         // parsed, not yet forwarded
    shown: nat,                      // guacd instructions shown when the current message was read, before any failed read
    seen: nat,                       // all that were shown then
    names: Option<(seq<Text>, nat)>, // copy of the argument names for the connect at the head, and its basis
    written: Text,                   // bytes written to guacd
    sent: seq<Sent>)

  /** The pump from guacd to the browser; it alone writes the shared argument names. */
  datatype GuacdPump = GuacdPump(
    read: Text,                // bytes read so far
    good: Text,                // those read before the parser first failed
    failed: Option<Text>,      // the read it first failed on
    held: Text,                // parser buffer
    queue: seq<Instruction>,   // parsed, not yet looked at
    applied: seq<Instruction>, // looked at
    chunk: Option<Text>,       // read, not yet relayed
    relayed: Text,             // bytes relayed to the browser
    argNames: seq<Text>)

  datatype Bridge = Bridge(browser: BrowserPump, guacd: GuacdPump, stopped: bool)

  const INITIAL :=
    Bridge(BrowserPump([], [], [], 0, 0, None, [], []), GuacdPump([], [], None, [], [], [], None, [], []), false)

  datatype Event =
    | BrowserMessage(isText: bool, data: Text)
    | CopyNames
    | Forward
    | GuacdRead(data: Text)
    | LookAt
    | Relay
    | Stop

  const READ_BUFFER: nat := 65536

  /** The bytes of the guacd stream that are both parsed and relayed. */
  function GoodShown(g: GuacdPump): Text {
    if |g.good| <= |g.relayed| then g.good else g.relayed
  }

  /** Events after which the browser pump returns an error and the session ends. */
  predicate Fatal(b: BrowserPump, e: Event, c: Config) {
    match e
    case Stop => true
    case BrowserMessage(isText, data) =>
      b.queue == [] && (!isText || |data| > MAX_MESSAGE || !Drain(b.held + data).ok)
    case CopyNames => WantsNames(b) && c.password.None?
    case _ => false
  }

  predicate WantsNames(b: BrowserPump) {
    b.queue != [] && b.queue[0].opcode == CONNECT && b.names.None?
  }

  predicate CanForward(b: BrowserPump, c: Config) {
    b.queue != [] && (b.queue[0].opcode == CONNECT ==> b.names.Some? && c.password.Some?)
  }

  /** Atomic steps of the browser pump; an event that is not possible changes nothing. */
  function BrowserStep(b: BrowserPump, g: GuacdPump, e: Event, c: Config): BrowserPump {
    match e
    case BrowserMessage(isText, data) =>
      if b.queue != [] then b
      else
        var d := Drain(b.held + data);
        b.(read := b.read + data, held := d.rest, queue := d.out, shown := |ParseAll(GoodShown(g)).out|, seen := |ParseAll(g.relayed).out|)
    case CopyNames =>
      if WantsNames(b) then b.(names := Some((g.argNames, |g.applied|))) else b
    case Forward =>
      if !CanForward(b, c) then b
      else
        var i := b.queue[0];
        var names := if b.names.Some? then b.names.value else ([], 0);
        var out := Transform(i, names.0, c);
        b.(queue := b.queue[1..], names := None,
           written := b.written + Encode(out), sent := b.sent + [Sent(i, out, b.shown, b.seen, names.1)])
    case _ => b
  }

  /** Atomic steps of the guacd pump; a failed parse is ignored and the bytes are relayed all the same. */
  function GuacdStep(g: GuacdPump, e: Event): GuacdPump {
    match e
    case GuacdRead(data) =>
      if g.chunk.Some? || data == [] || |data| > READ_BUFFER then g
      else
        var d := Drain(g.held + data);
        g.(read := g.read + data, held := d.rest, chunk := Some(data),
           queue := if d.ok then d.out else [], good := if d.ok then g.good + data else g.good,
           failed := if d.ok || g.failed.Some? then g.failed else Some(data))
    case LookAt =>
      if g.queue == [] then g
      else
        var i := g.queue[0];
        g.(queue := g.queue[1..], applied := g.applied + [i],
           argNames := if i.opcode == ARGS then i.args else g.argNames)
    case Relay =>
      if g.queue != [] || g.chunk.None? then g
      else g.(chunk := None, relayed := g.relayed + g.chunk.value)
    case _ => g
  }

  function Step(s: Bridge, e: Event, c: Config): Bridge {
    if s.stopped then s
    else if Fatal(s.browser, e, c) then s.(stopped := true)
    else Bridge(BrowserStep(s.browser, s.guacd, e, c), GuacdStep(s.guacd, e), false)
  }

  function Run(s: Bridge, events: seq<Event>, c: Config): Bridge
    decreases |events|
  {
    if events == [] then s else Step(Run(s, events[..|events| - 1], c), events[|events| - 1], c)
  }

  /** The names announced by the last `args` instruction, none before the first. */
  function LastArgs(instructions: seq<Instruction>): seq<Text> {
    if instructions == [] then []
    else
      var last := instructions[|instructions| - 1];
      if last.opcode == ARGS then last.args else LastArgs(instructions[..|instructions| - 1])
  }

  function Outputs(sent: seq<Sent>): seq<Instruction> {
    seq(|sent|, j requires 0 <= j < |sent| => sent[j].output)
  }

  function Inputs(sent: seq<Sent>): seq<Instruction> {
    seq(|sent|, j requires 0 <= j < |sent| => sent[j].input)
  }

  // ---------------------------------------------------------------------------
  //  What every step keeps
  // ---------------------------------------------------------------------------

  /** Nothing is lost, added or reordered between what was read and what was written. */
  predicate BrowserSide(b: BrowserPump) {
    && ParseAll(b.read) == Drained(Inputs(b.sent) + b.queue, b.held, true)
    && b.written == EncodeAll(Outputs(b.sent))
  }

  /** The shared list is the last `args` looked at, and looking at comes before relaying. */
  predicate GuacdSide(g: GuacdPump) {
    && ParseAll(g.good).ok && ParseAll(g.good).out == g.applied + g.queue
    && g.good <= g.read
    && g.read == g.relayed + (if g.chunk.Some? then g.chunk.value else [])
    && (if g.failed.None? then g.good == g.read && g.held == ParseAll(g.good).rest
        else
          && g.good != g.read && |g.failed.value| <= READ_BUFFER && !ParseAll(g.good + g.failed.value).ok
          && g.held != [] && Parse(g.held).Malformed? && !ParseAll(g.read).ok
          && ParseAll(g.read).out == ParseAll(g.good + g.failed.value).out)
    && (g.chunk.None? ==> g.queue == [])
    && (|g.good| < |g.relayed| ==> g.failed.Some? && ParseAll(g.relayed).out == ParseAll(g.read).out)
    && ParseAll(GoodShown(g)).ok && ParseAll(GoodShown(g)).out <= g.applied
    && g.argNames == LastArgs(g.applied)
  }

  /** The names used for a forwarded connect were current, and no older than what the browser had seen. */
  predicate Explained(r: Sent, applied: seq<Instruction>, c: Config) {
    if r.input.opcode == CONNECT then
      && c.password.Some?
      && r.shown <= r.basis <= |applied|
      && r.output == Transform(r.input, LastArgs(applied[..r.basis]), c)
    else r.output == Transform(r.input, [], c)
  }

  predicate Causality(b: BrowserPump, applied: seq<Instruction>, c: Config) {
    && b.shown <= |applied|
    && (b.names.Some? ==>
          && b.queue != [] && b.queue[0].opcode == CONNECT
          && b.shown <= b.names.value.1 <= |applied|
          && b.names.value.0 == LastArgs(applied[..b.names.value.1]))
    && forall j :: 0 <= j < |b.sent| ==> Explained(b.sent[j], applied, c)
  }

  /** The two counts are the same, or a read that failed has been shown, and with it all there will ever be. */
  predicate Sighted(g: GuacdPump, shown: nat, seen: nat) {
    seen == shown || (g.failed.Some? && shown == |ParseAll(g.good).out| && seen == |ParseAll(g.read).out|)
  }

  predicate AllSighted(b: BrowserPump, g: GuacdPump) {
    Sighted(g, b.shown, b.seen) && forall j :: 0 <= j < |b.sent| ==> Sighted(g, b.sent[j].shown, b.sent[j].seen)
  }

  lemma ChunkStep(stream: Text, data: Text)
    requires ParseAll(stream).ok && |data| <= MAX_MESSAGE
    ensures var d := Drain(ParseAll(stream).rest + data);
            ParseAll(stream + data) == After(ParseAll(stream).out, d)
  {
    ParseAllSettles(stream);
    GuardUnreachable(ParseAll(stream).rest, data);
    ParseAllResumes(stream, data);
  }

  lemma HeadMoves(done: seq<Instruction>, queue: seq<Instruction>)
    requires queue != []
    ensures done + queue == (done + [queue[0]]) + queue[1..]
  {
  }

  lemma BrowserSideKept(b: BrowserPump, g: GuacdPump, e: Event, c: Config)
    requires BrowserSide(b) && !Fatal(b, e, c)
    ensures BrowserSide(BrowserStep(b, g, e, c))
  {
    hide ParseAll, Drain, Parse, EncodeAll, Encode;
    var t := BrowserStep(b, g, e, c);
    if e.BrowserMessage? && b.queue == [] {
      ChunkStep(b.read, e.data);
      assert Inputs(b.sent) + [] == Inputs(b.sent);
    } else if e.Forward? && CanForward(b, c) {
      var out := t.sent[|b.sent|].output;
      assert Inputs(t.sent) == Inputs(b.sent) + [b.queue[0]];
      assert Outputs(t.sent) == Outputs(b.sent) + [out];
      EncodeAllAppend(Outputs(b.sent), out);
      HeadMoves(Inputs(b.sent), b.queue);
    }
  }

  /** Instruction `i` is an `args`, and there is none behind it. */
  predicate LastArgsAt(s: seq<Instruction>, i: nat) {
    i < |s| && s[i].opcode == ARGS && forall j :: i < j < |s| ==> s[j].opcode != ARGS
  }

  /** The names are those of the last `args` among the instructions, or none when there is none. */
  lemma {:induction false} LastArgsMeans(s: seq<Instruction>)
    ensures forall i: nat :: LastArgsAt(s, i) ==> LastArgs(s) == s[i].args
    ensures (forall i :: 0 <= i < |s| ==> s[i].opcode != ARGS) ==> LastArgs(s) == []
  {
    hide Ascii;
    if s != [] {
      var init, n := s[..|s| - 1], |s| - 1;
      LastArgsMeans(init);
      assert forall i :: 0 <= i < n ==> init[i] == s[i];
      forall i: nat | LastArgsAt(s, i) ensures LastArgs(s) == s[i].args {
        if i < n {
          assert s[n].opcode != ARGS && LastArgsAt(init, i);
        }
      }
    }
  }

  lemma LastArgsStep(applied: seq<Instruction>, i: Instruction)
    ensures LastArgs(applied + [i]) == if i.opcode == ARGS then i.args else LastArgs(applied)
  {
    assert (applied + [i])[..|applied|] == applied;
  }

  /** Once the guacd-side parser has failed it keeps failing. */
  lemma FailureSticks(held: Text, data: Text)
    requires held != [] && Parse(held).Malformed?
    ensures Drain(held + data) == Drained([], held + data, false)
    ensures Parse(held + data).Malformed?
  {
    VerdictStable(held, data);
  }

  lemma GuacdReadKept(g: GuacdPump, data: Text)
    requires GuacdSide(g) && g.chunk.None? && data != [] && |data| <= READ_BUFFER
    ensures GuacdSide(GuacdStep(g, GuacdRead(data)))
  {
    hide ParseAll, Drain, Parse, EncodeAll, Encode;
    var t := GuacdStep(g, GuacdRead(data));
    assert g.read == g.relayed + [] == g.relayed;
    assert g.applied + [] == g.applied;
    if g.failed.None? {
      ChunkStep(g.good, data);
      ParseAllSettles(g.good + data);
      assert GoodShown(t) == g.relayed;
    } else {
      FailureSticks(g.held, data);
      ParseAllResumes(g.read, data);
      assert GoodShown(t) == g.good;
    }
  }

  lemma LookAtKept(g: GuacdPump)
    requires GuacdSide(g) && g.queue != []
    ensures GuacdSide(GuacdStep(g, LookAt))
  {
    hide ParseAll, Drain, Parse, EncodeAll, Encode;
    var t := GuacdStep(g, LookAt);
    LastArgsStep(g.applied, g.queue[0]);
    HeadMoves(g.applied, g.queue);
    assert ParseAll(GoodShown(g)).out <= g.applied <= t.applied;
    assert GoodShown(t) == GoodShown(g);
  }

  lemma GuacdSideKept(g: GuacdPump, e: Event)
    requires GuacdSide(g)
    ensures GuacdSide(GuacdStep(g, e))
  {
    hide ParseAll, Drain, Parse, EncodeAll, Encode;
    var t := GuacdStep(g, e);
    if t != g {
      match e
      case GuacdRead(data) => GuacdReadKept(g, data);
      case LookAt => LookAtKept(g);
      case Relay =>
        assert t.read == t.relayed + [];
        assert GoodShown(t) == g.good;
        assert g.applied + [] == g.applied;
    }
  }

  lemma ExplainedGrows(r: Sent, applied: seq<Instruction>, more: seq<Instruction>, c: Config)
    requires Explained(r, applied, c)
    ensures Explained(r, applied + more, c)
  {
    if r.input.opcode == CONNECT {
      assert (applied + more)[..r.basis] == applied[..r.basis];
    }
  }

  lemma CausalityGrows(b: BrowserPump, applied: seq<Instruction>, more: seq<Instruction>, c: Config)
    requires Causality(b, applied, c)
    ensures Causality(b, applied + more, c)
  {
    forall j | 0 <= j < |b.sent| ensures Explained(b.sent[j], applied + more, c) {
      ExplainedGrows(b.sent[j], applied, more, c);
    }
    if b.names.Some? {
      assert (applied + more)[..b.names.value.1] == applied[..b.names.value.1];
    }
  }

  lemma CausalityKept(b: BrowserPump, g: GuacdPump, e: Event, c: Config)
    requires GuacdSide(g) && Causality(b, g.applied, c)
    ensures Causality(BrowserStep(b, g, e, c), GuacdStep(g, e).applied, c)
  {
    hide ParseAll, Drain, Parse, EncodeAll, Encode;
    var t := BrowserStep(b, g, e, c);
    assert Causality(t, g.applied, c) by {
      assert g.applied[..|g.applied|] == g.applied;
      if e.Forward? && CanForward(b, c) {
        assert Explained(t.sent[|b.sent|], g.applied, c);
      }
    }
    if e.LookAt? && g.queue != [] {
      CausalityGrows(t, g.applied, [g.queue[0]], c);
    }
  }

  lemma SightedStays(g: GuacdPump, e: Event, shown: nat, seen: nat)
    requires GuacdSide(g) && Sighted(g, shown, seen)
    ensures Sighted(GuacdStep(g, e), shown, seen)
  {
    hide ParseAll, Drain, Parse, LastArgs;
    if e.GuacdRead? && g.failed.Some? {
      FailureSticks(g.held, e.data);
      ParseAllResumes(g.read, e.data);
    }
  }

  lemma AllSightedKept(b: BrowserPump, g: GuacdPump, e: Event, c: Config)
    requires GuacdSide(g) && AllSighted(b, g)
    ensures AllSighted(BrowserStep(b, g, e, c), GuacdStep(g, e))
  {
    hide ParseAll, Drain, Parse, EncodeAll, Encode, LastArgs, Transform;
    var t := BrowserStep(b, g, e, c);
    assert AllSighted(t, g) by {
      assert |g.relayed| <= |g.good| ==> GoodShown(g) == g.relayed;
      assert g.good <= g.read && g.relayed <= g.read;
      assert |g.relayed| == |g.good| ==> g.relayed == g.good;
    }
    hide BrowserStep, Sighted, GuacdStep;
    SightedStays(g, e, t.shown, t.seen);
    forall j | 0 <= j < |t.sent| ensures Sighted(GuacdStep(g, e), t.sent[j].shown, t.sent[j].seen) {
      SightedStays(g, e, t.sent[j].shown, t.sent[j].seen);
    }
  }

  ghost predicate Invariant(s: Bridge, c: Config) {
    && BrowserSide(s.browser) && GuacdSide(s.guacd)
    && Causality(s.browser, s.guacd.applied, c) && AllSighted(s.browser, s.guacd)
  }

  lemma InitialInvariant(c: Config)
    ensures Invariant(INITIAL, c)
  {
    assert Inputs([]) + [] == [] && Outputs([]) == [];
  }

  /** The invariant holds after every run, whatever the interleaving of the two pumps. */
  lemma {:induction false} EveryRun(events: seq<Event>, c: Config)
    ensures Invariant(Run(INITIAL, events, c), c)
    decreases |events|
  {
    hide ParseAll, Drain, Parse, EncodeAll, Encode;
    if events == [] {
      InitialInvariant(c);
    } else {
      var before, e := events[..|events| - 1], events[|events| - 1];
      EveryRun(before, c);
      var s := Run(INITIAL, before, c);
      if !s.stopped && !Fatal(s.browser, e, c) {
        BrowserSideKept(s.browser, s.guacd, e, c);
        GuacdSideKept(s.guacd, e);
        CausalityKept(s.browser, s.guacd, e, c);
        AllSightedKept(s.browser, s.guacd, e, c);
      }
    }
  }

  // ---------------------------------------------------------------------------
  //  What the browser's stream becomes
  // ---------------------------------------------------------------------------

  /** Every value the server may put into a connect or select fits in a field. */
  predicate ConfigFits(c: Config) {
    && |c.target.protocol| <= MAX_MESSAGE
    && |c.target.host| <= MAX_MESSAGE
    && |c.target.username| <= MAX_MESSAGE
    && |IntToText(c.target.port)| <= MAX_MESSAGE
    && (c.password.Some? ==> |c.password.value| <= MAX_MESSAGE)
  }

  lemma ImposedFits(name: Text, c: Config)
    requires ConfigFits(c) && c.password.Some?
    ensures var v := Imposed(name, c.target, c.password.value);
            v.Some? ==> |v.value| <= MAX_MESSAGE
  {
  }

  lemma RewriteFits(values: seq<Text>, names: seq<Text>, c: Config)
    requires Fits(values) && ConfigFits(c) && c.password.Some?
    ensures Fits(Rewrite(values, names, c.target, c.password.value))
  {
    var out := Rewrite(values, names, c.target, c.password.value);
    forall j | 0 <= j < |out| ensures |out[j]| <= MAX_MESSAGE {
      if j < |names| {
        ImposedFits(names[j], c);
      }
    }
  }

  lemma TransformEncodable(i: Instruction, names: seq<Text>, c: Config)
    requires Encodable(i) && ConfigFits(c) && (i.opcode == CONNECT ==> c.password.Some?)
    ensures Encodable(Transform(i, names, c))
  {
    var out := Transform(i, names, c);
    FitsSplit([i.opcode] + i.args);
    FitsSplit([out.opcode] + out.args);
    assert ([i.opcode] + i.args)[1..] == i.args && ([out.opcode] + out.args)[1..] == out.args;
    if i.opcode == CONNECT {
      RewriteFits(i.args, names, c);
    }
  }

  lemma {:induction false} ParsedAreEncodable(stream: Text)
    ensures AllEncodable(ParseAll(stream).out)
    decreases |stream|
  {
    if stream != [] && Parse(stream).Complete? {
      var Complete(i, n) := Parse(stream);
      ParsedFits(stream);
      assert [i.opcode] + i.args == ParseFields(stream).fields;
      ParsedAreEncodable(stream[n..]);
    }
  }

  /** A forwarded connect carries what the names announced to that point ask for. */
  predicate IsConnect(r: Sent, applied: seq<Instruction>, c: Config) {
    && r.basis <= |applied| && c.password.Some?
    && IsRewritten(r.input.args, LastArgs(applied[..r.basis]), c.target, c.password.value, r.output.args)
  }

  /**
   Stream transducer: in every reachable state the bytes written to guacd parse back, with
   nothing left over, to the instructions forwarded; these are the instructions of the
   browser's bytes, in order, up to those still queued, each with its opcode, and with its
   own arguments unless it is a select or a connect; a connect carries the target's host, port,
   user and password under the names guacd asked for them.
   */
  lemma StreamTransducer(events: seq<Event>, c: Config)
    requires ConfigFits(c)
    ensures var b := Run(INITIAL, events, c).browser;
            && ParseAll(b.written) == Drained(Outputs(b.sent), [], true)
            && ParseAll(b.read).ok && ParseAll(b.read).out == Inputs(b.sent) + b.queue
            && forall j :: 0 <= j < |b.sent| ==>
                 && b.sent[j].output.opcode == b.sent[j].input.opcode
                 && (b.sent[j].input.opcode == SELECT ==> b.sent[j].output.args == [c.target.protocol])
                 && (b.sent[j].input.opcode !in {SELECT, CONNECT} ==> b.sent[j].output == b.sent[j].input)
                 && (b.sent[j].input.opcode == CONNECT ==> IsConnect(b.sent[j], Run(INITIAL, events, c).guacd.applied, c))
  {
    hide ParseAll, Drain, Parse, EncodeAll, Encode;
    EveryRun(events, c);
    var s := Run(INITIAL, events, c);
    var b := s.browser;
    ParsedAreEncodable(b.read);
    forall j | 0 <= j < |b.sent| ensures Encodable(Outputs(b.sent)[j]) {
      assert Explained(b.sent[j], s.guacd.applied, c);
      var names := if b.sent[j].input.opcode == CONNECT then LastArgs(s.guacd.applied[..b.sent[j].basis]) else [];
      assert Encodable((Inputs(b.sent) + b.queue)[j]);
      TransformEncodable(b.sent[j].input, names, c);
    }
    forall j | 0 <= j < |b.sent| && b.sent[j].input.opcode == CONNECT ensures IsConnect(b.sent[j], s.guacd.applied, c) {
      assert Explained(b.sent[j], s.guacd.applied, c);
      RewriteMeans(b.sent[j].input.args, LastArgs(s.guacd.applied[..b.sent[j].basis]), c.target, c.password.value);
    }
    EncodedStreamReadsBack(Outputs(b.sent));
  }

  /**
   A session ends, after any run, exactly when it is told to, when a message is not text, larger
   than 16 MiB, or makes the browser's bytes malformed, or when a connect is to be rewritten and
   the password cannot be opened.
   */
  lemma SessionEndsExactly(events: seq<Event>, e: Event, c: Config)
    requires !Run(INITIAL, events, c).stopped
    ensures var b := Run(INITIAL, events, c).browser;
            Run(INITIAL, events + [e], c).stopped <==>
            || e == Stop
            || (e.BrowserMessage? && b.queue == [] && (!e.isText || |e.data| > 16777216 || !ParseAll(b.read + e.data).ok))
            || (e == CopyNames && b.queue != [] && b.queue[0].opcode == CONNECT && b.names.None? && c.password.None?)
  {
    hide ParseAll, Drain, Parse, EncodeAll, Encode, BrowserStep, GuacdStep, GuacdSide, Causality, AllSighted;
    EveryRun(events, c);
    var s := Run(INITIAL, events, c);
    assert (events + [e])[..|events|] == events;
    assert Run(INITIAL, events + [e], c) == Step(s, e, c);
    if e.BrowserMessage? && s.browser.queue == [] && |e.data| <= MAX_MESSAGE {
      ChunkStep(s.browser.read, e.data);
    }
  }

  // ---------------------------------------------------------------------------
  //  Which names a connect is rewritten with
  // ---------------------------------------------------------------------------

  /**
   Interleaving: in every run, up to the first guacd read that fails to parse, the argument names
   in force are those of the last `args` among the instructions looked at, which include all
   that were relayed, and all that were read once nothing waits to be looked at; and a forwarded
   connect was rewritten with the names in force after some number of these instructions, not
   fewer than the browser had been shown when it sent the connect.
   */
  lemma ConnectUsesFreshNames(events: seq<Event>, c: Config)
    ensures var s := Run(INITIAL, events, c);
            var seen := ParseAll(s.guacd.good).out;
            && (s.guacd.good == s.guacd.read <==> ParseAll(s.guacd.read).ok)
            && s.guacd.applied <= seen
            && s.guacd.argNames == LastArgs(s.guacd.applied)
            && ParseAll(GoodShown(s.guacd)).out <= s.guacd.applied
            && (s.guacd.queue == [] ==> s.guacd.argNames == LastArgs(seen))
            && forall j :: 0 <= j < |s.browser.sent| && s.browser.sent[j].input.opcode == CONNECT ==>
                 var r := s.browser.sent[j];
                 && c.password.Some?
                 && r.shown <= r.basis <= |seen|
                 && r.output.args == Rewrite(r.input.args, LastArgs(seen[..r.basis]), c.target, c.password.value)
  {
    hide ParseAll, Drain, Parse, EncodeAll, Encode;
    EveryRun(events, c);
    var s := Run(INITIAL, events, c);
    var seen := ParseAll(s.guacd.good).out;
    assert s.guacd.applied + [] == s.guacd.applied;
    forall j | 0 <= j < |s.browser.sent| && s.browser.sent[j].input.opcode == CONNECT
      ensures var r := s.browser.sent[j];
              && c.password.Some?
              && r.shown <= r.basis <= |seen|
              && r.output.args == Rewrite(r.input.args, LastArgs(seen[..r.basis]), c.target, c.password.value)
    {
      var r := s.browser.sent[j];
      assert Explained(r, s.guacd.applied, c);
      assert seen[..r.basis] == s.guacd.applied[..r.basis];
    }
  }

  predicate HasArgs(instructions: seq<Instruction>) {
    exists j :: 0 <= j < |instructions| && instructions[j].opcode == ARGS
  }

  lemma {:induction false} LastArgsConcat(a: seq<Instruction>, b: seq<Instruction>)
    ensures LastArgs(a + b) == if HasArgs(b) then LastArgs(b) else LastArgs(a)
    decreases |b|
  {
    if b == [] {
      assert a + b == a;
    } else {
      var init, last := b[..|b| - 1], b[|b| - 1];
      LastArgsConcat(a, init);
      assert (a + b)[..|a + b| - 1] == a + init;
      assert forall j :: 0 <= j < |init| ==> init[j] == b[j];
    }
  }

  /** The instructions that the read on which the parser first failed completes before its malformed byte. */
  function Lost(g: GuacdPump): seq<Instruction> {
    if g.failed.None? then [] else Drain(ParseAll(g.good).rest + g.failed.value).out
  }

  /**
   In every run, once all that was read is relayed: the browser has been shown what was looked at
   and what the first failing read completed; and the names in force are those of the last `args`
   shown exactly when that read completes no `args`, or the last one it completes repeats them.
   */
  lemma NamesFollowExactly(events: seq<Event>, c: Config)
    ensures var g := Run(INITIAL, events, c).guacd;
            g.chunk.None? ==>
              && ParseAll(g.relayed).out == g.applied + Lost(g)
              && (g.argNames == LastArgs(ParseAll(g.relayed).out) <==> !HasArgs(Lost(g)) || LastArgs(Lost(g)) == g.argNames)
  {
    hide ParseAll, Drain, Parse, EncodeAll, Encode, LastArgs, HasArgs;
    EveryRun(events, c);
    var g := Run(INITIAL, events, c).guacd;
    if g.chunk.None? {
      assert g.relayed + [] == g.relayed && g.applied + [] == g.applied;
      if g.failed.Some? {
        ChunkStep(g.good, g.failed.value);
      }
      LastArgsConcat(g.applied, Lost(g));
    }
  }

  /** The names a connect was rewritten with are those of all it had been shown, or later ones. */
  predicate IsFresh(r: Sent, all: seq<Instruction>)
    requires r.basis <= |all|
  {
    exists k :: r.seen <= k <= |all| && LastArgs(all[..k]) == LastArgs(all[..r.basis])
  }

  /**
   In every run a forwarded connect was rewritten with the names of all that the browser had been
   shown when it sent it, or with later ones, exactly when it had not been shown a read that failed
   to parse, or that read completes no `args`, or the last one it completes repeats the names
   before it.
   */
  lemma ConnectFreshExactly(events: seq<Event>, c: Config, j: nat)
    requires j < |Run(INITIAL, events, c).browser.sent| && Run(INITIAL, events, c).browser.sent[j].input.opcode == CONNECT
    ensures var s := Run(INITIAL, events, c);
            var r, good, all := s.browser.sent[j], ParseAll(s.guacd.good).out, ParseAll(s.guacd.read).out;
            && all == good + Lost(s.guacd) && r.basis <= |good|
            && (IsFresh(r, all) <==> r.seen <= |good| || !HasArgs(Lost(s.guacd)) || LastArgs(Lost(s.guacd)) == LastArgs(good))
  {
    hide ParseAll, Drain, Parse, EncodeAll, Encode, LastArgs, HasArgs, Rewrite;
    EveryRun(events, c);
    var s := Run(INITIAL, events, c);
    var g, r := s.guacd, s.browser.sent[j];
    var good, all, lost := ParseAll(g.good).out, ParseAll(g.read).out, Lost(g);
    if g.failed.Some? {
      ChunkStep(g.good, g.failed.value);
    } else {
      assert good + [] == good;
    }
    assert Explained(r, g.applied, c) && Sighted(g, r.shown, r.seen);
    LastArgsConcat(good, lost);
    assert all[..|all|] == all && all[..|good|] == good;
    if r.seen <= |good| {
      assert r.seen == r.shown || r.shown == |good|;
      assert r.seen <= r.basis || r.basis == |good|;
    } else {
      assert r.basis == |good| && r.seen == |all|;
    }
  }

  /**
   Well-formedness is needed: a read that ends in a malformed byte loses the `args` in front
   of it, although the browser receives them.
   */
  lemma MalformedReadLosesArgs(i: Instruction, c: Config)
    requires i.opcode == ARGS && i.args != [] && Encodable(i) && |Encode(i)| < READ_BUFFER
    ensures var g := Run(INITIAL, [GuacdRead(Encode(i) + [120]), Relay], c).guacd;
            ParseAll(g.relayed).out == [i] && g.argNames == []
  {
    MalformedTail(i);
    FailedReadIsRelayed(Encode(i) + [120], c);
  }

  lemma FailedReadIsRelayed(data: Text, c: Config)
    requires data != [] && |data| <= READ_BUFFER && !Drain(data).ok
    ensures var g := Run(INITIAL, [GuacdRead(data), Relay], c).guacd;
            g.relayed == data && g.argNames == []
  {
    RunTwo(INITIAL, GuacdRead(data), Relay, c);
    var g := INITIAL.guacd;
    assert g.held + data == data && g.relayed + data == data;
    var t := GuacdStep(g, GuacdRead(data));
    assert t.queue == [] && t.chunk == Some(data) && t.argNames == [];
  }

  lemma MalformedTail(i: Instruction)
    requires Encodable(i)
    ensures !Drain(Encode(i) + [120]).ok && ParseAll(Encode(i) + [120]).out == [i]
  {
    var data := Encode(i) + [120];
    EncodeParseRoundTrip(i, [120]);
    assert data[|Encode(i)|..] == [120];
    assert Parse([120]).Malformed? by {
      assert DigitRun([120]) == 0;
    }
    assert [i] + [] == [i];
  }

  lemma RunTwo(s: Bridge, first: Event, second: Event, c: Config)
    ensures Run(s, [first, second], c) == Step(Step(s, first, c), second, c)
  {
    var events := [first, second];
    assert events[..1] == [first] && events[..1][..0] == [];
    assert Run(s, [first], c) == Step(s, first, c);
  }
}
