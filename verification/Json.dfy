/** Decoded JSON documents, and the pieces of an address book inside them. */
module Json {
  import opened Options
  import opened Text

  datatype Json =
    | Null
    | Str(text: string)
    | Arr(items: seq<Json>)
    | Obj(fields: map<string, Json>)
    | Other(text: string)

  type Fields = map<string, Json>

  function Get(f: Fields, k: string): Option<Json> {
    if k in f then Some(f[k]) else None
  }

  lemma SameFields(f: Fields, g: Fields)
    requires forall k :: Get(f, k) == Get(g, k)
    ensures f == g
  {
    forall k ensures k in f <==> k in g {
      assert Get(f, k) == Get(g, k);
    }
    forall k | k in f ensures f[k] == g[k] {
      assert Get(f, k) == Get(g, k);
    }
  }

  /** Missing, null, blank, or an empty list. */
  predicate IsEmpty(v: Option<Json>) {
    match v
    case None => true
    case Some(Null) => true
    case Some(Str(text)) => Trim(text) == ""
    case Some(Arr(items)) => items == []
    case Some(_) => false
  }

  /** Nothing, null, a list without items, or white space only. */
  lemma EmptyExactly(v: Option<Json>)
    ensures IsEmpty(v) <==> v in {None, Some(Null), Some(Arr([]))} || (v.Some? && v.value.Str? && AllSpace(v.value.text))
  {
    hide Trim;
    if v.Some? && v.value.Str? {
      TrimsToNothing(v.value.text);
    }
  }

  /** The objects of a list, in order; other items are dropped. */
  function Objects(items: seq<Json>): seq<Fields> {
    if items == [] then []
    else
      var last := items[|items| - 1];
      Objects(items[..|items| - 1]) + if last.Obj? then [last.fields] else []
  }

  function ToPeers(v: Option<Json>): seq<Fields> {
    match v
    case Some(Arr(items)) => Objects(items)
    case _ => []
  }

  function FromPeers(peers: seq<Fields>): Json {
    Arr(seq(|peers|, i requires 0 <= i < |peers| => Obj(peers[i])))
  }

  lemma {:induction false} PeersRoundTrip(peers: seq<Fields>)
    ensures ToPeers(Some(FromPeers(peers))) == peers
  {
    if peers != [] {
      var init := peers[..|peers| - 1];
      PeersRoundTrip(init);
      assert FromPeers(peers).items[..|peers| - 1] == FromPeers(init).items;
      assert peers == init + [peers[|peers| - 1]];
    }
  }

  /** The strings of a list, in order. */
  function Strings(items: seq<Json>): seq<string> {
    if items == [] then []
    else
      var last := items[|items| - 1];
      Strings(items[..|items| - 1]) + if last.Str? then [last.text] else []
  }

  function ToStrings(v: Option<Json>): seq<string> {
    match v
    case Some(Arr(items)) => Strings(items)
    case _ => []
  }

  function FromStrings(strings: seq<string>): Json {
    Arr(seq(|strings|, i requires 0 <= i < |strings| => Str(strings[i])))
  }

  lemma {:induction false} StringsRoundTrip(strings: seq<string>)
    ensures ToStrings(Some(FromStrings(strings))) == strings
  {
    if strings != [] {
      var init := strings[..|strings| - 1];
      StringsRoundTrip(init);
      assert FromStrings(strings).items[..|strings| - 1] == FromStrings(init).items;
      assert strings == init + [strings[|strings| - 1]];
    }
  }

  /** The id of a peer, empty when it has none. */
  function PeerId(p: Fields): string {
    if "id" in p && p["id"].Str? then p["id"].text else ""
  }

  // ---------------------------------------------------------------------------
  //  Documents as text
  // ---------------------------------------------------------------------------

  /** The text of a document: blank, the literal `{}`, not JSON, or the text of a value. */
  datatype Document = Blank | Braces | Garbled | Document(value: Json)

  const EMPTY_BOOK: Fields := map["peers" := Arr([]), "tags" := Arr([])]

  /** The address book a document holds; peers and tags are always there. */
  function ParseBook(d: Document): (book: Fields)
    ensures "peers" in book && "tags" in book
  {
    if d.Document? && d.value.Obj? then EMPTY_BOOK + d.value.fields else EMPTY_BOOK
  }

  /** An object's own fields count, and missing peers or tags are empty lists; anything else is an empty book. */
  lemma ParseBookExactly(d: Document, k: string)
    ensures Get(ParseBook(d), k) ==
            if d.Document? && d.value.Obj? && k in d.value.fields then Some(d.value.fields[k])
            else if k in {"peers", "tags"} then Some(Arr([])) else None
  {
  }

  lemma ParseOfBook(book: Fields)
    requires "peers" in book && "tags" in book
    ensures ParseBook(Document(Obj(book))) == book
  {
  }
}
