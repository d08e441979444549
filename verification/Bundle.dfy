/** The bundle the broadcaster sends each tick: the buffered messages in one JSON object. */
module Bundle {
  import opened Wrappers
  import Text
  import opened Json

  const PREFIX: string := "{\"type\":\"bundle\",\"messages\":["
  const SUFFIX: string := "]}"

  function Payload(messages: seq<string>): string {
    PREFIX + Text.Join(messages, ',') + SUFFIX
  }

  /** append to a byte slice that has room for it. */
  method Append(data: array<char>, len: nat, s: string) returns (n: nat)
    requires len + |s| <= data.Length
    modifies data
    ensures n == len + |s| && data[..n] == old(data[..len]) + s
  {
    for i := 0 to |s|
      invariant data[..len + i] == old(data[..len]) + s[..i]
    {
      data[len + i] := s[i];
    }
    n := len + |s|;
  }

  /** The bytes the messages take, with one more for each. */
  function Room(messages: seq<string>): nat {
    if messages == [] then 0 else Room(messages[..|messages| - 1]) + |messages[|messages| - 1]| + 1
  }

  lemma {:induction false} JoinLast(messages: seq<string>, m: string)
    ensures Text.Join(messages + [m], ',')
            == if messages == [] then m else Text.Join(messages, ',') + "," + m
  {
    if |messages| > 0 {
      assert (messages + [m])[1..] == messages[1..] + [m];
      JoinLast(messages[1..], m);
    }
  }

  lemma {:induction false} JoinedLength(messages: seq<string>)
    ensures |Text.Join(messages, ',')| == if messages == [] then 0 else Room(messages) - 1
  {
    if messages != [] {
      var n := |messages| - 1;
      JoinedLength(messages[..n]);
      assert messages == messages[..n] + [messages[n]];
      JoinLast(messages[..n], messages[n]);
    }
  }

  lemma {:induction false} RoomGrows(messages: seq<string>, k: nat)
    requires k <= |messages|
    ensures Room(messages[..k]) <= Room(messages)
  {
    if k < |messages| {
      var n := |messages| - 1;
      RoomGrows(messages[..n], k);
      assert messages[..n][..k] == messages[..k];
    } else {
      assert messages[..k] == messages;
    }
  }

  method Capacity(messages: seq<string>) returns (capacity: nat)
    ensures capacity == |PREFIX| + |SUFFIX| + Room(messages)
  {
    capacity := |PREFIX| + |SUFFIX|;
    for i := 0 to |messages|
      invariant capacity == |PREFIX| + |SUFFIX| + Room(messages[..i])
    {
      assert messages[..i + 1][..i] == messages[..i];
      capacity := capacity + |messages[i]| + 1;
    }
    assert messages[..|messages|] == messages;
  }

  /** The messages with commas between them. */
  method AppendJoined(data: array<char>, start: nat, messages: seq<string>) returns (len: nat)
    requires start + Room(messages) <= data.Length
    modifies data
    ensures len == start + |Text.Join(messages, ',')| <= data.Length
    ensures data[..len] == old(data[..start]) + Text.Join(messages, ',')
  {
    hide Room, Text.Join;
    len := start;
    NothingJoined();
    for i := 0 to |messages|
      invariant len == start + |Text.Join(messages[..i], ',')| <= data.Length
      invariant data[..len] == old(data[..start]) + Text.Join(messages[..i], ',')
    {
      assert messages[..i + 1] == messages[..i] + [messages[i]];
      JoinLast(messages[..i], messages[i]);
      JoinedLength(messages[..i + 1]);
      RoomGrows(messages, i + 1);
      if i > 0 {
        len := Append(data, len, ",");
      }
      len := Append(data, len, messages[i]);
    }
    assert messages[..|messages|] == messages;
  }

  lemma NothingJoined()
    ensures Text.Join([], ',') == ""
  {
  }

  /** The tick's payload: one allocation of the computed capacity, which is used up but for one byte. */
  method BuildPayload(messages: seq<string>) returns (data: array<char>, len: nat)
    requires messages != []
    ensures fresh(data) && len == data.Length - 1 && data[..len] == Payload(messages)
  {
    hide Room, Text.Join;
    var capacity := Capacity(messages);
    data := new char[capacity];
    JoinedLength(messages);
    len := Append(data, 0, PREFIX);
    len := AppendJoined(data, len, messages);
    len := Append(data, len, SUFFIX);
  }

  // ---- what a receiver can do with it ----

  /** The texts between the commas of the messages array. */
  function TakeApart(payload: string): Option<seq<string>> {
    if |payload| >= |PREFIX| + |SUFFIX| && payload[..|PREFIX|] == PREFIX && payload[|payload| - |SUFFIX|..] == SUFFIX
    then Some(Pieces(TOP, payload[|PREFIX|..|payload| - |SUFFIX|]))
    else None
  }

  lemma {:induction false} PiecesOfJoined(messages: seq<string>)
    requires messages != [] && forall m :: m in messages ==> IsJsonLike(m)
    ensures Pieces(TOP, Text.Join(messages, ',')) == messages
  {
    hide IsJsonLike;
    JsonIsBalanced(messages[0]);
    if |messages| == 1 {
      UncutIsOnePiece(TOP, messages[0]);
    } else {
      PiecesOfJoined(messages[1..]);
      CutAtComma(TOP, messages[0], Text.Join(messages[1..], ','));
    }
  }

  /** A bundle of JSON texts, even in the loose grammar, comes apart into exactly those texts, in order. */
  lemma BundleComesApart(messages: seq<string>)
    requires messages != [] && forall m :: m in messages ==> IsJsonLike(m)
    ensures TakeApart(Payload(messages)) == Some(messages)
  {
    var joined, payload := Text.Join(messages, ','), Payload(messages);
    PiecesOfJoined(messages);
    assert payload[..|PREFIX|] == PREFIX;
    assert payload[|payload| - |SUFFIX|..] == SUFFIX;
    assert payload[|PREFIX|..|payload| - |SUFFIX|] == joined;
  }

  /** Bundles of different messages are different. */
  lemma BundlesAreDistinct(a: seq<string>, b: seq<string>)
    requires a != [] && forall m :: m in a ==> IsJsonLike(m)
    requires b != [] && forall m :: m in b ==> IsJsonLike(m)
    requires Payload(a) == Payload(b)
    ensures a == b
  {
    hide Payload, TakeApart;
    BundleComesApart(a);
    BundleComesApart(b);
  }

  /** Without JSON texts they need not be. */
  lemma OtherMessagesMix()
    ensures Payload(["1,2"]) == Payload(["1", "2"])
  {
    assert ["1", "2"][1..] == ["2"];
    assert Text.Join(["1", "2"], ',') == "1" + [','] + "2";
  }

  /** The documents as the elements of one array. */
  ghost function AsElements(g: Grammar, docs: seq<Document>): (es: Elements)
    requires docs != []
    requires forall d :: d in docs ==> ValidDocument(g, d)
    ensures ValidElements(g, es)
  {
    assert docs[0] in docs && (|docs| > 1 ==> docs[1] in docs);
    var d := docs[0];
    assert ValidDocument(g, d);
    if |docs| == 1 then LastElement(d.before, d.value, d.after)
    else MoreElements(d.before, d.value, d.after, AsElements(g, docs[1..]))
  }

  function Texts(docs: seq<Document>): (ts: seq<string>)
    ensures |ts| == |docs|
  {
    seq(|docs|, i requires 0 <= i < |docs| => DocumentText(docs[i]))
  }

  lemma {:induction false} ElementsAreJoined(g: Grammar, docs: seq<Document>)
    requires docs != []
    requires forall d :: d in docs ==> ValidDocument(g, d)
    ensures ElementsText(AsElements(g, docs)) == Text.Join(Texts(docs), ',')
  {
    if |docs| > 1 {
      ElementsAreJoined(g, docs[1..]);
      assert Texts(docs)[1..] == Texts(docs[1..]);
    }
  }

  lemma Parsed(g: Grammar, messages: seq<string>) returns (docs: seq<Document>)
    requires forall m :: m in messages ==> Derives(g, m)
    ensures Texts(docs) == messages && forall d :: d in docs ==> ValidDocument(g, d)
  {
    docs := [];
    for i := 0 to |messages|
      invariant |docs| == i && Texts(docs) == messages[..i]
      invariant forall d :: d in docs ==> ValidDocument(g, d)
    {
      assert Derives(g, messages[i]);
      var d :| ValidDocument(g, d) && DocumentText(d) == messages[i];
      docs := docs + [d];
    }
  }

  function Plains(s: string): (units: seq<Unit>)
    ensures |units| == |s|
  {
    seq(|s|, i requires 0 <= i < |s| => Plain(s[i]))
  }

  lemma {:induction false} PlainsText(s: string)
    ensures UnitsText(Plains(s)) == s
  {
    if s != "" {
      PlainsText(s[1..]);
      assert Plains(s)[1..] == Plains(s[1..]);
    }
  }

  /** The payload of JSON texts is itself a JSON text, in either grammar: an object whose messages member is the array of
      the buffered texts. */
  lemma PayloadIsJson(g: Grammar, messages: seq<string>)
    requires messages != [] && forall m :: m in messages ==> Derives(g, m)
    ensures Derives(g, Payload(messages))
  {
    hide ElementsText;
    var docs := Parsed(g, messages);
    ElementsAreJoined(g, docs);
    EnvelopeIsJson(g, AsElements(g, docs));
  }

  /** The tree of the envelope around an array. */
  ghost function Envelope(es: Elements): Members {
    MoreMembers("", Plains("type"), ":", Quoted(Plains("bundle")), "", MessagesMember(es))
  }

  ghost function MessagesMember(es: Elements): Members {
    LastMember("", Plains("messages"), ":", Array(es), "")
  }

  lemma EnvelopeIsValid(g: Grammar, es: Elements)
    requires ValidElements(g, es)
    ensures ValidMembers(g, Envelope(es))
  {
    hide ValidElements, Plains, IsColon;
    JustColon();
    PlainsValid(g, "type");
    PlainsValid(g, "bundle");
    PlainsValid(g, "messages");
    assert ValidMembers(g, MessagesMember(es));
  }

  function InQuotes(s: string): string {
    "\"" + s + "\""
  }

  lemma PrefixParts()
    ensures PREFIX == "{" + InQuotes("type") + ":" + InQuotes("bundle") + "," + InQuotes("messages") + ":["
  {
  }

  lemma NameText(name: string)
    ensures QuotedText(Plains(name)) == InQuotes(name)
  {
    PlainsText(name);
  }

  lemma Concatenated(a: string, b: string, c: string, t: string)
    ensures "{" + ("" + a + ":" + b + "" + "," + ("" + c + ":" + ("[" + t + "]") + "")) + "}"
            == ("{" + a + ":" + b + "," + c + ":[") + t + "]}"
  {
    assert ":[" == ":" + "[" && "]}" == "]" + "}";
  }

  lemma EnvelopeText(es: Elements)
    ensures "{" + MembersText(Envelope(es)) + "}" == PREFIX + ElementsText(es) + SUFFIX
  {
    hide ElementsText, Plains, InQuotes, QuotedText;
    NameText("type");
    NameText("bundle");
    NameText("messages");
    PrefixParts();
    var a, b, c, t := InQuotes("type"), InQuotes("bundle"), InQuotes("messages"), ElementsText(es);
    Concatenated(a, b, c, t);
    assert MembersText(MessagesMember(es)) == "" + c + ":" + ("[" + t + "]") + "";
    assert MembersText(Envelope(es)) == "" + a + ":" + b + "" + "," + ("" + c + ":" + ("[" + t + "]") + "");
  }

  lemma EnvelopeIsJson(g: Grammar, es: Elements)
    requires ValidElements(g, es)
    ensures Derives(g, PREFIX + ElementsText(es) + SUFFIX)
  {
    hide ElementsText, ValidElements, Envelope, MembersText, ValidMembers;
    EnvelopeIsValid(g, es);
    EnvelopeText(es);
    var d := Document("", Object(Envelope(es)), "");
    assert ValidDocument(g, d);
    assert DocumentText(d) == PREFIX + ElementsText(es) + SUFFIX;
  }

  lemma JustColon()
    ensures IsColon(":")
  {
    assert ":"[0] == ':' && ":"[..0] == "" && ":"[1..] == "";
  }

  lemma {:induction false} PlainsValid(g: Grammar, s: string)
    requires forall c :: c in s ==> c >= ' ' && c != '"' && c != '\\'
    ensures ValidUnits(g, Plains(s))
  {
    if g.Exact? {
      if s != "" {
        assert s[0] in s && forall c :: c in s[1..] ==> c in s;
        PlainsValid(g, s[1..]);
        assert Plains(s)[1..] == Plains(s[1..]);
      }
    } else {
      forall u | u in Plains(s)
        ensures u.Plain? && u.c in s
      {
        var i :| 0 <= i < |s| && Plains(s)[i] == u;
      }
    }
  }
}
