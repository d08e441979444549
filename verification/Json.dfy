/** JSON texts as RFC 8259 defines them, and the scan that finds the commas between them. A second, loose grammar leaves
    open what stands for a number or a literal name and what a string may hold or escape; the scan needs no more. */
module Json {

  /** One unit of a string: a character, or a backslash with the character it escapes (section 7). */
  datatype Unit = Plain(c: char) | Escape(c: char)

  datatype Value =
    | Scalar(text: string)
    | Quoted(units: seq<Unit>)
    | Array(elements: Elements)
    | Object(members: Members)

  /** white space, a value, white space; then a comma and the rest. */
  datatype Elements =
    | NoElements(space: string)
    | LastElement(before: string, value: Value, after: string)
    | MoreElements(before: string, value: Value, after: string, rest: Elements)

  datatype Members =
    | NoMembers(space: string)
    | LastMember(before: string, name: seq<Unit>, colon: string, value: Value, after: string)
    | MoreMembers(before: string, name: seq<Unit>, colon: string, value: Value, after: string, rest: Members)

  /** A JSON text: a value with white space around it. */
  datatype Document = Document(before: string, value: Value, after: string)

  predicate IsSpace(s: string) {
    forall c :: c in s ==> c in " \t\n\r"
  }

  datatype Grammar = Exact | Loose

  /** The structural characters, the quotation mark and the backslash. */
  predicate IsMark(c: char) {
    c == ',' || c == '[' || c == ']' || c == '{' || c == '}' || c == '"' || c == '\\'
  }

  predicate IsPlain(s: string) {
    forall c :: c in s ==> !IsMark(c) && c != ':'
  }

  predicate IsDigits(s: string) {
    s != "" && forall c :: c in s ==> '0' <= c <= '9'
  }

  /** A number is a sign, an integer, a fraction and an exponent (section 6). */
  predicate IsSign(s: string) {
    s == "" || s == "-"
  }

  predicate IsInteger(s: string) {
    IsDigits(s) && (|s| > 1 ==> s[0] != '0')
  }

  predicate IsFraction(s: string) {
    s == "" || (s[0] == '.' && IsDigits(s[1..]))
  }

  predicate IsExponent(s: string) {
    s == "" || ((s[0] == 'e' || s[0] == 'E')
                && (IsDigits(s[1..]) || (|s| > 1 && (s[1] == '+' || s[1] == '-') && IsDigits(s[2..]))))
  }

  ghost predicate IsNumber(s: string) {
    exists a, b, c, d :: IsSign(a) && IsInteger(b) && IsFraction(c) && IsExponent(d) && s == a + b + c + d
  }

  /** A literal name or a number (sections 3 and 6); loosely, any text without marks and colons. */
  ghost predicate IsScalar(g: Grammar, s: string) {
    if g.Loose? then IsPlain(s) else s == "true" || s == "false" || s == "null" || IsNumber(s)
  }

  /** White space, a colon, white space. */
  predicate IsColon(s: string) {
    exists i :: 0 <= i < |s| && s[i] == ':' && IsSpace(s[..i]) && IsSpace(s[i + 1..])
  }

  predicate IsHex(c: char) {
    '0' <= c <= '9' || 'a' <= c <= 'f' || 'A' <= c <= 'F'
  }

  predicate IsHexUnit(u: Unit) {
    u.Plain? && IsHex(u.c)
  }

  /** The contents of a string (section 7): no control characters, only the listed escapes, four digits behind \u. */
  predicate ExactUnits(units: seq<Unit>) {
    units == [] ||
    match units[0]
    case Plain(c) => c >= ' ' && c != '"' && c != '\\' && ExactUnits(units[1..])
    case Escape(c) =>
      if c == 'u' then
        && |units| >= 5 && IsHexUnit(units[1]) && IsHexUnit(units[2]) && IsHexUnit(units[3]) && IsHexUnit(units[4])
        && ExactUnits(units[5..])
      else c in "\"\\/bfnrt" && ExactUnits(units[1..])
  }

  predicate LooseUnits(units: seq<Unit>) {
    forall u :: u in units && u.Plain? ==> u.c != '"' && u.c != '\\'
  }

  predicate ValidUnits(g: Grammar, units: seq<Unit>) {
    if g.Loose? then LooseUnits(units) else ExactUnits(units)
  }

  ghost predicate ValidValue(g: Grammar, v: Value)
    decreases v
  {
    match v
    case Scalar(text) => IsScalar(g, text)
    case Quoted(units) => ValidUnits(g, units)
    case Array(es) => ValidElements(g, es)
    case Object(ms) => ValidMembers(g, ms)
  }

  ghost predicate ValidElements(g: Grammar, es: Elements)
    decreases es
  {
    match es
    case NoElements(space) => IsSpace(space)
    case LastElement(before, v, after) => IsSpace(before) && ValidValue(g, v) && IsSpace(after)
    case MoreElements(before, v, after, rest) =>
      IsSpace(before) && ValidValue(g, v) && IsSpace(after) && ValidElements(g, rest)
  }

  ghost predicate ValidMembers(g: Grammar, ms: Members)
    decreases ms
  {
    match ms
    case NoMembers(space) => IsSpace(space)
    case LastMember(before, name, colon, v, after) =>
      IsSpace(before) && ValidUnits(g, name) && IsColon(colon) && ValidValue(g, v) && IsSpace(after)
    case MoreMembers(before, name, colon, v, after, rest) =>
      && IsSpace(before) && ValidUnits(g, name) && IsColon(colon) && ValidValue(g, v) && IsSpace(after)
      && ValidMembers(g, rest)
  }

  ghost predicate ValidDocument(g: Grammar, d: Document) {
    IsSpace(d.before) && ValidValue(g, d.value) && IsSpace(d.after)
  }

  // ---- the text of a tree ----

  function UnitText(u: Unit): string {
    match u
    case Plain(c) => [c]
    case Escape(c) => ['\\', c]
  }

  function UnitsText(units: seq<Unit>): string {
    if units == [] then "" else UnitText(units[0]) + UnitsText(units[1..])
  }

  function QuotedText(units: seq<Unit>): string {
    "\"" + UnitsText(units) + "\""
  }

  function ValueText(v: Value): string {
    match v
    case Scalar(text) => text
    case Quoted(units) => QuotedText(units)
    case Array(es) => "[" + ElementsText(es) + "]"
    case Object(ms) => "{" + MembersText(ms) + "}"
  }

  function ElementsText(es: Elements): string {
    match es
    case NoElements(space) => space
    case LastElement(before, v, after) => before + ValueText(v) + after
    case MoreElements(before, v, after, rest) => before + ValueText(v) + after + "," + ElementsText(rest)
  }

  function MembersText(ms: Members): string {
    match ms
    case NoMembers(space) => space
    case LastMember(before, name, colon, v, after) => before + QuotedText(name) + colon + ValueText(v) + after
    case MoreMembers(before, name, colon, v, after, rest) =>
      before + QuotedText(name) + colon + ValueText(v) + after + "," + MembersText(rest)
  }

  function DocumentText(d: Document): string {
    d.before + ValueText(d.value) + d.after
  }

  ghost predicate Derives(g: Grammar, s: string) {
    exists d :: ValidDocument(g, d) && DocumentText(d) == s
  }

  /** A JSON text of RFC 8259. */
  ghost predicate IsJson(s: string) {
    Derives(Exact, s)
  }

  ghost predicate IsJsonLike(s: string) {
    Derives(Loose, s)
  }

  // ---- every JSON text is a loose one ----

  lemma NumberIsPlain(s: string)
    requires IsNumber(s)
    ensures IsPlain(s)
  {
    var a, b, c, d :| IsSign(a) && IsInteger(b) && IsFraction(c) && IsExponent(d) && s == a + b + c + d;
    PlainParts(c);
    PlainParts(d);
    assert IsPlain(a) && IsPlain(b);
  }

  lemma PlainParts(s: string)
    requires IsFraction(s) || IsExponent(s)
    ensures IsPlain(s)
  {
    if s != "" {
      assert s == [s[0]] + s[1..];
      if |s| > 1 { assert s[1..] == [s[1]] + s[2..]; }
    }
  }

  lemma ScalarIsPlain(g: Grammar, s: string)
    requires IsScalar(g, s)
    ensures IsPlain(s)
  {
    if g.Exact? && IsNumber(s) {
      NumberIsPlain(s);
    }
  }

  lemma {:induction false} UnitsAreLoose(g: Grammar, units: seq<Unit>)
    requires ValidUnits(g, units)
    ensures LooseUnits(units)
    decreases |units|
  {
    if g.Exact? && units != [] {
      var n := if units[0] == Escape('u') then 5 else 1;
      UnitsAreLoose(g, units[n..]);
      assert units == units[..n] + units[n..];
      assert forall k :: 0 <= k < n && units[..n][k].Plain? ==> units[k].c != '"' && units[k].c != '\\';
    }
  }

  lemma {:induction false} ValueIsLoose(g: Grammar, v: Value)
    requires ValidValue(g, v)
    ensures ValidValue(Loose, v)
    decreases v
  {
    hide IsNumber, IsPlain;
    match v {
      case Scalar(text) => ScalarIsPlain(g, text);
      case Quoted(units) => UnitsAreLoose(g, units);
      case Array(es) => ElementsAreLoose(g, es);
      case Object(ms) => MembersAreLoose(g, ms);
    }
  }

  lemma {:induction false} ElementsAreLoose(g: Grammar, es: Elements)
    requires ValidElements(g, es)
    ensures ValidElements(Loose, es)
    decreases es
  {
    hide ValidValue;
    match es {
      case NoElements(_) =>
      case LastElement(_, v, _) => ValueIsLoose(g, v);
      case MoreElements(_, v, _, rest) =>
        ValueIsLoose(g, v);
        ElementsAreLoose(g, rest);
    }
  }

  lemma {:induction false} MembersAreLoose(g: Grammar, ms: Members)
    requires ValidMembers(g, ms)
    ensures ValidMembers(Loose, ms)
    decreases ms
  {
    hide ValidValue, IsColon;
    match ms {
      case NoMembers(_) =>
      case LastMember(_, name, _, v, _) =>
        UnitsAreLoose(g, name);
        ValueIsLoose(g, v);
      case MoreMembers(_, name, _, v, _, rest) =>
        UnitsAreLoose(g, name);
        ValueIsLoose(g, v);
        MembersAreLoose(g, rest);
    }
  }

  lemma JsonIsJsonLike(s: string)
    requires IsJson(s)
    ensures IsJsonLike(s)
  {
    var d :| ValidDocument(Exact, d) && DocumentText(d) == s;
    ValueIsLoose(Exact, d.value);
    assert ValidDocument(Loose, d);
  }

  /** The loose grammar is wider: it admits the empty text, which is no JSON text. */
  lemma EmptyIsOnlyLike()
    ensures !IsJson("") && IsJsonLike("")
  {
    var d := Document("", Scalar(""), "");
    assert ValidDocument(Loose, d) && DocumentText(d) == "";
    forall d | ValidDocument(Exact, d)
      ensures DocumentText(d) != ""
    {
      if d.value.Scalar? && IsNumber(d.value.text) {
        var a, b, c, e :| IsSign(a) && IsInteger(b) && IsFraction(c) && IsExponent(e) && d.value.text == a + b + c + e;
      }
    }
  }

  // ---- the scan ----

  datatype Mode = Outside | Inside | Escaped

  /** How deep in brackets the scan is, and whether it is in a string. */
  datatype Scan = Scan(depth: int, mode: Mode)

  const TOP: Scan := Scan(0, Outside)

  function Next(st: Scan, c: char): Scan {
    match st.mode
    case Escaped => st.(mode := Inside)
    case Inside => if c == '\\' then st.(mode := Escaped) else if c == '"' then st.(mode := Outside) else st
    case Outside =>
      if c == '"' then st.(mode := Inside)
      else if c == '[' || c == '{' then st.(depth := st.depth + 1)
      else if c == ']' || c == '}' then st.(depth := st.depth - 1)
      else st
  }

  function After(st: Scan, s: string): Scan
    decreases s
  {
    if s == "" then st else After(Next(st, s[0]), s[1..])
  }

  /** The scan meets no comma that separates values at the top. */
  predicate Uncut(st: Scan, s: string)
    decreases s
  {
    s == "" || (!(st == TOP && s[0] == ',') && Uncut(Next(st, s[0]), s[1..]))
  }

  /** The pieces between the commas outside all brackets and strings. */
  function Pieces(st: Scan, s: string): (ps: seq<string>)
    ensures |ps| >= 1
    decreases s
  {
    if s == "" then [""]
    else
      var rest := Pieces(Next(st, s[0]), s[1..]);
      if st == TOP && s[0] == ',' then [""] + rest else [[s[0]] + rest[0]] + rest[1..]
  }

  lemma {:induction false} ScanJoined(st: Scan, a: string, b: string)
    ensures After(st, a + b) == After(After(st, a), b)
    ensures Uncut(st, a + b) <==> Uncut(st, a) && Uncut(After(st, a), b)
    decreases a
  {
    if a == "" {
      assert a + b == b;
    } else {
      assert (a + b)[1..] == a[1..] + b;
      ScanJoined(Next(st, a[0]), a[1..], b);
    }
  }

  /** A text that the scan leaves at the depth it began, without a separating comma on the way. */
  predicate Balanced(depth: nat, s: string) {
    After(Scan(depth, Outside), s) == Scan(depth, Outside) && Uncut(Scan(depth, Outside), s)
  }

  lemma BalancedJoined(depth: nat, a: string, b: string)
    requires Balanced(depth, a) && Balanced(depth, b)
    ensures Balanced(depth, a + b)
  {
    ScanJoined(Scan(depth, Outside), a, b);
  }

  lemma {:induction false} PlainIsBalanced(depth: nat, s: string)
    requires forall c :: c in s ==> !IsMark(c)
    ensures Balanced(depth, s)
  {
    if s != "" {
      assert s[0] in s;
      PlainIsBalanced(depth, s[1..]);
    }
  }

  lemma CommaInside(depth: nat)
    requires depth > 0
    ensures Balanced(depth, ",")
  {
    assert Next(Scan(depth, Outside), ',') == Scan(depth, Outside);
    assert ","[1..] == "";
  }

  lemma {:induction false} UnitsScan(depth: nat, units: seq<Unit>)
    requires LooseUnits(units)
    ensures After(Scan(depth, Inside), UnitsText(units)) == Scan(depth, Inside)
    ensures Uncut(Scan(depth, Inside), UnitsText(units))
  {
    if units != [] {
      UnitScan(depth, units[0]);
      UnitsScan(depth, units[1..]);
      ScanJoined(Scan(depth, Inside), UnitText(units[0]), UnitsText(units[1..]));
    }
  }

  lemma UnitScan(depth: nat, u: Unit)
    requires u.Plain? ==> u.c != '"' && u.c != '\\'
    ensures After(Scan(depth, Inside), UnitText(u)) == Scan(depth, Inside)
    ensures Uncut(Scan(depth, Inside), UnitText(u))
  {
    match u {
      case Plain(c) =>
        assert [c][1..] == "";
      case Escape(c) =>
        assert ['\\', c][1..] == [c] && [c][1..] == "";
        assert After(Scan(depth, Escaped), [c]) == After(Scan(depth, Inside), "");
        assert Uncut(Scan(depth, Escaped), [c]);
    }
  }

  lemma QuotedIsBalanced(depth: nat, units: seq<Unit>)
    requires LooseUnits(units)
    ensures Balanced(depth, QuotedText(units))
  {
    var open, text := Scan(depth, Outside), UnitsText(units);
    UnitsScan(depth, units);
    ScanJoined(Scan(depth, Inside), text, "\"");
    assert ("\"" + text + "\"")[1..] == text + "\"";
    assert After(Scan(depth, Inside), "\"") == open by { assert "\""[1..] == ""; }
    assert Uncut(Scan(depth, Inside), "\"") by { assert "\""[1..] == ""; }
  }

  lemma BracketsAreBalanced(depth: nat, open: char, text: string, close: char)
    requires (open == '[' && close == ']') || (open == '{' && close == '}')
    requires Balanced(depth + 1, text)
    ensures Balanced(depth, [open] + text + [close])
  {
    var inner := Scan(depth + 1, Outside);
    ScanJoined(inner, text, [close]);
    assert ([open] + text + [close])[1..] == text + [close];
    assert [close][1..] == "";
    assert After(inner, [close]) == Scan(depth, Outside);
    assert Uncut(inner, [close]);
  }

  lemma SpaceIsBalanced(depth: nat, s: string)
    requires IsSpace(s)
    ensures Balanced(depth, s)
  {
    PlainIsBalanced(depth, s);
  }

  lemma ColonIsBalanced(depth: nat, s: string)
    requires IsColon(s)
    ensures Balanced(depth, s)
  {
    var i :| 0 <= i < |s| && s[i] == ':' && IsSpace(s[..i]) && IsSpace(s[i + 1..]);
    assert s == s[..i] + [':'] + s[i + 1..];
    PlainIsBalanced(depth, s);
  }

  lemma {:induction false} ValueIsBalanced(depth: nat, v: Value)
    requires ValidValue(Loose, v)
    ensures Balanced(depth, ValueText(v))
    decreases v
  {
    hide Balanced;
    match v {
      case Scalar(text) => PlainIsBalanced(depth, text);
      case Quoted(units) => QuotedIsBalanced(depth, units);
      case Array(es) =>
        ElementsAreBalanced(depth + 1, es);
        BracketsAreBalanced(depth, '[', ElementsText(es), ']');
      case Object(ms) =>
        MembersAreBalanced(depth + 1, ms);
        BracketsAreBalanced(depth, '{', MembersText(ms), '}');
    }
  }

  lemma SpacedIsBalanced(depth: nat, before: string, s: string, after: string)
    requires IsSpace(before) && IsSpace(after) && Balanced(depth, s)
    ensures Balanced(depth, before + s + after)
  {
    hide Balanced;
    SpaceIsBalanced(depth, before);
    SpaceIsBalanced(depth, after);
    BalancedJoined(depth, before, s);
    BalancedJoined(depth, before + s, after);
  }

  lemma {:induction false} ElementsAreBalanced(depth: nat, es: Elements)
    requires depth > 0 && ValidElements(Loose, es)
    ensures Balanced(depth, ElementsText(es))
    decreases es
  {
    hide Balanced;
    match es {
      case NoElements(space) => SpaceIsBalanced(depth, space);
      case LastElement(before, v, after) =>
        ValueIsBalanced(depth, v);
        SpacedIsBalanced(depth, before, ValueText(v), after);
      case MoreElements(before, v, after, rest) =>
        ValueIsBalanced(depth, v);
        SpacedIsBalanced(depth, before, ValueText(v), after);
        CommaInside(depth);
        ElementsAreBalanced(depth, rest);
        BalancedJoined(depth, before + ValueText(v) + after, ",");
        BalancedJoined(depth, before + ValueText(v) + after + ",", ElementsText(rest));
    }
  }

  lemma MemberIsBalanced(depth: nat, before: string, name: seq<Unit>, colon: string, value: string, after: string)
    requires IsSpace(before) && LooseUnits(name) && IsColon(colon) && Balanced(depth, value) && IsSpace(after)
    ensures Balanced(depth, before + QuotedText(name) + colon + value + after)
  {
    hide Balanced;
    SpaceIsBalanced(depth, before);
    QuotedIsBalanced(depth, name);
    ColonIsBalanced(depth, colon);
    SpaceIsBalanced(depth, after);
    BalancedJoined(depth, before, QuotedText(name));
    BalancedJoined(depth, before + QuotedText(name), colon);
    BalancedJoined(depth, before + QuotedText(name) + colon, value);
    BalancedJoined(depth, before + QuotedText(name) + colon + value, after);
  }

  lemma {:induction false} MembersAreBalanced(depth: nat, ms: Members)
    requires depth > 0 && ValidMembers(Loose, ms)
    ensures Balanced(depth, MembersText(ms))
    decreases ms
  {
    hide Balanced, IsColon;
    match ms {
      case NoMembers(space) => SpaceIsBalanced(depth, space);
      case LastMember(before, name, colon, v, after) =>
        ValueIsBalanced(depth, v);
        MemberIsBalanced(depth, before, name, colon, ValueText(v), after);
      case MoreMembers(before, name, colon, v, after, rest) =>
        ValueIsBalanced(depth, v);
        MemberIsBalanced(depth, before, name, colon, ValueText(v), after);
        CommaInside(depth);
        MembersAreBalanced(depth, rest);
        BalancedJoined(depth, before + QuotedText(name) + colon + ValueText(v) + after, ",");
        BalancedJoined(depth, before + QuotedText(name) + colon + ValueText(v) + after + ",", MembersText(rest));
    }
  }

  /** No comma of a JSON text separates anything at the top, and its brackets and strings close. */
  lemma JsonIsBalanced(s: string)
    requires IsJsonLike(s)
    ensures Balanced(0, s)
  {
    hide Balanced;
    var d :| ValidDocument(Loose, d) && DocumentText(d) == s;
    ValueIsBalanced(0, d.value);
    SpacedIsBalanced(0, d.before, ValueText(d.value), d.after);
  }

  lemma {:induction false} UncutIsOnePiece(st: Scan, s: string)
    requires Uncut(st, s)
    ensures Pieces(st, s) == [s]
    decreases s
  {
    if s != "" {
      UncutIsOnePiece(Next(st, s[0]), s[1..]);
      assert [s[0]] + s[1..] == s;
    }
  }

  lemma {:induction false} CutAtComma(st: Scan, a: string, b: string)
    requires Uncut(st, a) && After(st, a) == TOP
    ensures Pieces(st, a + "," + b) == [a] + Pieces(TOP, b)
    decreases a
  {
    var s := a + "," + b;
    if a == "" {
      assert s[1..] == b && s[0] == ',';
    } else {
      assert s[1..] == a[1..] + "," + b;
      CutAtComma(Next(st, a[0]), a[1..], b);
      assert [a[0]] + a[1..] == a;
    }
  }
}
