/** The few string operations of Go's strings package that the relay uses. One char stands for one byte. */
module Text {

  /** strings.Split with a one-byte separator: always at least one part. */
  function Split(s: string, sep: char): (parts: seq<string>)
    ensures |parts| >= 1
    ensures forall k :: 0 <= k < |parts| ==> sep !in parts[k]
  {
    if s == "" then [""]
    else
      var rest := Split(s[1..], sep);
      if s[0] == sep then [""] + rest else [[s[0]] + rest[0]] + rest[1..]
  }

  /** strings.Join with a one-byte separator. */
  function Join(parts: seq<string>, sep: char): string {
    if parts == [] then ""
    else if |parts| == 1 then parts[0]
    else parts[0] + [sep] + Join(parts[1..], sep)
  }

  lemma {:induction false} SplitAtFirst(a: string, sep: char, b: string)
    requires sep !in a
    ensures Split(a + [sep] + b, sep) == [a] + Split(b, sep)
  {
    var s := a + [sep] + b;
    if a == "" {
      assert s[1..] == b;
    } else {
      assert s[1..] == a[1..] + [sep] + b;
      SplitAtFirst(a[1..], sep, b);
      assert [s[0]] + a[1..] == a;
    }
  }

  lemma {:induction false} SplitWithoutSeparator(a: string, sep: char)
    requires sep !in a
    ensures Split(a, sep) == [a]
  {
    if a != "" {
      SplitWithoutSeparator(a[1..], sep);
      assert [a[0]] + a[1..] == a;
    }
  }

  /** White space as strings.TrimSpace sees it in ASCII text. */
  predicate IsSpace(c: char) {
    c in "\t\n\r " || c as int == 11 || c as int == 12
  }

  function TrimLeft(s: string): string {
    if s != "" && IsSpace(s[0]) then TrimLeft(s[1..]) else s
  }

  function TrimRight(s: string): string {
    if s != "" && IsSpace(s[|s| - 1]) then TrimRight(s[..|s| - 1]) else s
  }

  function TrimSpace(s: string): string {
    TrimRight(TrimLeft(s))
  }

  /** Nothing but space, tab, line feed, vertical tab, form feed and carriage return. */
  predicate IsBlank(s: string) {
    forall i :: 0 <= i < |s| ==>
                  var c := s[i] as int;
                  c == 32 || c == 9 || c == 10 || c == 11 || c == 12 || c == 13
  }

  lemma {:induction false} TrimLeftCuts(s: string)
    ensures |TrimLeft(s)| <= |s| && s[|s| - |TrimLeft(s)|..] == TrimLeft(s) && IsBlank(s[..|s| - |TrimLeft(s)|])
    ensures TrimLeft(s) != "" ==> !IsBlank(TrimLeft(s)[..1])
  {
    if s != "" && IsSpace(s[0]) {
      TrimLeftCuts(s[1..]);
      assert s[..|s| - |TrimLeft(s)|] == [s[0]] + s[1..][..|s| - 1 - |TrimLeft(s)|];
    } else if s != "" {
      assert s[..1] == [s[0]] && s[..1][0] == s[0];
    }
  }

  lemma {:induction false} TrimRightCuts(s: string)
    ensures |TrimRight(s)| <= |s| && s[..|TrimRight(s)|] == TrimRight(s) && IsBlank(s[|TrimRight(s)|..])
    ensures TrimRight(s) != "" ==> !IsBlank(TrimRight(s)[|TrimRight(s)| - 1..])
  {
    if s != "" && IsSpace(s[|s| - 1]) {
      var front := s[..|s| - 1];
      TrimRightCuts(front);
      assert s[|TrimRight(s)|..] == front[|TrimRight(s)|..] + [s[|s| - 1]];
    } else if s != "" {
      var last := s[|s| - 1..];
      assert last == [s[|s| - 1]] && last[0] == s[|s| - 1];
    }
  }

  /** Trimming cuts off blank ends and leaves a text whose ends are not blank. */
  lemma TrimSpaceCuts(s: string) returns (a: string, b: string)
    ensures s == a + TrimSpace(s) + b && IsBlank(a) && IsBlank(b)
    ensures TrimSpace(s) != "" ==> !IsBlank(TrimSpace(s)[..1]) && !IsBlank(TrimSpace(s)[|TrimSpace(s)| - 1..])
  {
    hide TrimLeft, TrimRight, IsBlank;
    var left := TrimLeft(s);
    TrimLeftCuts(s);
    TrimRightCuts(left);
    a, b := s[..|s| - |left|], left[|TrimRight(left)|..];
    assert s == a + left && left == TrimRight(left) + b;
    if TrimRight(left) != "" {
      assert TrimRight(left)[..1] == left[..1];
    }
  }

  predicate HasPrefix(s: string, p: string) {
    p <= s
  }

  /** strings.Index for one byte; |s| when the byte does not occur. */
  function IndexOf(s: string, c: char): (i: nat)
    ensures i <= |s|
    ensures i < |s| ==> s[i] == c
    ensures forall k :: 0 <= k < i ==> s[k] != c
  {
    if s == "" || s[0] == c then 0 else 1 + IndexOf(s[1..], c)
  }
}
