/**
  The media type of an upload: a `Content-Type` value up to its first semicolon, without white space around it.
 */
module MediaTypes {
  /** The ASCII characters Python's `strip` removes. */
  const WHITESPACE: set<char> :=
    {' ', '\t', '\n', '\r', 11 as char, 12 as char, 28 as char, 29 as char, 30 as char, 31 as char}

  function UpToSemicolon(s: string): string {
    if s == "" || s[0] == ';' then "" else [s[0]] + UpToSemicolon(s[1..])
  }

  function StripLeft(s: string): string {
    if s != "" && s[0] in WHITESPACE then StripLeft(s[1..]) else s
  }

  function StripRight(s: string): string {
    if s != "" && s[|s| - 1] in WHITESPACE then StripRight(s[..|s| - 1]) else s
  }

  /** The media type without its parameters. */
  function BareType(raw: string): string {
    StripRight(StripLeft(UpToSemicolon(raw)))
  }

  predicate IsSpace(c: char) {
    9 <= c as int <= 13 || 28 <= c as int <= 32
  }

  predicate AllSpace(s: string) {
    forall i :: 0 <= i < |s| ==> IsSpace(s[i])
  }

  predicate Trimmed(s: string) {
    s == "" || (!IsSpace(s[0]) && !IsSpace(s[|s| - 1]))
  }

  lemma {:induction false} CutAtSemicolon(a: string, b: string)
    requires ';' !in a
    ensures UpToSemicolon(a + ";" + b) == a && UpToSemicolon(a) == a
  {
    var whole := a + ";" + b;
    if a != "" {
      assert whole[0] == a[0] && whole[1..] == a[1..] + ";" + b;
      CutAtSemicolon(a[1..], b);
    }
  }

  lemma {:induction false} StripLeftSplits(s: string) returns (l: string)
    ensures AllSpace(l) && s == l + StripLeft(s) && (StripLeft(s) == "" || !IsSpace(StripLeft(s)[0]))
  {
    if s != "" && s[0] in WHITESPACE {
      var rest := StripLeftSplits(s[1..]);
      l := [s[0]] + rest;
      assert s == [s[0]] + s[1..];
    } else {
      l := "";
    }
  }

  lemma {:induction false} StripRightSplits(s: string) returns (r: string)
    ensures AllSpace(r) && s == StripRight(s) + r && (StripRight(s) == "" || !IsSpace(StripRight(s)[|StripRight(s)| - 1]))
  {
    if s != "" && s[|s| - 1] in WHITESPACE {
      var rest := StripRightSplits(s[..|s| - 1]);
      r := rest + [s[|s| - 1]];
      assert s == s[..|s| - 1] + [s[|s| - 1]];
    } else {
      r := "";
    }
  }

  /** A value without parameters is its media type with white space around it. */
  lemma TypeIsTrimmed(raw: string) returns (l: string, r: string)
    requires ';' !in raw
    ensures AllSpace(l) && AllSpace(r) && raw == l + BareType(raw) + r && Trimmed(BareType(raw))
  {
    CutAtSemicolon(raw, "");
    l := StripLeftSplits(raw);
    r := StripRightSplits(StripLeft(raw));
    assert BareType(raw) != "" ==> BareType(raw)[0] == StripLeft(raw)[0];
  }

  /** Nothing else is: the white space around a trimmed type does not matter. */
  lemma SpaceAroundTypes(l: string, bare: string, r: string)
    requires AllSpace(l) && AllSpace(r) && Trimmed(bare) && ';' !in bare
    ensures BareType(l + bare + r) == bare
  {
    var raw := l + bare + r;
    assert ';' !in l && ';' !in r;
    var x, y := TypeIsTrimmed(raw);
    SameCore(x, BareType(raw), y, l, bare, r);
  }

  lemma SameCore(l: string, m: string, r: string, x: string, n: string, y: string)
    requires l + m + r == x + n + y && AllSpace(l) && AllSpace(r) && AllSpace(x) && AllSpace(y) && Trimmed(m) && Trimmed(n)
    ensures m == n
  {
    var whole := l + m + r;
    EmptyCore(l, m, r);
    EmptyCore(x, n, y);
    if m != "" {
      assert whole[|l|] == m[0] && whole[|x|] == n[0];
      assert |l| == |x|;
      assert whole[|l| + |m| - 1] == m[|m| - 1] && whole[|x| + |n| - 1] == n[|n| - 1];
      assert |m| == |n|;
      assert m == whole[|l|..|l| + |m|] && n == whole[|x|..|x| + |n|];
    }
  }

  lemma EmptyCore(l: string, m: string, r: string)
    requires AllSpace(l) && AllSpace(r) && Trimmed(m)
    ensures m == "" <==> AllSpace(l + m + r)
  {
    assert m != "" ==> (l + m + r)[|l|] == m[0];
  }

  /** Parameters do not matter. */
  lemma ParametersAreDropped(a: string, b: string)
    requires ';' !in a
    ensures BareType(a + ";" + b) == BareType(a)
  {
    CutAtSemicolon(a, b);
  }
}
