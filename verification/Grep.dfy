/** grep's matcher against a meaning of patterns as sets of strings. A pattern is a sequence of
    items, each a character or a starred character, '.' standing for any; a leading '^' and a final
    '$' tie it to the ends of the text. */
module Grep {

  /** One character of a class, or any number of them. */
  datatype Item = One(c: char) | Star(c: char)

  /** What a pattern asks for: items in a row, and whether the match must reach the end. */
  datatype Pattern = Pattern(items: seq<Item>, toEnd: bool)

  /** A character and a star form an item, wherever they stand; only a last '$' without a star is
      special. */
  function Parse(re: string): Pattern {
    if re == "" then Pattern([], false)
    else if |re| >= 2 && re[1] == '*' then var p := Parse(re[2..]); p.(items := [Star(re[0])] + p.items)
    else if re == "$" then Pattern([], true)
    else var p := Parse(re[1..]); p.(items := [One(re[0])] + p.items)
  }

  predicate InClass(c: char, x: char) { c == '.' || c == x }

  predicate AllIn(c: char, s: string) { forall k :: 0 <= k < |s| ==> InClass(c, s[k]) }

  /** The strings a row of items stands for: concatenations of one string for each item. */
  ghost predicate Lang(items: seq<Item>, s: string)
    decreases |items|
  {
    if items == [] then s == ""
    else
      match items[0]
      case One(c) => |s| > 0 && InClass(c, s[0]) && Lang(items[1..], s[1..])
      case Star(c) => exists n :: 0 <= n <= |s| && AllIn(c, s[..n]) && Lang(items[1..], s[n..])
  }

  /** The first `n` characters of the text are in the language. */
  ghost predicate Fits(p: Pattern, text: string, n: nat) {
    n <= |text| && Lang(p.items, text[..n]) && (p.toEnd ==> n == |text|)
  }

  /** The pattern matches at the start of the text. */
  ghost predicate Here(re: string, text: string) { exists n: nat :: Fits(Parse(re), text, n) }

  /** The pattern matches somewhere in the text. */
  ghost predicate Matches(re: string, text: string) {
    if re != "" && re[0] == '^' then Here(re[1..], text)
    else exists i :: 0 <= i <= |text| && Here(re, text[i..])
  }

  // ---------- how a match here decomposes ----------

  lemma HereEmpty(text: string)
    ensures Here("", text)
  {
    assert Fits(Parse(""), text, 0);
  }

  lemma HereEnd(text: string)
    ensures Here("$", text) <==> text == ""
  {
    if text == "" { assert Fits(Parse("$"), text, 0); }
    if Here("$", text) {
      var n: nat :| Fits(Parse("$"), text, n);
      assert text[..n] == text;
    }
  }

  lemma HereOne(re: string, text: string)
    requires re != "" && !(|re| >= 2 && re[1] == '*') && re != "$"
    ensures Here(re, text) <==> text != "" && InClass(re[0], text[0]) && Here(re[1..], text[1..])
  {
    var p, q := Parse(re), Parse(re[1..]);
    assert p.items[1..] == q.items;
    if Here(re, text) {
      var n: nat :| Fits(p, text, n);
      assert text[..n][1..] == text[1..][..n - 1];
      assert Fits(q, text[1..], n - 1);
    }
    if text != "" && InClass(re[0], text[0]) && Here(re[1..], text[1..]) {
      var n: nat :| Fits(q, text[1..], n);
      assert text[..n + 1][1..] == text[1..][..n];
      assert Fits(p, text, n + 1);
    }
  }

  ghost predicate StarAt(c: char, re: string, text: string, k: nat)
    requires k <= |text|
  {
    AllIn(c, text[..k]) && Here(re, text[k..])
  }

  lemma StarTakes(re: string, text: string, n: nat) returns (k: nat)
    requires |re| >= 2 && re[1] == '*' && Fits(Parse(re), text, n)
    ensures k <= |text| && StarAt(re[0], re[2..], text, k)
  {
    var p, q := Parse(re), Parse(re[2..]);
    assert p.items[1..] == q.items && p.items[0] == Star(re[0]);
    k :| 0 <= k <= |text[..n]| && AllIn(re[0], text[..n][..k]) && Lang(p.items[1..], text[..n][k..]);
    assert text[..n][..k] == text[..k] && text[..n][k..] == text[k..][..n - k];
    assert Fits(q, text[k..], n - k);
  }

  lemma StarGives(re: string, text: string, k: nat)
    requires |re| >= 2 && re[1] == '*' && k <= |text| && StarAt(re[0], re[2..], text, k)
    ensures Here(re, text)
  {
    var p, q := Parse(re), Parse(re[2..]);
    assert p.items[1..] == q.items && p.items[0] == Star(re[0]);
    var n: nat :| Fits(q, text[k..], n);
    assert text[..n + k][..k] == text[..k] && text[..n + k][k..] == text[k..][..n];
    assert AllIn(re[0], text[..n + k][..k]) && Lang(p.items[1..], text[..n + k][k..]);
    assert Fits(p, text, n + k);
  }

  /** A star takes some characters of its class, and the rest of the pattern matches behind them. */
  lemma HereStar(re: string, text: string)
    requires |re| >= 2 && re[1] == '*'
    ensures Here(re, text) <==> exists k :: 0 <= k <= |text| && StarAt(re[0], re[2..], text, k)
  {
    if Here(re, text) {
      var n: nat :| Fits(Parse(re), text, n);
      var k := StarTakes(re, text, n);
    }
    if exists k :: 0 <= k <= |text| && StarAt(re[0], re[2..], text, k) {
      var k :| 0 <= k <= |text| && StarAt(re[0], re[2..], text, k);
      StarGives(re, text, k);
    }
  }

  // ---------- grep.c ----------

  method Matchhere(re: string, text: string) returns (r: bool)
    ensures r <==> Here(re, text)
    decreases |re|, |text|
  {
    if re == "" {
      HereEmpty(text);
      return true;
    }
    if |re| >= 2 && re[1] == '*' {
      HereStar(re, text);
      r := Matchstar(re[0], re[2..], text);
      return;
    }
    if re == "$" {
      HereEnd(text);
      return text == "";
    }
    HereOne(re, text);
    if text != "" && (re[0] == '.' || re[0] == text[0]) {
      r := Matchhere(re[1..], text[1..]);
      return;
    }
    r := false;
  }

  method Matchstar(c: char, re: string, text: string) returns (r: bool)
    ensures r <==> exists k :: 0 <= k <= |text| && StarAt(c, re, text, k)
    decreases |re|, |text| + 1
  {
    var k := 0;
    while true
      invariant 0 <= k <= |text| && AllIn(c, text[..k])
      invariant forall j :: 0 <= j < k ==> !StarAt(c, re, text, j)
      decreases |text| - k
    {
      var b := Matchhere(re, text[k..]);
      if b {
        assert StarAt(c, re, text, k);
        return true;
      }
      if k == |text| || !(text[k] == c || c == '.') {
        forall j | k < j <= |text| ensures !StarAt(c, re, text, j) { assert text[..j][k] == text[k]; }
        return false;
      }
      assert text[..k + 1] == text[..k] + [text[k]];
      k := k + 1;
    }
  }

  /** For every pattern and text, grep's match finds the pattern exactly when it is there. */
  method Match(re: string, text: string) returns (r: bool)
    ensures r <==> Matches(re, text)
  {
    if re != "" && re[0] == '^' {
      r := Matchhere(re[1..], text);
      return;
    }
    var i := 0;
    while i <= |text|
      invariant 0 <= i <= |text| + 1 && forall j :: 0 <= j < i && j <= |text| ==> !Here(re, text[j..])
    {
      var b := Matchhere(re, text[i..]);
      if b { return true; }
      i := i + 1;
    }
    r := false;
  }
}
