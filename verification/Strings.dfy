/** Trimming and joining strings. */
module Strings {

  function TrimLeft(s: string, drop: char -> bool): (r: string)
    ensures |r| <= |s|
    ensures r != "" ==> !drop(r[0])
    ensures s == "" || !drop(s[0]) ==> r == s
  {
    if s != "" && drop(s[0]) then TrimLeft(s[1..], drop) else s
  }

  function TrimRight(s: string, drop: char -> bool): (r: string)
    ensures r <= s && (r != "" ==> !drop(r[|r| - 1]))
    ensures s == "" || !drop(s[|s| - 1]) ==> r == s
  {
    if s != "" && drop(s[|s| - 1]) then TrimRight(s[..|s| - 1], drop) else s
  }

  function Trim(s: string, drop: char -> bool): string { TrimRight(TrimLeft(s, drop), drop) }

  /** Trimming at the right drops only what it should. */
  lemma {:induction false} TrimRightDrops(s: string, drop: char -> bool, i: nat)
    requires |TrimRight(s, drop)| <= i < |s|
    ensures drop(s[i])
  {
    if i < |s| - 1 { TrimRightDrops(s[..|s| - 1], drop, i); }
  }

  predicate Space(c: char) {
    || '\t' <= c <= '\r' || c == ' ' || c == '\U{85}' || c == '\U{A0}' || c == '\U{1680}'
    || '\U{2000}' <= c <= '\U{200A}' || c in ['\U{2028}', '\U{2029}', '\U{202F}', '\U{205F}', '\U{3000}']
  }

  function TrimSpace(s: string): string { Trim(s, Space) }

  /** No blank at either end. */
  predicate Bare(s: string) {
    s == "" || (!Space(s[0]) && !Space(s[|s| - 1]))
  }

  lemma TrimIsBare(s: string)
    ensures Bare(TrimSpace(s))
  {
    var l := TrimLeft(s, Space);
    var r := TrimRight(l, Space);
    if r != "" { assert r[0] == l[0]; }
  }

  /** Exactly the bare strings are their own trimmed form. */
  lemma BareIsTrimmed(s: string)
    ensures TrimSpace(s) == s <==> Bare(s)
  {
    TrimIsBare(s);
  }

  predicate Blank(s: string) { forall i :: 0 <= i < |s| ==> Space(s[i]) }

  lemma {:induction false} TrimLeftOf(a: string, s: string)
    requires Blank(a)
    ensures TrimLeft(a + s, Space) == TrimLeft(s, Space)
  {
    if a == "" {
      assert a + s == s;
    } else {
      assert (a + s)[1..] == a[1..] + s;
      TrimLeftOf(a[1..], s);
    }
  }

  lemma {:induction false} TrimRightOf(s: string, b: string)
    requires Blank(b)
    ensures TrimRight(s + b, Space) == TrimRight(s, Space)
  {
    if b == "" {
      assert s + b == s;
    } else {
      assert (s + b)[..|s + b| - 1] == s + b[..|b| - 1];
      TrimRightOf(s, b[..|b| - 1]);
    }
  }

  /** Trimming drops the blanks at both ends, and no more. */
  lemma TrimsBlanks(a: string, s: string, b: string)
    requires Blank(a) && Bare(s) && Blank(b)
    ensures TrimSpace(a + s + b) == s
  {
    assert a + s + b == a + (s + b);
    TrimLeftOf(a, s + b);
    if s == "" {
      assert s + b == b + "";
      TrimLeftOf(b, "");
    } else {
      assert (s + b)[0] == s[0];
      TrimRightOf(s, b);
    }
  }

  /** Where c first stands in s, or -1. */
  function IndexOf(s: string, c: char): (i: int)
    ensures -1 <= i < |s| && (i >= 0 ==> s[i] == c)
    ensures forall j :: 0 <= j < (if i < 0 then |s| else i) ==> s[j] != c
  {
    if s == "" then -1
    else if s[0] == c then 0
    else var i := IndexOf(s[1..], c); if i < 0 then -1 else i + 1
  }

  /** Where c last stands in s, or -1. */
  function LastIndexOf(s: string, c: char): (i: int)
    ensures -1 <= i < |s| && (i >= 0 ==> s[i] == c)
    ensures forall j :: i < j < |s| ==> s[j] != c
  {
    if s == "" then -1
    else if s[|s| - 1] == c then |s| - 1
    else LastIndexOf(s[..|s| - 1], c)
  }

  predicate NulFree(s: string) {
    forall i :: 0 <= i < |s| ==> s[i] != '\0'
  }

  /** Two strings joined by a NUL come apart again when the first has none. */
  lemma NulJoin(a: string, n: string, b: string, m: string)
    requires NulFree(a) && NulFree(b) && a + "\0" + n == b + "\0" + m
    ensures a == b && n == m
  {
    var x, y := a + "\0" + n, b + "\0" + m;
    assert x[|a|] == '\0' && y[|b|] == '\0';
    assert forall i :: 0 <= i < |a| ==> x[i] == a[i];
    assert forall i :: 0 <= i < |b| ==> y[i] == b[i];
    assert a == x[..|a|] && b == y[..|b|];
    assert n == x[|a| + 1..] && m == y[|b| + 1..];
  }
}
