/** When two iCalendar encodings have the same content: unfold the lines, drop
    the volatile ones and compare. A text is a sequence of characters; lines
    end in CR LF, and CR LF followed by a space or a tab continues the line. */
module Folding {

  // ------------------------------------------------------------ the comparison

  /** Every CR LF `c` removed, leftmost first. */
  function DropFolds(s: string, c: char): string {
    if |s| >= 3 && s[0] == '\r' && s[1] == '\n' && s[2] == c then DropFolds(s[3..], c)
    else if s == "" then ""
    else [s[0]] + DropFolds(s[1..], c)
  }

  /** The pieces between CR LFs. */
  function SplitLines(s: string): (r: seq<string>)
    ensures |r| >= 1
  {
    if s == "" then [""]
    else if |s| >= 2 && s[0] == '\r' && s[1] == '\n' then [""] + SplitLines(s[2..])
    else
      var r := SplitLines(s[1..]);
      [[s[0]] + r[0]] + r[1..]
  }

  function JoinLines(lines: seq<string>): string {
    if lines == [] then ""
    else if |lines| == 1 then lines[0]
    else lines[0] + "\r\n" + JoinLines(lines[1..])
  }

  /** Upper case, for the letters that can turn up in the prefixes below. */
  function Upper(c: char): char {
    if 'a' <= c <= 'z' then (c as int - 32) as char
    else if c == '\U{131}' then 'I'
    else if c == '\U{17F}' then 'S'
    else c
  }

  predicate HasPrefix(line: string, p: string) {
    |p| <= |line| && forall i :: 0 <= i < |p| ==> Upper(line[i]) == p[i]
  }

  predicate Volatile(line: string) {
    HasPrefix(line, "DTSTAMP") || HasPrefix(line, "SEQUENCE") || HasPrefix(line, "LAST-MODIFIED")
  }

  function Keep(lines: seq<string>): seq<string> {
    if lines == [] then []
    else if Volatile(lines[0]) then Keep(lines[1..])
    else [lines[0]] + Keep(lines[1..])
  }

  function Stripped(s: string): string {
    JoinLines(Keep(SplitLines(DropFolds(DropFolds(s, ' '), '\t'))))
  }

  predicate SameContent(a: string, b: string) {
    Stripped(a) == Stripped(b)
  }

  lemma {:induction false} KeepSnoc(lines: seq<string>, line: string)
    ensures Keep(lines + [line]) == Keep(lines) + if Volatile(line) then [] else [line]
  {
    if lines == [] {
      assert lines + [line] == [line];
    } else {
      assert (lines + [line])[1..] == lines[1..] + [line];
      KeepSnoc(lines[1..], line);
    }
  }

  /** The loop over the lines. */
  method StripVolatile(b: string) returns (s: string)
    ensures s == Stripped(b)
  {
    var lines := SplitLines(DropFolds(DropFolds(b, ' '), '\t'));
    var out := [];
    for i := 0 to |lines|
      invariant out == Keep(lines[..i])
    {
      assert lines[..i + 1] == lines[..i] + [lines[i]];
      KeepSnoc(lines[..i], lines[i]);
      if Volatile(lines[i]) { continue; }
      out := out + [lines[i]];
    }
    assert lines[..|lines|] == lines;
    s := JoinLines(out);
  }

  // ------------------------------------------------------------ folded texts

  /** A folded text, piece by piece: characters of lines, line ends, and
      continuations by space or tab. */
  datatype Piece = Ch(c: char) | Sep | Fold(tab: bool)

  function Spell(p: Piece): string {
    match p
    case Ch(c) => [c]
    case Sep => "\r\n"
    case Fold(tab) => if tab then "\r\n\t" else "\r\n "
  }

  function Text(t: seq<Piece>): string {
    if t == [] then "" else Spell(t[0]) + Text(t[1..])
  }

  /** The lines it folds. */
  function LinesOf(t: seq<Piece>): (r: seq<string>)
    ensures |r| >= 1
  {
    if t == [] then [""]
    else
      var r := LinesOf(t[1..]);
      match t[0]
      case Ch(c) => [[c] + r[0]] + r[1..]
      case Sep => [""] + r
      case Fold(_) => r
  }

  predicate CleanLine(line: string) {
    && (forall i :: 0 <= i < |line| ==> line[i] != '\r' && line[i] != '\n')
    && (line != "" ==> line[0] != ' ' && line[0] != '\t')
  }

  /** No line holds CR or LF, or starts with a space or a tab. */
  predicate Clean(t: seq<Piece>) {
    forall i :: 0 <= i < |LinesOf(t)| ==> CleanLine(LinesOf(t)[i])
  }

  predicate Plain(t: seq<Piece>) {
    forall i :: 0 <= i < |t| ==> t[i].Ch? ==> t[i].c != '\r' && t[i].c != '\n'
  }

  /** The line under way does not start with a space or a tab. */
  predicate LeadOk(t: seq<Piece>) {
    if t == [] then true
    else match t[0]
      case Ch(c) => c != ' ' && c != '\t'
      case Sep => true
      case Fold(_) => LeadOk(t[1..])
  }

  predicate LeadsOk(t: seq<Piece>) {
    t != [] ==> LeadsOk(t[1..]) && (t[0].Sep? ==> LeadOk(t[1..]))
  }

  lemma {:induction false} CleanPieces(t: seq<Piece>)
    requires forall i :: 1 <= i < |LinesOf(t)| ==> CleanLine(LinesOf(t)[i])
    requires forall i :: 0 <= i < |LinesOf(t)[0]| ==> LinesOf(t)[0][i] != '\r' && LinesOf(t)[0][i] != '\n'
    ensures Plain(t) && LeadsOk(t)
    ensures CleanLine(LinesOf(t)[0]) ==> LeadOk(t)
  {
    if t != [] {
      var r := LinesOf(t[1..]);
      var l := LinesOf(t);
      match t[0] {
        case Ch(c) =>
          assert l[0] == [c] + r[0] && l[1..] == r[1..];
          assert forall i :: 0 <= i < |r[0]| ==> r[0][i] == l[0][i + 1];
          assert forall i :: 1 <= i < |r| ==> r[i] == l[1..][i - 1] == l[i];
          assert l[0][0] == c;
        case Sep =>
          assert forall i :: 0 <= i < |r| ==> r[i] == l[i + 1];
          assert CleanLine(l[1]);
        case Fold(_) =>
      }
      CleanPieces(t[1..]);
    }
  }

  function Unfold(t: seq<Piece>, tab: bool): seq<Piece> {
    if t == [] then []
    else if t[0] == Fold(tab) then Unfold(t[1..], tab)
    else [t[0]] + Unfold(t[1..], tab)
  }

  /** Dropping one kind of continuation keeps the lines and their shape. */
  lemma {:induction false} UnfoldKeeps(t: seq<Piece>, tab: bool)
    requires Plain(t) && LeadsOk(t)
    ensures LinesOf(Unfold(t, tab)) == LinesOf(t)
    ensures Plain(Unfold(t, tab)) && LeadsOk(Unfold(t, tab))
    ensures LeadOk(t) ==> LeadOk(Unfold(t, tab))
    ensures forall p :: p in Unfold(t, tab) ==> p in t && p != Fold(tab)
  {
    if t != [] {
      UnfoldKeeps(t[1..], tab);
      if t[0] != Fold(tab) {
        var u := Unfold(t, tab);
        assert u[1..] == Unfold(t[1..], tab) && u[0] == t[0];
      }
    }
  }

  lemma TextHead(t: seq<Piece>)
    requires t != []
    ensures Text(t) != ""
    ensures Text(t)[0] == if t[0].Ch? then t[0].c else '\r'
  {
  }

  /** Removing CR LF `c` from the text removes that kind of continuation. */
  lemma {:induction false} DropIsUnfold(t: seq<Piece>, tab: bool)
    requires Plain(t) && LeadsOk(t)
    ensures DropFolds(Text(t), if tab then '\t' else ' ') == Text(Unfold(t, tab))
  {
    if t != [] {
      DropIsUnfold(t[1..], tab);
      if t[1..] != [] { TextHead(t[1..]); }
      DropPiece(t[0], Text(t[1..]), tab);
    }
  }

  lemma DropPiece(p: Piece, rest: string, tab: bool)
    requires p.Ch? ==> p.c != '\r'
    requires p.Sep? && rest != "" ==> rest[0] != ' ' && rest[0] != '\t'
    ensures
      var c := if tab then '\t' else ' ';
      DropFolds(Spell(p) + rest, c) == (if p == Fold(tab) then "" else Spell(p)) + DropFolds(rest, c)
  {
    var c := if tab then '\t' else ' ';
    var s := Spell(p) + rest;
    match p
    case Ch(x) => assert s[1..] == rest;
    case Sep => DropPastSep(rest, c);
    case Fold(b) =>
      assert s[3..] == rest;
      if b != tab { DropNothing(if b then '\t' else ' ', rest, c); }
  }

  lemma DropHead(x: char, rest: string, c: char)
    requires x != '\r' || |rest| < 2 || rest[0] != '\n' || rest[1] != c
    ensures DropFolds([x] + rest, c) == [x] + DropFolds(rest, c)
  {
    var s := [x] + rest;
    assert s[1..] == rest;
    assert |rest| >= 2 ==> s[1] == rest[0] && s[2] == rest[1];
  }

  lemma DropPastSep(rest: string, c: char)
    requires rest != "" ==> rest[0] != c
    ensures DropFolds("\r\n" + rest, c) == "\r\n" + DropFolds(rest, c)
  {
    var r := ['\n'] + rest;
    DropHead('\n', rest, c);
    DropHead('\r', r, c);
    assert "\r\n" + rest == ['\r'] + r;
    assert "\r\n" + DropFolds(rest, c) == ['\r'] + (['\n'] + DropFolds(rest, c));
  }

  lemma DropNothing(d: char, rest: string, c: char)
    requires d != c && d != '\r'
    ensures DropFolds(['\r', '\n', d] + rest, c) == ['\r', '\n', d] + DropFolds(rest, c)
  {
    DropHead(d, rest, c);
    DropPastSep([d] + rest, c);
    assert ['\r', '\n', d] + rest == "\r\n" + ([d] + rest);
    assert ['\r', '\n', d] + DropFolds(rest, c) == "\r\n" + ([d] + DropFolds(rest, c));
  }

  /** With no continuations left, the text splits into its lines. */
  lemma {:induction false} SplitIsLines(t: seq<Piece>)
    requires Plain(t) && forall p :: p in t ==> !p.Fold?
    ensures SplitLines(Text(t)) == LinesOf(t)
  {
    if t != [] {
      SplitIsLines(t[1..]);
      var rest := Text(t[1..]);
      assert t[0] in t;
      match t[0]
      case Ch(x) => assert Text(t) == [x] + rest && Text(t)[1..] == rest;
      case Sep => assert Text(t) == ['\r', '\n'] + rest && Text(t)[2..] == rest;
    }
  }

  /** Unfolding inverts folding: what is left of any folded text is its lines
      without the volatile ones. */
  lemma StrippedFolding(t: seq<Piece>)
    requires Clean(t)
    ensures Stripped(Text(t)) == JoinLines(Keep(LinesOf(t)))
  {
    CleanPieces(t);
    DropIsUnfold(t, false);
    UnfoldKeeps(t, false);
    var u := Unfold(t, false);
    DropIsUnfold(u, true);
    UnfoldKeeps(u, true);
    var v := Unfold(u, true);
    forall p | p in v ensures !p.Fold? {
      assert p in u && p != Fold(true);
      assert p != Fold(false);
    }
    SplitIsLines(v);
  }

  // ------------------------------------------------- joining loses nothing

  predicate NoBreaks(lines: seq<string>) {
    forall i :: 0 <= i < |lines| ==> CleanLine(lines[i])
  }

  lemma {:induction false} SplitChars(line: string, rest: string)
    requires forall i :: 0 <= i < |line| ==> line[i] != '\r'
    ensures SplitLines(line) == [line]
    ensures SplitLines(line + "\r\n" + rest) == [line] + SplitLines(rest)
  {
    var s := line + "\r\n" + rest;
    if line == "" {
      assert s[2..] == rest;
    } else {
      assert s[1..] == line[1..] + "\r\n" + rest;
      SplitChars(line[1..], rest);
      assert [line[0]] + line[1..] == line;
    }
  }

  lemma {:induction false} SplitJoin(lines: seq<string>)
    requires NoBreaks(lines) && lines != []
    ensures SplitLines(JoinLines(lines)) == lines
  {
    if |lines| == 1 {
      SplitChars(lines[0], "");
    } else {
      var rest := lines[1..];
      assert NoBreaks(rest) && CleanLine(lines[0]);
      SplitJoin(rest);
      SplitChars(lines[0], JoinLines(rest));
      assert [lines[0]] + rest == lines;
    }
  }

  lemma {:induction false} KeepClean(lines: seq<string>)
    requires NoBreaks(lines)
    ensures NoBreaks(Keep(lines))
  {
    if lines != [] { KeepClean(lines[1..]); }
  }

  /** A text with no lines and a text of one empty line read the same. */
  function AtLeastOne(lines: seq<string>): seq<string> {
    if lines == [] then [""] else lines
  }

  lemma JoinInjective(a: seq<string>, b: seq<string>)
    requires NoBreaks(a) && NoBreaks(b)
    ensures JoinLines(a) == JoinLines(b) <==> AtLeastOne(a) == AtLeastOne(b)
  {
    SplitJoin(AtLeastOne(a));
    SplitJoin(AtLeastOne(b));
  }

  /** Two folded texts have the same content exactly when the same lines are
      left once the volatile ones are dropped. */
  lemma SameContentExactly(a: seq<Piece>, b: seq<Piece>)
    requires Clean(a) && Clean(b)
    ensures SameContent(Text(a), Text(b)) <==>
              AtLeastOne(Keep(LinesOf(a))) == AtLeastOne(Keep(LinesOf(b)))
  {
    StrippedFolding(a);
    StrippedFolding(b);
    KeepClean(LinesOf(a));
    KeepClean(LinesOf(b));
    JoinInjective(Keep(LinesOf(a)), Keep(LinesOf(b)));
  }

  /** Why the empty line counts as nothing: a text of volatile lines only
      compares equal to one empty line. */
  lemma OnlyVolatile()
    ensures SameContent("SEQUENCE", "") && Keep(["SEQUENCE"]) != Keep([""])
  {
    VolatileWord();
    StrippedLine("SEQUENCE");
    StrippedLine("");
    KeepOne("SEQUENCE");
    KeepOne("");
  }

  lemma VolatileWord()
    ensures Volatile("SEQUENCE") && !Volatile("")
  {
    assert HasPrefix("SEQUENCE", "SEQUENCE");
  }

  lemma KeepOne(line: string)
    ensures Keep([line]) == if Volatile(line) then [] else [line]
  {
    assert [line][1..] == [];
  }

  lemma StrippedLine(line: string)
    requires forall i :: 0 <= i < |line| ==> line[i] != '\r'
    ensures Stripped(line) == if Volatile(line) then "" else line
  {
    NoFoldsToDrop(line, ' ');
    NoFoldsToDrop(line, '\t');
    SplitChars(line, "");
    assert Keep([line]) == if Volatile(line) then [] else [line];
  }

  lemma {:induction false} NoFoldsToDrop(s: string, c: char)
    requires forall i :: 0 <= i < |s| ==> s[i] != '\r'
    ensures DropFolds(s, c) == s
  {
    if s != "" { NoFoldsToDrop(s[1..], c); }
  }
}
