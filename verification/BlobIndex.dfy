/** The name index of the blob store: names kept as KV keys, listed a page at a
    time in byte order. */
module BlobIndex {
  import opened ByteOrder
  import opened Wrappers

  // ------------------------------------------------------------- names and keys

  predicate NameChar(c: char) {
    'A' <= c <= 'Z' || 'a' <= c <= 'z' || '0' <= c <= '9' || c in ['.', '_', '-', '/']
  }

  const MAX_NAME_BYTES := 250
  const MAX_SEGMENT_BYTES := 128

  function Segments(s: string): (r: seq<string>)
    ensures r != []
  {
    if s == "" then [""]
    else
      var rest := Segments(s[1..]);
      if s[0] == '/' then [""] + rest else [[s[0]] + rest[0]] + rest[1..]
  }

  predicate SegmentOk(seg: string) {
    && 1 <= |seg| <= MAX_SEGMENT_BYTES && seg != "." && seg != ".." && seg[0] != '_'
    && forall i :: 0 <= i < |seg| ==> NameChar(seg[i]) && seg[i] != '/'
  }

  predicate ValidName(name: string) {
    && 1 <= |name| <= MAX_NAME_BYTES
    && forall i :: 0 <= i < |Segments(name)| ==> SegmentOk(Segments(name)[i])
  }

  function Join(segs: seq<string>): string
    requires segs != []
  {
    if |segs| == 1 then segs[0] else segs[0] + "/" + Join(segs[1..])
  }

  ghost predicate SlashFree(segs: seq<string>) { forall i :: 0 <= i < |segs| ==> '/' !in segs[i] }

  /** The pieces between the slashes, put together again, are the name. */
  lemma {:induction false} SegmentsJoin(s: string)
    ensures Join(Segments(s)) == s && SlashFree(Segments(s))
  {
    if s != "" {
      var rest, all := Segments(s[1..]), Segments(s);
      SegmentsJoin(s[1..]);
      assert s == [s[0]] + s[1..];
      if s[0] == '/' {
        assert all[1..] == rest;
        assert "" + "/" + Join(rest) == s;
      } else {
        assert all[1..] == rest[1..];
        if |rest| > 1 { assert [s[0]] + rest[0] + "/" + Join(rest[1..]) == [s[0]] + Join(rest); }
      }
    }
  }

  lemma {:induction false} SegmentsOf(seg: string, s: string)
    requires '/' !in seg && (s == "" || s[0] == '/')
    ensures Segments(seg + s) == [seg] + Segments(s)[1..]
  {
    if seg == "" {
      assert seg + s == s;
      assert Segments(s)[0] == "";
    } else {
      assert (seg + s)[1..] == seg[1..] + s && (seg + s)[0] == seg[0];
      SegmentsOf(seg[1..], s);
      var rest := Segments(seg[1..] + s);
      assert rest[0] == seg[1..] && rest[1..] == Segments(s)[1..];
      assert [seg[0]] + seg[1..] == seg;
    }
  }

  /** Only the name's own segments join to it. */
  lemma {:induction false} JoinSegments(segs: seq<string>)
    requires segs != [] && SlashFree(segs)
    ensures Segments(Join(segs)) == segs
  {
    if |segs| == 1 {
      SegmentsOf(segs[0], "");
      assert segs[0] + "" == segs[0];
    } else {
      var tail := "/" + Join(segs[1..]);
      JoinSegments(segs[1..]);
      assert segs[0] + tail == Join(segs) && tail[1..] == Join(segs[1..]);
      assert Segments(tail) == [""] + segs[1..];
      SegmentsOf(segs[0], tail);
    }
  }

  /** The segment rule: `[A-Za-z0-9._-]{1,128}`, not `.` or `..`, no `_` first. */
  predicate Segment(s: string) {
    && 0 < |s| < 129 && s[0] != '_' && s !in {".", ".."}
    && forall c :: c in s ==> 'a' <= c <= 'z' || 'A' <= c <= 'Z' || '0' <= c <= '9' || c in {'.', '_', '-'}
  }

  /** A valid name is exactly some segments joined by slashes, of at most 250
      characters together. */
  lemma ValidNameExactly(name: string, segs: seq<string>)
    requires segs != [] && SlashFree(segs) && Join(segs) == name
    ensures ValidName(name) <==> |name| <= 250 && forall i :: 0 <= i < |segs| ==> Segment(segs[i])
  {
    JoinSegments(segs);
    assert forall i :: 0 <= i < |segs| ==> (Segment(segs[i]) <==> SegmentOk(segs[i])) by {
      forall i | 0 <= i < |segs| ensures Segment(segs[i]) <==> SegmentOk(segs[i]) { SameSegment(segs[i]); }
    }
    if name == "" { assert segs[0] == "" && !SegmentOk(segs[0]) by { assert Segments("") == [""]; } }
  }

  lemma SameSegment(s: string)
    ensures Segment(s) <==> SegmentOk(s)
  {
    assert forall i :: 0 <= i < |s| ==> s[i] in s;
  }

  predicate Chars(seg: string) { forall i :: 0 <= i < |seg| ==> NameChar(seg[i]) }

  lemma {:induction false} SegmentChars(s: string)
    requires forall i :: 0 <= i < |Segments(s)| ==> Chars(Segments(s)[i])
    ensures Chars(s)
  {
    if s != "" {
      var rest, all := Segments(s[1..]), Segments(s);
      forall i | 0 <= i < |rest| ensures Chars(rest[i]) {
        if s[0] == '/' { assert all[i + 1] == rest[i]; }
        else if i > 0 { assert all[i] == rest[i]; }
        else { assert Chars(all[0]) && all[0][1..] == rest[0]; }
      }
      SegmentChars(s[1..]);
      assert NameChar(s[0]) by {
        if s[0] != '/' { assert Chars(all[0]) && all[0][0] == s[0]; }
      }
      assert s == [s[0]] + s[1..];
    }
  }

  lemma ValidIsOk(name: string)
    requires ValidName(name)
    ensures NameOk(name)
  {
    forall i | 0 <= i < |Segments(name)| ensures Chars(Segments(name)[i]) {
      assert SegmentOk(Segments(name)[i]);
    }
    SegmentChars(name);
  }

  /** What the paging needs of a valid name: not empty, and of the name
      characters. */
  predicate NameOk(s: string) {
    s != "" && forall i :: 0 <= i < |s| ==> NameChar(s[i])
  }

  function Replaced(s: string, from: char, to: char): (r: string)
    ensures |r| == |s| && forall i :: 0 <= i < |s| ==> r[i] == if s[i] == from then to else s[i]
  {
    if s == "" then "" else [if s[0] == from then to else s[0]] + Replaced(s[1..], from, to)
  }

  const PREFIX := "n:"

  function NameKey(name: string): string { PREFIX + Replaced(name, '/', ':') }

  function KeyName(key: string): string {
    Replaced(if PREFIX <= key then key[|PREFIX|..] else key, ':', '/')
  }

  /** A name comes back from its key exactly when it has no ':'. */
  lemma NameRoundTrip(name: string)
    ensures KeyName(NameKey(name)) == name <==> ':' !in name
  {
    var k := NameKey(name);
    assert k[|PREFIX|..] == Replaced(name, '/', ':');
    var back := KeyName(k);
    assert forall i :: 0 <= i < |name| ==> back[i] == if name[i] == ':' then '/' else name[i];
    if ':' in name {
      var i :| 0 <= i < |name| && name[i] == ':';
      assert back[i] != name[i];
    }
  }

  // --------------------------------------------------------------------- a page

  datatype NameRow = NameRow(name: string, sha: string)

  /** A KV pair; a value that does not decode is None. */
  datatype Pair = Pair(key: string, value: Option<string>)

  predicate Ordered(rows: seq<NameRow>) {
    forall i, j :: 0 <= i < j < |rows| ==> Less(rows[i].name, rows[j].name)
  }

  predicate Apart(rows: seq<NameRow>) {
    forall i, j :: 0 <= i < j < |rows| ==> rows[i].name != rows[j].name
  }

  /** An index as the store writes it: one pair per key, and a name key is the
      key of a valid name. */
  ghost predicate Index(pairs: seq<Pair>) {
    && (forall i, j :: 0 <= i < j < |pairs| ==> pairs[i].key != pairs[j].key)
    && (forall i :: 0 <= i < |pairs| && PREFIX <= pairs[i].key ==> KeyOk(pairs[i].key))
  }

  ghost predicate KeyOk(key: string) { exists name :: NameOk(name) && key == NameKey(name) }

  lemma KeyOkRoundTrip(key: string)
    requires KeyOk(key)
    ensures NameOk(KeyName(key)) && NameKey(KeyName(key)) == key
  {
    var name :| NameOk(name) && key == NameKey(name);
    assert ':' !in name by { NoColon(name); }
    NameRoundTrip(name);
  }

  lemma NoColon(name: string)
    requires NameOk(name)
    ensures ':' !in name
  {
    forall i | 0 <= i < |name| ensures name[i] != ':' { assert NameChar(name[i]); }
  }

  predicate Shown(p: Pair, prefix: string) {
    PREFIX <= p.key && prefix <= KeyName(p.key) && p.value.Some?
  }

  function RowFor(p: Pair): NameRow
    requires p.value.Some?
  {
    NameRow(KeyName(p.key), p.value.value)
  }

  /** The rows an index shows under a prefix. */
  ghost function Rows(pairs: seq<Pair>, prefix: string): set<NameRow> {
    set i | 0 <= i < |pairs| && Shown(pairs[i], prefix) :: RowFor(pairs[i])
  }

  function Insert(rows: seq<NameRow>, r: NameRow): (to: seq<NameRow>)
    ensures multiset(to) == multiset(rows) + multiset{r}
  {
    if rows == [] || Less(r.name, rows[0].name) then [r] + rows
    else
      assert rows == [rows[0]] + rows[1..];
      [rows[0]] + Insert(rows[1..], r)
  }

  function Sorted(rows: seq<NameRow>): (to: seq<NameRow>)
    ensures multiset(to) == multiset(rows)
  {
    if rows == [] then []
    else
      assert rows == rows[..|rows| - 1] + [rows[|rows| - 1]];
      Insert(Sorted(rows[..|rows| - 1]), rows[|rows| - 1])
  }

  /** The first row after the cursor, as a search on ordered rows finds it. */
  function FirstAfter(rows: seq<NameRow>, after: string): (i: nat)
    ensures i <= |rows| && (forall j :: 0 <= j < i ==> !Less(after, rows[j].name))
    ensures i < |rows| ==> Less(after, rows[i].name)
  {
    if rows == [] || Less(after, rows[0].name) then 0 else 1 + FirstAfter(rows[1..], after)
  }

  lemma ConsOrdered(r: NameRow, rest: seq<NameRow>)
    requires Ordered(rest) && forall x :: x in rest ==> Less(r.name, x.name)
    ensures Ordered([r] + rest)
  {
  }

  lemma {:induction false} InsertOrdered(rows: seq<NameRow>, r: NameRow)
    requires Ordered(rows) && forall x :: x in rows ==> x.name != r.name
    ensures Ordered(Insert(rows, r))
  {
    if rows != [] {
      LessTotal(r.name, rows[0].name);
      if Less(r.name, rows[0].name) {
        forall j | 0 <= j < |rows| ensures Less(r.name, rows[j].name) {
          if j > 0 { LessTransitive(r.name, rows[0].name, rows[j].name); }
        }
      } else {
        InsertOrdered(rows[1..], r);
        var rest := Insert(rows[1..], r);
        forall x | x in rest ensures Less(rows[0].name, x.name) {
          assert x in multiset(rest);
        }
        ConsOrdered(rows[0], rest);
      }
    }
  }

  lemma {:induction false} SortedOrdered(rows: seq<NameRow>)
    requires Apart(rows)
    ensures Ordered(Sorted(rows))
  {
    if rows != [] {
      var pre, r := rows[..|rows| - 1], rows[|rows| - 1];
      SortedOrdered(pre);
      forall x | x in Sorted(pre) ensures x.name != r.name {
        assert x in multiset(pre);
      }
      InsertOrdered(Sorted(pre), r);
    }
  }

  /** One page: in order, after the cursor, at most `limit` rows when that is
      positive. What it leaves out lies past `next`, its last name; `next` is
      empty exactly when nothing after the cursor is left out. */
  ghost predicate IsPage(all: set<NameRow>, after: string, limit: int, page: seq<NameRow>, next: string) {
    && Ordered(page) && (limit > 0 ==> |page| <= limit)
    && (forall r :: r in page ==> r in all && Less(after, r.name))
    && (forall r :: r in all && Less(after, r.name) && r !in page ==> next != "" && Less(next, r.name))
    && (next != "" ==>
          && |page| == limit > 0 && page[limit - 1].name == next
          && exists r :: r in all && Less(next, r.name))
  }

  /** What a cursor leaves of ordered rows. */
  lemma RestAfter(rows: seq<NameRow>, after: string)
    requires Ordered(rows)
    ensures var rest := rows[FirstAfter(rows, after)..];
      Ordered(rest) && forall r :: r in rest <==> r in rows && Less(after, r.name)
  {
    var i := FirstAfter(rows, after);
    var rest := rows[i..];
    forall j | i <= j < |rows| ensures Less(after, rows[j].name) {
      if j > i { LessTransitive(after, rows[i].name, rows[j].name); }
    }
    forall r | r in rows && Less(after, r.name) ensures r in rest {
      var j :| 0 <= j < |rows| && rows[j] == r;
      assert rest[j - i] == r;
    }
  }

  /** What a limit leaves of ordered rows lies past the last one taken. */
  lemma CutAt(rest: seq<NameRow>, limit: nat)
    requires Ordered(rest) && 0 < limit < |rest|
    ensures forall r :: r in rest && r !in rest[..limit] ==> Less(rest[limit - 1].name, r.name)
  {
    forall r | r in rest && r !in rest[..limit] ensures Less(rest[limit - 1].name, r.name) {
      var j :| 0 <= j < |rest| && rest[j] == r;
      assert rest == rest[..limit] + rest[limit..];
    }
  }

  lemma CutIsPage(rows: seq<NameRow>, all: set<NameRow>, after: string, limit: int)
    requires Ordered(rows) && (forall r :: r in all <==> r in rows) && forall r :: r in all ==> r.name != ""
    ensures var rest := rows[FirstAfter(rows, after)..];
      if limit > 0 && |rest| > limit then IsPage(all, after, limit, rest[..limit], rest[limit - 1].name)
      else IsPage(all, after, limit, rest, "")
  {
    var rest := rows[FirstAfter(rows, after)..];
    RestAfter(rows, after);
    if limit > 0 && |rest| > limit { CutHead(rest, all, after, limit); }
  }

  /** The head of the rows after a cursor, when there are more. */
  lemma CutHead(rest: seq<NameRow>, all: set<NameRow>, after: string, limit: nat)
    requires Ordered(rest) && 0 < limit < |rest| && forall r :: r in all ==> r.name != ""
    requires forall r :: r in rest <==> r in all && Less(after, r.name)
    ensures IsPage(all, after, limit, rest[..limit], rest[limit - 1].name)
  {
    CutAt(rest, limit);
    assert rest[limit] in rest && rest[limit - 1] in rest;
    assert Less(rest[limit - 1].name, rest[limit].name);
    forall r | r in rest[..limit] ensures r in all && Less(after, r.name) { assert r in rest; }
  }

  /** The rows shown, in the order the KV lists them. */
  function Picked(pairs: seq<Pair>, prefix: string): seq<NameRow> {
    if pairs == [] then []
    else
      var pre, p := Picked(pairs[..|pairs| - 1], prefix), pairs[|pairs| - 1];
      if Shown(p, prefix) then pre + [RowFor(p)] else pre
  }

  lemma {:induction false} PickedRows(pairs: seq<Pair>, prefix: string, r: NameRow)
    ensures r in Picked(pairs, prefix) <==> r in Rows(pairs, prefix)
  {
    if pairs != [] {
      var pre, p := pairs[..|pairs| - 1], pairs[|pairs| - 1];
      PickedRows(pre, prefix, r);
      RowsPush(pre, p, prefix);
      assert pairs == pre + [p];
    }
  }

  lemma RowsPush(pre: seq<Pair>, p: Pair, prefix: string)
    ensures Rows(pre + [p], prefix) == Rows(pre, prefix) + if Shown(p, prefix) then {RowFor(p)} else {}
  {
    var pairs := pre + [p];
    assert forall i :: 0 <= i < |pre| ==> pairs[i] == pre[i];
    assert pairs[|pre|] == p;
  }

  /** A row picked is that of the pair whose key its name has. */
  lemma PickedKey(pairs: seq<Pair>, prefix: string, r: NameRow) returns (i: nat)
    requires Index(pairs) && r in Picked(pairs, prefix)
    ensures i < |pairs| && pairs[i].key == NameKey(r.name)
  {
    PickedRows(pairs, prefix, r);
    i :| 0 <= i < |pairs| && Shown(pairs[i], prefix) && r == RowFor(pairs[i]);
    KeyOkRoundTrip(pairs[i].key);
  }

  lemma {:induction false} PickedApart(pairs: seq<Pair>, prefix: string)
    requires Index(pairs)
    ensures Apart(Picked(pairs, prefix))
  {
    if pairs != [] {
      var pre, p := pairs[..|pairs| - 1], pairs[|pairs| - 1];
      PickedApart(pre, prefix);
      if Shown(p, prefix) {
        KeyOkRoundTrip(p.key);
        forall r | r in Picked(pre, prefix) ensures r.name != KeyName(p.key) {
          var i := PickedKey(pre, prefix, r);
          assert pairs[i].key != p.key;
        }
        PushApart(Picked(pre, prefix), RowFor(p));
      }
    }
  }

  lemma PushApart(rows: seq<NameRow>, r: NameRow)
    requires Apart(rows) && forall x :: x in rows ==> x.name != r.name
    ensures Apart(rows + [r])
  {
  }

  method ListNames(pairs: seq<Pair>, prefix: string, after: string, limit: int)
      returns (page: seq<NameRow>, next: string)
    requires Index(pairs)
    ensures IsPage(Rows(pairs, prefix), after, limit, page, next)
  {
    var rows := [];
    for i := 0 to |pairs|
      invariant rows == Picked(pairs[..i], prefix)
    {
      assert pairs[..i + 1][..i] == pairs[..i];
      if PREFIX <= pairs[i].key {
        var name := KeyName(pairs[i].key);
        if prefix <= name && pairs[i].value.Some? {
          rows := rows + [NameRow(name, pairs[i].value.value)];
        }
      }
    }
    assert pairs[..|pairs|] == pairs;
    PickedApart(pairs, prefix);
    SortedOrdered(rows);
    SortedAll(pairs, prefix);
    rows := Sorted(rows);
    CutIsPage(rows, Rows(pairs, prefix), after, limit);
    rows := rows[FirstAfter(rows, after)..];
    page, next := rows, "";
    if limit > 0 && |rows| > limit {
      page, next := rows[..limit], rows[limit - 1].name;
    }
  }

  lemma SortedAll(pairs: seq<Pair>, prefix: string)
    requires Index(pairs)
    ensures forall r :: r in Rows(pairs, prefix) <==> r in Sorted(Picked(pairs, prefix))
    ensures forall r :: r in Rows(pairs, prefix) ==> r.name != ""
  {
    forall r ensures r in Rows(pairs, prefix) <==> r in Sorted(Picked(pairs, prefix)) {
      PickedRows(pairs, prefix, r);
      assert r in Sorted(Picked(pairs, prefix)) <==> r in multiset(Picked(pairs, prefix));
    }
    forall r | r in Rows(pairs, prefix) ensures r.name != "" {
      var i :| 0 <= i < |pairs| && Shown(pairs[i], prefix) && r == RowFor(pairs[i]);
      KeyOkRoundTrip(pairs[i].key);
    }
  }

  // ------------------------------------------------------------ the index itself

  class KvIndex {
    var kv: map<string, Option<string>>

    /** Every name key is the key of a valid name. */
    ghost predicate Valid()
      reads this
    {
      forall k :: k in kv && PREFIX <= k ==> KeyOk(k)
    }

    method PutName(name: string, sha: string) returns (ok: bool)
      requires Valid()
      modifies this
      ensures Valid() && (ok <==> ValidName(name))
      ensures kv == if ok then old(kv)[NameKey(name) := Some(sha)] else old(kv)
    {
      if !ValidName(name) { return false; }
      ValidIsOk(name);
      kv := kv[NameKey(name) := Some(sha)];
      return true;
    }

    method DeleteName(name: string)
      requires Valid()
      modifies this
      ensures Valid() && kv == old(kv) - {NameKey(name)}
    {
      kv := kv - {NameKey(name)};
    }
  }

  /** The key of any name is that of one without ':', its '/'-form. */
  lemma SameKey(name: string, m: string)
    requires ':' !in m
    ensures NameKey(name) == NameKey(m) <==> m == Replaced(name, ':', '/')
  {
    var a, b := NameKey(name), NameKey(m);
    assert a[|PREFIX|..] == Replaced(name, '/', ':') && b[|PREFIX|..] == Replaced(m, '/', ':');
    var slashed := Replaced(name, ':', '/');
    if a == b {
      assert |name| == |m|;
      forall i | 0 <= i < |m| ensures m[i] == slashed[i] {
        assert Replaced(name, '/', ':')[i] == Replaced(m, '/', ':')[i];
        assert m[i] in m;
      }
    }
    if m == slashed {
      assert Replaced(name, '/', ':') == Replaced(m, '/', ':');
    }
  }

  /** A delete takes no valid name out of the index but the '/'-form of the one
      given; the name is not checked, so a ':' in it reaches another's row. */
  lemma DeleteRemovesExactly(kv: map<string, Option<string>>, name: string, m: string)
    requires NameOk(m) && NameKey(m) in kv
    ensures NameKey(m) in kv - {NameKey(name)} <==> m != Replaced(name, ':', '/')
  {
    NoColon(m);
    SameKey(name, m);
  }

  lemma ColonDeletesAnother()
    ensures NameKey("a:b") == NameKey("a/b") && NameOk("a/b") && !NameOk("a:b")
  {
    assert Replaced("a:b", ':', '/') == "a/b";
    SameKey("a:b", "a/b");
    assert "a:b"[1] == ':' && !NameChar(':');
  }

  /** A listing of a KV: its pairs in some order, each key once. */
  ghost predicate Lists(pairs: seq<Pair>, kv: map<string, Option<string>>) {
    && (forall i, j :: 0 <= i < j < |pairs| ==> pairs[i].key != pairs[j].key)
    && (forall p :: p in pairs <==> p.key in kv && kv[p.key] == p.value)
  }

  /** What the index shows is what was put: the rows of its valid names. */
  lemma ShowsWhatWasPut(pairs: seq<Pair>, kv: map<string, Option<string>>, prefix: string, r: NameRow)
    requires Lists(pairs, kv) && NameOk(r.name) && forall k :: k in kv && PREFIX <= k ==> KeyOk(k)
    ensures Index(pairs)
    ensures r in Rows(pairs, prefix) <==>
      prefix <= r.name && NameKey(r.name) in kv && kv[NameKey(r.name)] == Some(r.sha)
  {
    assert forall i :: 0 <= i < |pairs| ==> pairs[i] in pairs;
    NoColon(r.name);
    NameRoundTrip(r.name);
    if r in Rows(pairs, prefix) {
      var i :| 0 <= i < |pairs| && Shown(pairs[i], prefix) && r == RowFor(pairs[i]);
      KeyOkRoundTrip(pairs[i].key);
    }
    if NameKey(r.name) in kv && kv[NameKey(r.name)] == Some(r.sha) {
      var p := Pair(NameKey(r.name), Some(r.sha));
      assert p in pairs;
      var i :| 0 <= i < |pairs| && pairs[i] == p;
      assert RowFor(pairs[i]) == r;
      assert prefix <= r.name ==> Shown(pairs[i], prefix);
    }
  }

  // ----------------------------------------------------------- following pages

  datatype Page = Page(rows: seq<NameRow>, next: string)

  function Cursor(pages: seq<Page>, i: nat): string
    requires i <= |pages|
  {
    if i == 0 then "" else pages[i - 1].next
  }

  /** Pages taken one after another by following `next` from an empty cursor,
      each from the index as it then stood. */
  ghost predicate Session(snaps: seq<set<NameRow>>, limit: int, pages: seq<Page>) {
    |pages| == |snaps| && (pages == [] ||
      var n := |pages| - 1;
      && Session(snaps[..n], limit, pages[..n])
      && (n > 0 ==> pages[n - 1].next != "")
      && IsPage(snaps[n], Cursor(pages, n), limit, pages[n].rows, pages[n].next))
  }

  function Listed(pages: seq<Page>): seq<NameRow> {
    if pages == [] then [] else Listed(pages[..|pages| - 1]) + pages[|pages| - 1].rows
  }

  predicate UpTo(rows: seq<NameRow>, name: string) {
    forall r :: r in rows ==> r.name == name || Less(r.name, name)
  }

  predicate Past(rows: seq<NameRow>, name: string) {
    forall r :: r in rows ==> Less(name, r.name)
  }

  lemma JoinOrdered(a: seq<NameRow>, cursor: string, b: seq<NameRow>)
    requires Ordered(a) && Ordered(b) && UpTo(a, cursor) && Past(b, cursor)
    ensures Ordered(a + b)
  {
    forall i, j | 0 <= i < |a| && 0 <= j < |b| ensures Less(a[i].name, b[j].name) {
      assert a[i] in a && b[j] in b;
      if a[i].name != cursor { LessTransitive(a[i].name, cursor, b[j].name); }
    }
  }

  lemma PageUpTo(a: seq<NameRow>, cursor: string, b: seq<NameRow>)
    requires Ordered(b) && b != [] && UpTo(a, cursor) && Past(b, cursor)
    ensures UpTo(a + b, b[|b| - 1].name)
  {
    var last := b[|b| - 1];
    forall r | r in a + b ensures r.name == last.name || Less(r.name, last.name) {
      if r in a {
        assert last in b;
        if r.name != cursor { LessTransitive(r.name, cursor, last.name); }
      } else {
        var j :| 0 <= j < |b| && b[j] == r;
      }
    }
  }

  /** However the index changes between pages, the names listed are in byte
      order and so none comes twice, each from the index its page was taken
      from. */
  lemma {:induction false} SessionOrdered(snaps: seq<set<NameRow>>, limit: int, pages: seq<Page>)
    requires Session(snaps, limit, pages)
    ensures Ordered(Listed(pages))
    ensures pages != [] && pages[|pages| - 1].next != "" ==> UpTo(Listed(pages), pages[|pages| - 1].next)
  {
    if pages != [] {
      var n := |pages| - 1;
      SessionOrdered(snaps[..n], limit, pages[..n]);
      var cursor, page := Cursor(pages, n), pages[n];
      assert UpTo(Listed(pages[..n]), cursor);
      AddPage(Listed(pages[..n]), cursor, snaps[n], limit, page);
    }
  }

  lemma AddPage(listed: seq<NameRow>, cursor: string, all: set<NameRow>, limit: int, page: Page)
    requires Ordered(listed) && UpTo(listed, cursor) && IsPage(all, cursor, limit, page.rows, page.next)
    ensures Ordered(listed + page.rows)
    ensures page.next != "" ==> UpTo(listed + page.rows, page.next)
  {
    JoinOrdered(listed, cursor, page.rows);
    if page.next != "" { PageUpTo(listed, cursor, page.rows); }
  }

  /** A row that was there for every page is listed, or lies past the cursor. */
  lemma {:induction false} SessionCovers(snaps: seq<set<NameRow>>, limit: int, pages: seq<Page>, r: NameRow)
    requires Session(snaps, limit, pages) && pages != [] && r.name != ""
    requires forall s :: s in snaps ==> r in s
    ensures r in Listed(pages) || (pages[|pages| - 1].next != "" && Less(pages[|pages| - 1].next, r.name))
  {
    var n := |pages| - 1;
    assert r in snaps[n];
    if n > 0 { SessionCovers(snaps[..n], limit, pages[..n], r); }
  }

  lemma {:induction false} ListedFrom(snaps: seq<set<NameRow>>, limit: int, pages: seq<Page>, r: NameRow)
    requires Session(snaps, limit, pages) && r in Listed(pages)
    ensures exists s :: s in snaps && r in s
  {
    var n := |pages| - 1;
    if r !in pages[n].rows {
      ListedFrom(snaps[..n], limit, pages[..n], r);
      var s :| s in snaps[..n] && r in s;
      assert s in snaps;
    }
  }

  /** Every page but the last holds `limit` rows. */
  lemma {:induction false} SessionGrows(snaps: seq<set<NameRow>>, limit: int, pages: seq<Page>)
    requires Session(snaps, limit, pages)
    ensures |Listed(pages)| >= |pages| - 1
    ensures pages != [] && pages[|pages| - 1].next != "" ==> |Listed(pages)| >= |pages|
  {
    if pages != [] {
      var n := |pages| - 1;
      SessionGrows(snaps[..n], limit, pages[..n]);
    }
  }

  lemma {:induction false} DistinctFit(rows: seq<NameRow>, all: set<NameRow>)
    requires Ordered(rows) && forall r :: r in rows ==> r in all
    ensures |rows| <= |all|
  {
    if rows != [] {
      var r := rows[0];
      forall x | x in rows[1..] ensures x in all - {r} {
        var j :| 0 <= j < |rows[1..]| && rows[1..][j] == x;
        assert x == rows[j + 1];
        LessTotal(r.name, x.name);
      }
      DistinctFit(rows[1..], all - {r});
    }
  }

  /** Of an index that does not change, following the pages to the end lists
      every matching row exactly once, in byte order; and the end comes after
      at most one page more than there are rows. */
  lemma PagingIsExact(all: set<NameRow>, limit: int, pages: seq<Page>)
    requires Session(seq(|pages|, i => all), limit, pages) && pages != []
    requires forall r :: r in all ==> r.name != ""
    ensures Ordered(Listed(pages)) && |pages| <= |all| + 1
    ensures pages[|pages| - 1].next == "" ==> forall r :: r in all <==> r in Listed(pages)
  {
    var snaps := seq(|pages|, i => all);
    SessionOrdered(snaps, limit, pages);
    SessionGrows(snaps, limit, pages);
    forall r | r in Listed(pages) ensures r in all {
      ListedFrom(snaps, limit, pages, r);
    }
    DistinctFit(Listed(pages), all);
    if pages[|pages| - 1].next == "" {
      forall r | r in all ensures r in Listed(pages) { SessionCovers(snaps, limit, pages, r); }
    }
  }
}
