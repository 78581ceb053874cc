/**
 * `_safe_parse_json`: a three-tier cascade that turns the text the locator
 * found into a value. Tier 1 is a strict decode, tier 2 a decode after quote
 * replacement, tier 3 a field-by-field recovery with four fixed patterns, one
 * per required key.
 */
module Repair {
  import opened Wrappers
  import opened Text
  import opened Types

  /** The four fields an analysis must have (topic category, tags, description, memory). */
  const Category: string := "话题归类"
  const Tags: string := "话题标签"
  const Description: string := "话题描述"
  const Memory: string := "相关回忆"
  const RequiredFields: seq<string> := [Category, Tags, Description, Memory]

  /** A text between two straight double quotes, as a key or a string appears in a pattern. */
  function Quoted(t: string): string {
    "\"" + t + "\""
  }

  /** The three value shapes of the tier-3 patterns. */
  datatype Shape =
    | QuotedText   // `"([^"]*)"`
    | Bracketed    // `\[(.*?)\]` with DOTALL
    | EscapedText  // `"((?:[^"\\]|\\.)*)"` with DOTALL

  function Opener(shape: Shape): char {
    if shape == Bracketed then '[' else '"'
  }

  function Closer(shape: Shape): char {
    if shape == Bracketed then ']' else '"'
  }

  /** The captured group of a match: `s[lo..hi]`. */
  datatype Span = Span(lo: nat, hi: nat)

  /** A match found by `re.search`: where it starts and what its group spans. */
  datatype Hit = Hit(at: nat, group: Span)

  /**
   * The body of `(?:[^"\\]|\\.)*`: characters other than a quote or a
   * backslash, and backslash pairs (a backslash and any character after it).
   */
  predicate EscapedBody(t: string)
    decreases |t|
  {
    t == []
    || (t[0] != '"' && t[0] != '\\' && EscapedBody(t[1..]))
    || (|t| >= 2 && t[0] == '\\' && EscapedBody(t[2..]))
  }

  /**
   * The closing quote of `(?:[^"\\]|\\.)*"` read from `i`: the first quote not
   * taken by a backslash pair. A backslash as the last character, or no such
   * quote, is no match.
   */
  function EscapedEnd(s: string, i: nat): (r: Option<nat>)
    requires i <= |s|
    ensures r.Some? ==> i <= r.value < |s| && s[r.value] == '"' && EscapedBody(s[i..r.value])
    decreases |s| - i
  {
    if i == |s| then None
    else if s[i] == '"' then Some(i)
    else if s[i] == '\\' then
      if i + 1 < |s| then
        var r := EscapedEnd(s, i + 2);
        assert r.Some? ==> s[i..r.value][2..] == s[i + 2..r.value];
        r
      else None
    else
      var r := EscapedEnd(s, i + 1);
      assert r.Some? ==> s[i..r.value][1..] == s[i + 1..r.value];
      r
  }

  /**
   * The regex has no other way to match: any quote that closes an escaped body
   * read from `i` is the one `EscapedEnd` reports, so an escaped quote `\"`
   * never ends the value.
   */
  lemma {:induction false} EscapedEndIsOnlyEnd(s: string, i: nat, e: nat)
    requires i <= e < |s| && s[e] == '"' && EscapedBody(s[i..e])
    ensures EscapedEnd(s, i) == Some(e)
    decreases e - i
  {
    var t := s[i..e];
    if t != [] {
      if t[0] == '\\' {
        assert |t| >= 2 && EscapedBody(t[2..]);
        assert t[2..] == s[i + 2..e];
        EscapedEndIsOnlyEnd(s, i + 2, e);
      } else {
        assert t[0] == s[i] && t[1..] == s[i + 1..e];
        EscapedEndIsOnlyEnd(s, i + 1, e);
      }
    }
  }

  /**
   * `s[i..j]` is whitespace and `j` ends the run: `\s*` read greedily from `i`
   * stops at `j`.
   */
  predicate BlankRun(s: string, i: nat, j: nat) {
    && i <= j <= |s|
    && (forall k :: i <= k < j ==> IsSpace(s[k]))
    && (j < |s| ==> !IsSpace(s[j]))
  }

  /** `\s*` from `i` takes exactly the whitespace run that starts there. */
  lemma SkipSpacesRun(s: string, i: nat, j: nat)
    requires BlankRun(s, i, j)
    ensures SkipSpaces(s, i) == j
    decreases j - i
  {
    if i < j {
      SkipSpacesRun(s, i + 1, j);
    }
  }

  /** `"key"\s*:\s*` read at `p`: the position just after it. */
  function ValueStart(s: string, key: string, p: nat): (r: Option<nat>)
    ensures r.Some? ==> OccursAt(Quoted(key), s, p) && p + |Quoted(key)| < r.value <= |s|
  {
    var k := Quoted(key);
    if !OccursAt(k, s, p) then None
    else
      var a := SkipSpaces(s, p + |k|);
      if a < |s| && s[a] == ':' then Some(SkipSpaces(s, a + 1)) else None
  }

  /**
   * What `ValueStart` reads: the quoted key, a whitespace run, a colon, and a
   * whitespace run that ends where the value starts.
   */
  lemma ValueStartMeaning(s: string, key: string, p: nat)
    requires ValueStart(s, key, p).Some?
    ensures var e := ValueStart(s, key, p).value;
      exists a ::
        && p + |Quoted(key)| <= a < e && s[a] == ':'
        && BlankRun(s, p + |Quoted(key)|, a) && BlankRun(s, a + 1, e)
  {
    var a := SkipSpaces(s, p + |Quoted(key)|);
    SkipSpacesSkipsOnlySpaces(s, p + |Quoted(key)|);
    SkipSpacesSkipsOnlySpaces(s, a + 1);
    assert BlankRun(s, p + |Quoted(key)|, a);
  }

  /** Conversely, a quoted key, blanks, a colon and blanks are read as such wherever they stand. */
  lemma ValueStartReads(s: string, key: string, p: nat, a: nat, e: nat)
    requires OccursAt(Quoted(key), s, p) && p + |Quoted(key)| <= a < |s| && s[a] == ':'
    requires BlankRun(s, p + |Quoted(key)|, a) && BlankRun(s, a + 1, e)
    ensures ValueStart(s, key, p) == Some(e)
  {
    SkipSpacesRun(s, p + |Quoted(key)|, a);
    SkipSpacesRun(s, a + 1, e);
  }

  /**
   * One tier-3 pattern tried at position `p`. The `\s*` runs are greedy and
   * followed by a non-space literal, so they take every blank; the group ends
   * at the first closer (`[^"]*` and the lazy `.*?`) or at the first quote no
   * backslash pair takes (the escaped form).
   */
  function MatchAt(s: string, key: string, shape: Shape, p: nat): (r: Option<Span>)
    ensures r.Some? ==> p + |Quoted(key)| < r.value.lo <= r.value.hi < |s|
  {
    match ValueStart(s, key, p)
    case None => None
    case Some(q) =>
      if q < |s| && s[q] == Opener(shape) then
        match CloseFrom(s, q + 1, shape)
        case None => None
        case Some(e) => Some(Span(q + 1, e))
      else None
  }

  /** Where the group that starts at `i` ends: the closer that ends it. */
  function CloseFrom(s: string, i: nat, shape: Shape): (r: Option<nat>)
    requires i <= |s|
    ensures r.Some? ==> i <= r.value < |s|
  {
    if shape == EscapedText then EscapedEnd(s, i) else FindFrom(s, i, Closer(shape))
  }

  /**
   * What a match is: the quoted key at `p`, a whitespace run, a colon and a
   * whitespace run up to the opener just before the group, and the closer
   * just after it; the group holds no closer (or, for the escaped form, is an
   * escaped body).
   */
  lemma MatchAtMeaning(s: string, key: string, shape: Shape, p: nat)
    requires MatchAt(s, key, shape, p).Some?
    ensures var g := MatchAt(s, key, shape, p).value;
      && OccursAt(Quoted(key), s, p)
      && (exists a :: p + |Quoted(key)| <= a < g.lo - 1 && s[a] == ':'
           && BlankRun(s, p + |Quoted(key)|, a) && BlankRun(s, a + 1, g.lo - 1))
      && s[g.lo - 1] == Opener(shape) && s[g.hi] == Closer(shape)
      && (shape != EscapedText ==> Closer(shape) !in s[g.lo..g.hi])
      && (shape == EscapedText ==> EscapedBody(s[g.lo..g.hi]))
  {
    var q := ValueStart(s, key, p).value;
    ValueStartMeaning(s, key, p);
    FindFromSkipsNone(s, q + 1, Closer(shape));
    assert CloseFrom(s, q + 1, shape).Some?;
  }

  /** `re.search`: the leftmost position from `from` on where the pattern matches. */
  function Search(s: string, key: string, shape: Shape, from: nat): (r: Option<Hit>)
    requires from <= |s|
    ensures r.Some? ==> from <= r.value.at && MatchAt(s, key, shape, r.value.at) == Some(r.value.group)
    ensures r.Some? ==> forall p {:trigger MatchAt(s, key, shape, p)} :: from <= p < r.value.at ==> MatchAt(s, key, shape, p).None?
    ensures r.None? ==> forall p {:trigger MatchAt(s, key, shape, p)} :: from <= p <= |s| ==> MatchAt(s, key, shape, p).None?
    decreases |s| - from
  {
    match MatchAt(s, key, shape, from)
    case Some(g) => Some(Hit(from, g))
    case None => if from == |s| then None else Search(s, key, shape, from + 1)
  }

  /** `re.search` reports the first position where the pattern matches. */
  lemma {:induction false} SearchFindsFirst(s: string, key: string, shape: Shape, from: nat, at: nat)
    requires from <= at <= |s| && MatchAt(s, key, shape, at).Some?
    requires forall p :: from <= p < at ==> MatchAt(s, key, shape, p).None?
    ensures Search(s, key, shape, from) == Some(Hit(at, MatchAt(s, key, shape, at).value))
    decreases at - from
  {
    if from < at {
      SearchFindsFirst(s, key, shape, from + 1, at);
    }
  }

  /** The text of a field written as `"key": ` then its opened and closed value. */
  function FieldText(key: string, shape: Shape, v: string): string {
    Quoted(key) + ": " + [Opener(shape)] + v + [Closer(shape)]
  }

  /** `s` holds at `p` the quoted key, `": "`, the opener, the value `v` and the closer. */
  predicate LaidOut(s: string, key: string, shape: Shape, v: string, p: nat) {
    var a := p + |Quoted(key)|;
    && a + 3 + |v| < |s|
    && OccursAt(Quoted(key), s, p)
    && s[a] == ':' && s[a + 1] == ' ' && s[a + 2] == Opener(shape)
    && s[a + 3..a + 3 + |v|] == v && s[a + 3 + |v|] == Closer(shape)
  }

  /** Where the pieces of a written field sit. */
  lemma FieldLayout(pre: string, key: string, shape: Shape, v: string, post: string)
    ensures LaidOut(pre + FieldText(key, shape, v) + post, key, shape, v, |pre|)
  {
    var f := FieldText(key, shape, v);
    var s := pre + f + post;
    var n := |pre|;
    var a := |Quoted(key)|;
    assert f[..a] == Quoted(key);
    assert f[a] == ':' && f[a + 1] == ' ' && f[a + 2] == Opener(shape);
    assert f[a + 3..a + 3 + |v|] == v && f[a + 3 + |v|] == Closer(shape);
    assert s[n..n + |f|] == f;
    assert s[n..n + a] == f[..a];
    assert s[n + a + 3..n + a + 3 + |v|] == f[a + 3..a + 3 + |v|];
  }

  /** `\s*:\s*` over `": "` followed by a non-space. */
  lemma ValueStartAfterColon(s: string, key: string, p: nat)
    requires OccursAt(Quoted(key), s, p)
    requires var a := p + |Quoted(key)|;
      a + 2 < |s| && s[a] == ':' && s[a + 1] == ' ' && !IsSpace(s[a + 2])
    ensures ValueStart(s, key, p) == Some(p + |Quoted(key)| + 2)
  {
    var a := p + |Quoted(key)|;
    ValueStartReads(s, key, p, a, a + 2);
  }

  /** A value followed by its closer ends there. */
  lemma CloseFromValue(s: string, lo: nat, shape: Shape, v: string)
    requires shape == QuotedText ==> '"' !in v
    requires shape == Bracketed ==> ']' !in v
    requires shape == EscapedText ==> EscapedBody(v)
    requires lo + |v| < |s| && s[lo..lo + |v|] == v && s[lo + |v|] == Closer(shape)
    ensures CloseFrom(s, lo, shape) == Some(lo + |v|)
  {
    if shape == EscapedText {
      EscapedEndIsOnlyEnd(s, lo, lo + |v|);
    } else {
      FindFromFindsFirst(s, lo, lo + |v|, Closer(shape));
    }
  }

  /** The pattern reads a value laid out after `"key": ` at `p` whose closer ends it. */
  lemma MatchAtLaidOut(s: string, key: string, shape: Shape, v: string, p: nat)
    requires LaidOut(s, key, shape, v, p)
    requires var lo := p + |Quoted(key)| + 3; CloseFrom(s, lo, shape) == Some(lo + |v|)
    ensures var lo := p + |Quoted(key)| + 3;
      MatchAt(s, key, shape, p) == Some(Span(lo, lo + |v|))
  {
    ValueStartAfterColon(s, key, p);
  }

  /** The quoted key does not occur in `s` before position `p`. */
  predicate FirstKeyAt(s: string, key: string, p: nat) {
    forall q :: 0 <= q < p ==> !OccursAt(Quoted(key), s, q)
  }

  /** The pattern of that key and shape matches nowhere before position `p`. */
  predicate NoMatchBefore(s: string, key: string, shape: Shape, p: nat) {
    forall q :: 0 <= q < p ==> MatchAt(s, key, shape, q).None?
  }

  /** Where the quoted key does not occur, its pattern cannot match. */
  lemma FirstKeyNoMatch(s: string, key: string, shape: Shape, p: nat)
    requires FirstKeyAt(s, key, p)
    ensures NoMatchBefore(s, key, shape, p)
  {
    forall q | 0 <= q < p
      ensures MatchAt(s, key, shape, q).None?
    {
      assert ValueStart(s, key, q).None?;
    }
  }

  /** A value the pattern of that shape can hold: no closer in it, or an escaped body. */
  predicate FitsShape(shape: Shape, v: string) {
    && (shape == QuotedText ==> '"' !in v)
    && (shape == Bracketed ==> ']' !in v)
    && (shape == EscapedText ==> EscapedBody(v))
  }

  /**
   * Field round trip: a field laid out at `p` as `"key": ` and its value,
   * where the pattern matches nowhere earlier, is the first match, and its
   * group is the value; for the escaped form the value may hold backslash
   * pairs such as `\"`.
   */
  lemma SearchReadsFieldAt(s: string, key: string, shape: Shape, v: string, p: nat)
    requires LaidOut(s, key, shape, v, p) && NoMatchBefore(s, key, shape, p) && FitsShape(shape, v)
    ensures var lo := p + |Quoted(key)| + 3;
      Search(s, key, shape, 0) == Some(Hit(p, Span(lo, lo + |v|)))
  {
    var lo := p + |Quoted(key)| + 3;
    CloseFromValue(s, lo, shape, v);
    MatchAtLaidOut(s, key, shape, v, p);
    SearchFindsFirst(s, key, shape, 0, p);
  }

  /** A field written after text without a quote is read back from there. */
  lemma SearchReadsField(pre: string, key: string, shape: Shape, v: string, post: string)
    requires '"' !in pre && FitsShape(shape, v)
    ensures var s := pre + FieldText(key, shape, v) + post;
      var h := Search(s, key, shape, 0);
      && h.Some? && h.value.at == |pre|
      && h.value.group.lo <= h.value.group.hi <= |s| && Group(s, h.value) == v
  {
    var s := pre + FieldText(key, shape, v) + post;
    FieldLayout(pre, key, shape, v, post);
    assert FirstKeyAt(s, key, |pre|) by {
      forall q | 0 <= q < |pre|
        ensures !OccursAt(Quoted(key), s, q)
      {
        assert s[q] == pre[q];
      }
    }
    FirstKeyNoMatch(s, key, shape, |pre|);
    SearchReadsFieldAt(s, key, shape, v, |pre|);
  }

  /** The text of a match's group. */
  function Group(s: string, h: Hit): string
    requires h.group.lo <= h.group.hi <= |s|
  {
    s[h.group.lo..h.group.hi]
  }

  /**
   * `re.findall(r'"([^"]*)"', t)`: the texts between successive pairs of
   * quotes; an unpaired last quote contributes nothing.
   */
  function QuotedItems(t: string): seq<string>
  {
    ItemsFrom(t, 0)
  }

  /** The items of `re.findall(r'"([^"]*)"', t)` whose opening quote is at or after `i`. */
  function ItemsFrom(t: string, i: nat): seq<string>
    requires i <= |t|
    decreases |t| - i
  {
    match FindFrom(t, i, '"')
    case None => []
    case Some(a) =>
      match FindFrom(t, a + 1, '"')
      case None => []
      case Some(b) => [t[a + 1..b]] + ItemsFrom(t, b + 1)
  }

  /** No item holds a quote. */
  lemma {:induction false} ItemsHaveNoQuote(t: string, i: nat)
    requires i <= |t|
    ensures forall x :: x in ItemsFrom(t, i) ==> '"' !in x
    decreases |t| - i
  {
    match FindFrom(t, i, '"')
    case None =>
    case Some(a) =>
      match FindFrom(t, a + 1, '"')
      case None =>
      case Some(b) =>
        FindFromSkipsNone(t, a + 1, '"');
        ItemsHaveNoQuote(t, b + 1);
  }

  /** A list of strings rendered as `"x1"` sep `"x2"` ... (how a JSON array of strings is written). */
  function QuotedList(items: seq<string>, sep: string): string
  {
    if items == [] then ""
    else if |items| == 1 then Quoted(items[0])
    else Quoted(items[0]) + sep + QuotedList(items[1..], sep)
  }

  /** A stretch without a quote changes nothing for the search of the next quote. */
  lemma {:induction false} FindFromSkipsPlain(w: string, j: nat, k: nat, c: char)
    requires j <= k <= |w| && c !in w[j..k]
    ensures FindFrom(w, j, c) == FindFrom(w, k, c)
    decreases k - j
  {
    if j < k {
      assert w[j] == w[j..k][0] && w[j + 1..k] == w[j..k][1..];
      FindFromSkipsPlain(w, j + 1, k, c);
    }
  }

  /** ... and so nothing for the items read after it. */
  lemma ItemsFromSkipsPlain(w: string, j: nat, k: nat)
    requires j <= k <= |w| && '"' !in w[j..k]
    ensures ItemsFrom(w, j) == ItemsFrom(w, k)
  {
    FindFromSkipsPlain(w, j, k, '"');
  }

  /** One pair of quotes from `i`: the item between them, then the items after the second. */
  lemma ItemsFromUnfold(t: string, i: nat, a: nat, b: nat)
    requires i <= |t| && FindFrom(t, i, '"') == Some(a) && FindFrom(t, a + 1, '"') == Some(b)
    ensures ItemsFrom(t, i) == [t[a + 1..b]] + ItemsFrom(t, b + 1)
  {
  }

  /** A quoted quote-free text at `i` is read as one item. */
  lemma ItemAt(w: string, i: nat, x: string)
    requires '"' !in x && i + |x| + 2 <= |w|
    requires w[i] == '"' && w[i + 1..i + |x| + 1] == x && w[i + |x| + 1] == '"'
    ensures ItemsFrom(w, i) == [x] + ItemsFrom(w, i + |x| + 2)
  {
    FindFromFindsFirst(w, i + 1, i + |x| + 1, '"');
    ItemsFromUnfold(w, i, i, i + |x| + 1);
  }

  /** Every item is free of quotes. */
  predicate QuoteFreeItems(items: seq<string>) {
    forall k :: 0 <= k < |items| ==> '"' !in items[k]
  }

  /** `w` holds, from `i` to its end, the items quoted and separated by `sep`. */
  predicate ListAt(w: string, i: nat, items: seq<string>, sep: string)
    decreases |items|
  {
    if items == [] then i == |w|
    else
      var x := items[0];
      var e := i + |x| + 2;
      && e <= |w| && w[i] == '"' && w[i + 1..e - 1] == x && w[e - 1] == '"'
      && if |items| == 1 then e == |w|
         else e + |sep| <= |w| && w[e..e + |sep|] == sep && ListAt(w, e + |sep|, items[1..], sep)
  }

  /** The three parts of a quoted item followed by a separator and more text. */
  lemma SplitItem(t: string, x: string, sep: string, rest: string)
    requires t == Quoted(x) + sep + rest
    ensures t[0] == '"' && t[1..|x| + 1] == x && t[|x| + 1] == '"'
    ensures t[|x| + 2..|x| + 2 + |sep|] == sep && t[|x| + 2 + |sep|..] == rest
  {
    assert t[..|x| + 2] == Quoted(x);
  }

  /** What follows a quoted item and its separator at position `i`. */
  lemma SuffixAfterItem(w: string, i: nat, x: string, sep: string, rest: string)
    requires i <= |w| && w[i..] == Quoted(x) + sep + rest
    ensures w[i + |x| + 2 + |sep|..] == rest
  {
    SplitItem(w[i..], x, sep, rest);
  }

  /** Taking a slice of a suffix is taking a slice of the whole. */
  lemma SliceOfSuffix(w: string, i: nat, lo: nat, hi: nat)
    requires i <= |w| && lo <= hi <= |w| - i
    ensures w[i..][lo..hi] == w[i + lo..i + hi]
  {
    assert forall k :: 0 <= k < hi - lo ==> w[i..][lo..hi][k] == w[i + lo..i + hi][k];
  }

  /** The first item and separator of a written list at position `i`, read off `w`. */
  lemma ItemFrame(w: string, i: nat, x: string, sep: string, rest: string)
    requires i <= |w| && w[i..] == Quoted(x) + sep + rest
    ensures i + |x| + 2 + |sep| <= |w| && w[i] == '"' && w[i + |x| + 1] == '"'
    ensures w[i + 1..i + |x| + 1] == x && w[i + |x| + 2..i + |x| + 2 + |sep|] == sep
  {
    SplitItem(w[i..], x, sep, rest);
    SliceOfSuffix(w, i, 1, |x| + 1);
    SliceOfSuffix(w, i, |x| + 2, |x| + 2 + |sep|);
  }

  /** `ListAt` for a list of two or more items, from its first item and the rest. */
  lemma ListAtCons(w: string, i: nat, items: seq<string>, sep: string)
    requires |items| > 1
    requires var e := i + |items[0]| + 2;
      && e + |sep| <= |w| && w[i] == '"' && w[i + 1..e - 1] == items[0] && w[e - 1] == '"'
      && w[e..e + |sep|] == sep && ListAt(w, e + |sep|, items[1..], sep)
    ensures ListAt(w, i, items, sep)
  {
  }

  /** `ListAt` for a list of one item. */
  lemma ListAtSingle(w: string, i: nat, items: seq<string>, sep: string)
    requires |items| == 1 && i <= |w| && w[i..] == Quoted(items[0])
    ensures ListAt(w, i, items, sep)
  {
    ItemFrame(w, i, items[0], [], []);
  }

  /** The first item and separator of a written list of two or more items, and what follows them. */
  lemma ConsFrame(w: string, i: nat, items: seq<string>, sep: string)
    requires |items| > 1 && i <= |w| && w[i..] == QuotedList(items, sep)
    ensures var e := i + |items[0]| + 2;
      && e + |sep| <= |w| && w[i] == '"' && w[i + 1..e - 1] == items[0] && w[e - 1] == '"'
      && w[e..e + |sep|] == sep && w[e + |sep|..] == QuotedList(items[1..], sep)
  {
    var r := QuotedList(items[1..], sep);
    SuffixAfterItem(w, i, items[0], sep, r);
    ItemFrame(w, i, items[0], sep, r);
  }

  /** A written list at the end of `w`, from position `i`, is laid out as `ListAt` says. */
  lemma {:induction false} QuotedListLayout(w: string, i: nat, items: seq<string>, sep: string)
    requires i <= |w| && w[i..] == QuotedList(items, sep)
    ensures ListAt(w, i, items, sep)
    decreases |items|
  {
    if |items| == 1 {
      ListAtSingle(w, i, items, sep);
    } else if |items| > 1 {
      var j := i + |items[0]| + 2 + |sep|;
      ConsFrame(w, i, items, sep);
      assert j <= |w| && w[j..] == QuotedList(items[1..], sep);
      QuotedListLayout(w, j, items[1..], sep);
      ListAtCons(w, i, items, sep);
    }
  }

  /** The items of a list laid out from position `i` to the end of `w`. */
  lemma {:induction false} ItemsOfListAt(w: string, i: nat, items: seq<string>, sep: string)
    requires QuoteFreeItems(items) && '"' !in sep
    requires i <= |w| && ListAt(w, i, items, sep)
    ensures ItemsFrom(w, i) == items
    decreases |items|
  {
    if items != [] {
      var x := items[0];
      var e := i + |x| + 2;
      ItemAt(w, i, x);
      if |items| == 1 {
        assert ItemsFrom(w, e) == [];
        assert items == [x];
      } else {
        var j := e + |sep|;
        ItemsFromSkipsPlain(w, e, j);
        ItemsOfListAt(w, j, items[1..], sep);
        assert items == [x] + items[1..];
      }
    }
  }

  /**
   * Tag round trip: the tag pattern gives back every tag of a list written as
   * a JSON array of quote-free strings, in order.
   */
  lemma QuotedItemsOfList(items: seq<string>, sep: string)
    requires QuoteFreeItems(items) && '"' !in sep
    ensures QuotedItems(QuotedList(items, sep)) == items
  {
    QuotedListLayout(QuotedList(items, sep), 0, items, sep);
    assert [] + QuotedList(items, sep) == QuotedList(items, sep);
    ItemsOfListAt(QuotedList(items, sep), 0, items, sep);
  }

  /** Strings as JSON strings. */
  function StringValues(items: seq<string>): (r: seq<Json>)
    ensures |r| == |items| && forall i :: 0 <= i < |r| ==> r[i] == JStr(items[i])
  {
    if items == [] then [] else [JStr(items[0])] + StringValues(items[1..])
  }

  /**
   * The record tier 3 can produce: exactly the four required keys; category
   * and description strings without a quote; tags a list of strings without
   * a quote; memory a string with no surrounding whitespace and no run of two
   * or more whitespace characters.
   */
  predicate WellFormedRecord(v: Json) {
    && v.JObj?
    && v.fields.Keys == {Category, Tags, Description, Memory}
    && v.fields[Category].JStr? && '"' !in v.fields[Category].s
    && v.fields[Description].JStr? && '"' !in v.fields[Description].s
    && v.fields[Tags].JArr?
    && (forall t :: t in v.fields[Tags].items ==> t.JStr? && '"' !in t.s)
    && v.fields[Memory].JStr? && Normalized(v.fields[Memory].s)
  }

  /** The record built from the four recovered values. */
  function Record(category: string, tags: seq<string>, description: string, memory: string): (r: Json)
    requires '"' !in category && '"' !in description && Normalized(memory)
    requires forall x :: x in tags ==> '"' !in x
    ensures WellFormedRecord(r)
    ensures r.fields[Category] == JStr(category) && r.fields[Description] == JStr(description)
    ensures r.fields[Memory] == JStr(memory)
    ensures |r.fields[Tags].items| == |tags|
      && forall i :: 0 <= i < |tags| ==> r.fields[Tags].items[i] == JStr(tags[i])
  {
    var tagValues := StringValues(tags);
    assert forall v :: v in tagValues ==> v.JStr? && '"' !in v.s;
    JObj(map[
      Category := JStr(category),
      Tags := JArr(tagValues),
      Description := JStr(description),
      Memory := JStr(memory)])
  }

  /** A pattern that matches somewhere needs its quoted key in the text. */
  lemma SearchNeedsKey(s: string, key: string, shape: Shape)
    requires Search(s, key, shape, 0).Some?
    ensures IsSubstring(Quoted(key), s)
  {
    var h := Search(s, key, shape, 0).value;
    MatchAtMeaning(s, key, shape, h.at);
  }

  /** The group of a quoted-text match holds no quote. */
  lemma QuotedGroupHasNoQuote(s: string, key: string)
    requires Search(s, key, QuotedText, 0).Some?
    ensures var h := Search(s, key, QuotedText, 0).value;
      h.group.lo <= h.group.hi <= |s| && '"' !in Group(s, h)
  {
    MatchAtMeaning(s, key, QuotedText, Search(s, key, QuotedText, 0).value.at);
  }

  /**
   * Tier 3: each pattern searched in the whole text; a record only when all
   * four match, built from their groups (tags split into their quoted items,
   * memory with whitespace runs collapsed and the ends stripped).
   */
  function Recover(s: string): (r: Option<Json>)
    ensures r.Some? <==>
      && Search(s, Category, QuotedText, 0).Some? && Search(s, Tags, Bracketed, 0).Some?
      && Search(s, Description, QuotedText, 0).Some? && Search(s, Memory, EscapedText, 0).Some?
    ensures r.Some? ==> WellFormedRecord(r.value)
    ensures r.Some? ==> forall k :: k in RequiredFields ==> IsSubstring(Quoted(k), s)
  {
    var c := Search(s, Category, QuotedText, 0);
    var t := Search(s, Tags, Bracketed, 0);
    var d := Search(s, Description, QuotedText, 0);
    var m := Search(s, Memory, EscapedText, 0);
    if c.Some? && t.Some? && d.Some? && m.Some? then
      QuotedGroupHasNoQuote(s, Category);
      QuotedGroupHasNoQuote(s, Description);
      SearchNeedsKey(s, Category, QuotedText);
      SearchNeedsKey(s, Tags, Bracketed);
      SearchNeedsKey(s, Description, QuotedText);
      SearchNeedsKey(s, Memory, EscapedText);
      ItemsHaveNoQuote(Group(s, t.value), 0);
      Some(Record(Group(s, c.value), QuotedItems(Group(s, t.value)), Group(s, d.value),
                  NormalizeSpaces(Group(s, m.value))))
    else None
  }

  /**
   * The record holds what the four patterns captured: category and
   * description groups as they are, the quoted items of the tag group, and
   * the memory group normalised.
   */
  lemma RecoverTakesGroups(s: string)
    requires Recover(s).Some?
    ensures var v := Recover(s).value;
      var c := Search(s, Category, QuotedText, 0).value;
      var t := Search(s, Tags, Bracketed, 0).value;
      var d := Search(s, Description, QuotedText, 0).value;
      var m := Search(s, Memory, EscapedText, 0).value;
      && c.group.lo <= c.group.hi <= |s| && t.group.lo <= t.group.hi <= |s|
      && d.group.lo <= d.group.hi <= |s| && m.group.lo <= m.group.hi <= |s|
      && v.fields[Category] == JStr(Group(s, c)) && v.fields[Description] == JStr(Group(s, d))
      && v.fields[Memory] == JStr(NormalizeSpaces(Group(s, m)))
      && var items := QuotedItems(Group(s, t));
         |v.fields[Tags].items| == |items|
         && forall i :: 0 <= i < |items| ==> v.fields[Tags].items[i] == JStr(items[i])
  {
    var c := Search(s, Category, QuotedText, 0).value;
    var t := Search(s, Tags, Bracketed, 0).value;
    var d := Search(s, Description, QuotedText, 0).value;
    var m := Search(s, Memory, EscapedText, 0).value;
    assert Recover(s).value
      == Record(Group(s, c), QuotedItems(Group(s, t)), Group(s, d), NormalizeSpaces(Group(s, m)));
  }

  /**
   * Record round trip: a text holding the four fields, each laid out as
   * `"key": ` and its value where its pattern has not matched earlier,
   * recovers the category, the tags, the description and the normalised
   * memory, in any order of the fields and with any text around them.
   */
  lemma RecoverReadsFields(s: string, c: string, tags: seq<string>, sep: string, d: string, m: string,
                           pc: nat, pt: nat, pd: nat, pm: nat)
    requires '"' !in c && '"' !in d && EscapedBody(m)
    requires QuoteFreeItems(tags) && '"' !in sep && ']' !in QuotedList(tags, sep)
    requires LaidOut(s, Category, QuotedText, c, pc) && NoMatchBefore(s, Category, QuotedText, pc)
    requires LaidOut(s, Tags, Bracketed, QuotedList(tags, sep), pt) && NoMatchBefore(s, Tags, Bracketed, pt)
    requires LaidOut(s, Description, QuotedText, d, pd) && NoMatchBefore(s, Description, QuotedText, pd)
    requires LaidOut(s, Memory, EscapedText, m, pm) && NoMatchBefore(s, Memory, EscapedText, pm)
    ensures Recover(s) == Some(Record(c, tags, d, NormalizeSpaces(m)))
  {
    var l := QuotedList(tags, sep);
    var hc := FieldHit(s, Category, QuotedText, c, pc);
    var ht := FieldHit(s, Tags, Bracketed, l, pt);
    var hd := FieldHit(s, Description, QuotedText, d, pd);
    var hm := FieldHit(s, Memory, EscapedText, m, pm);
    QuotedItemsOfList(tags, sep);
    RecoverOfGroups(s, c, tags, d, m, hc, ht, hd, hm);
  }

  /** The hit of a field read back by `SearchReadsFieldAt`, and its group. */
  lemma FieldHit(s: string, key: string, shape: Shape, v: string, p: nat) returns (h: Hit)
    requires LaidOut(s, key, shape, v, p) && NoMatchBefore(s, key, shape, p) && FitsShape(shape, v)
    ensures Search(s, key, shape, 0) == Some(h)
    ensures h.group.lo <= h.group.hi <= |s| && Group(s, h) == v
  {
    SearchReadsFieldAt(s, key, shape, v, p);
    h := Search(s, key, shape, 0).value;
  }

  /** Tier 3 once the four hits and their groups are known. */
  lemma RecoverOfGroups(s: string, c: string, tags: seq<string>, d: string, m: string,
                        hc: Hit, ht: Hit, hd: Hit, hm: Hit)
    requires '"' !in c && '"' !in d && QuoteFreeItems(tags)
    requires Search(s, Category, QuotedText, 0) == Some(hc)
    requires Search(s, Tags, Bracketed, 0) == Some(ht)
    requires Search(s, Description, QuotedText, 0) == Some(hd)
    requires Search(s, Memory, EscapedText, 0) == Some(hm)
    requires hc.group.lo <= hc.group.hi <= |s| && Group(s, hc) == c
    requires ht.group.lo <= ht.group.hi <= |s| && QuotedItems(Group(s, ht)) == tags
    requires hd.group.lo <= hd.group.hi <= |s| && Group(s, hd) == d
    requires hm.group.lo <= hm.group.hi <= |s| && Group(s, hm) == m
    ensures Recover(s) == Some(Record(c, tags, d, NormalizeSpaces(m)))
  {
  }

  /**
   * No field is synthesised: if the text lacks the quoted form of any required
   * key, tier 3 gives None.
   */
  lemma RecoverNeedsEveryKey(s: string, k: string)
    requires k in RequiredFields && !IsSubstring(Quoted(k), s)
    ensures Recover(s).None?
  {
  }

  /**
   * `_safe_parse_json`: None for "", else the strict decode if it succeeds,
   * else the decode of the requoted text if that succeeds, else tier 3 on the
   * original text.
   */
  function SafeParse(s: string, env: Oracles): (r: Option<Json>)
    ensures s == [] ==> r.None?
    ensures s != [] && env.decode(s).Some? ==> r == env.decode(s)
    ensures s != [] && env.decode(s).None? && env.decode(env.requote(s)).Some? ==>
      r == env.decode(env.requote(s))
    ensures r.Some? ==> env.decode(s).Some? || env.decode(env.requote(s)).Some? || WellFormedRecord(r.value)
  {
    if s == [] then None
    else if env.decode(s).Some? then env.decode(s)
    else if env.decode(env.requote(s)).Some? then env.decode(env.requote(s))
    else Recover(s)
  }

  /** When neither decode succeeds, the answer is exactly tier 3's. */
  lemma SafeParseFallsToRecovery(s: string, env: Oracles)
    requires s != [] && env.decode(s).None? && env.decode(env.requote(s)).None?
    ensures SafeParse(s, env) == Recover(s)
    ensures SafeParse(s, env).Some? ==> WellFormedRecord(SafeParse(s, env).value)
  {
  }
}
