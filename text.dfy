/**
 * The handful of Python string operations the core relies on: `str.isspace`
 * (and the `\s` class of `re`), `strip`, `startswith`/`endswith`, `find`,
 * `in` on strings, `"\n".join`, `re.sub(r'\s+', ' ', ...)` and `sorted` on a
 * list of strings (code-point order).
 */
module Text {
  import opened Wrappers

  /** Python's whitespace: `str.isspace()`, which is also what `\s` matches in a str pattern. */
  predicate IsSpace(c: char) {
    c == ' ' || c == '\t' || c == '\n' || c == '\r' || c == '\U{0B}' || c == '\U{0C}'
    || ('\U{1C}' <= c <= '\U{1F}') || c == '\U{85}' || c == '\U{A0}' || c == '\U{1680}'
    || ('\U{2000}' <= c <= '\U{200A}') || c == '\U{2028}' || c == '\U{2029}'
    || c == '\U{202F}' || c == '\U{205F}' || c == '\U{3000}'
  }

  predicate StartsWith(s: string, prefix: string) {
    |prefix| <= |s| && s[..|prefix|] == prefix
  }

  predicate EndsWith(s: string, suffix: string) {
    |suffix| <= |s| && s[|s| - |suffix|..] == suffix
  }

  /** `t` occurs in `s` at offset `i`. */
  predicate OccursAt(t: string, s: string, i: nat) {
    i + |t| <= |s| && s[i..i + |t|] == t
  }

  /** Python's `t in s` for two strings. */
  predicate IsSubstring(t: string, s: string) {
    exists i | 0 <= i <= |s| :: OccursAt(t, s, i)
  }

  /** Python's `s.find(c)` for one character, with -1 as None. */
  function FindChar(s: string, c: char): (r: Option<nat>)
    ensures r.Some? ==> r.value < |s| && s[r.value] == c && c !in s[..r.value]
    ensures r.None? <==> c !in s
  {
    if s == [] then None
    else if s[0] == c then Some(0)
    else
      match FindChar(s[1..], c)
      case None => None
      case Some(i) =>
        assert s[..i + 1] == [s[0]] + s[1..][..i];
        Some(i + 1)
  }

  /** The first position at or after `i` holding `c`: `s.find(c, i)`, with -1 as None. */
  function FindFrom(s: string, i: nat, c: char): (r: Option<nat>)
    requires i <= |s|
    ensures r.Some? ==> i <= r.value < |s| && s[r.value] == c
    decreases |s| - i
  {
    if i == |s| then None
    else if s[i] == c then Some(i)
    else FindFrom(s, i + 1, c)
  }

  /** `FindFrom` passes over no occurrence: there is none before its answer, and none at all when it fails. */
  lemma {:induction false} FindFromSkipsNone(s: string, i: nat, c: char)
    requires i <= |s|
    ensures var r := FindFrom(s, i, c);
      c !in s[i..if r.Some? then r.value else |s|]
    decreases |s| - i
  {
    if i < |s| && s[i] != c {
      FindFromSkipsNone(s, i + 1, c);
      var r := FindFrom(s, i, c);
      var e := if r.Some? then r.value else |s|;
      assert s[i..e] == [s[i]] + s[i + 1..e];
    }
  }

  /** Any occurrence of `c` at or after `i` with none before it is the one `FindFrom` reports. */
  lemma {:induction false} FindFromFindsFirst(s: string, i: nat, k: nat, c: char)
    requires i <= k < |s| && s[k] == c && c !in s[i..k]
    ensures FindFrom(s, i, c) == Some(k)
    decreases k - i
  {
    if i < k {
      assert s[i] == s[i..k][0];
      assert s[i + 1..k] == s[i..k][1..];
      FindFromFindsFirst(s, i + 1, k, c);
    }
  }

  /** The first position at or after `i` that does not hold whitespace (or `|s|`). */
  function SkipSpaces(s: string, i: nat): (r: nat)
    requires i <= |s|
    ensures i <= r <= |s|
    ensures r < |s| ==> !IsSpace(s[r])
    decreases |s| - i
  {
    if i < |s| && IsSpace(s[i]) then SkipSpaces(s, i + 1) else i
  }

  /** The end of `s[..j]` once trailing whitespace is dropped, never below `lo`. */
  function TrimEnd(s: string, lo: nat, j: nat): (r: nat)
    requires lo <= j <= |s|
    ensures lo <= r <= j
    ensures r > lo ==> !IsSpace(s[r - 1])
    decreases j
  {
    if j > lo && IsSpace(s[j - 1]) then TrimEnd(s, lo, j - 1) else j
  }

  /** Python's `s.strip()`: drops leading and trailing whitespace and nothing else. */
  function Strip(s: string): (r: string)
    ensures r != [] ==> !IsSpace(r[0]) && !IsSpace(r[|r| - 1])
  {
    var a := SkipSpaces(s, 0);
    s[a..TrimEnd(s, a, |s|)]
  }

  lemma {:induction false} SkipSpacesSkipsOnlySpaces(s: string, i: nat)
    requires i <= |s|
    ensures forall k :: i <= k < SkipSpaces(s, i) ==> IsSpace(s[k])
    decreases |s| - i
  {
    if i < |s| && IsSpace(s[i]) {
      SkipSpacesSkipsOnlySpaces(s, i + 1);
    }
  }

  lemma {:induction false} TrimEndDropsOnlySpaces(s: string, lo: nat, j: nat)
    requires lo <= j <= |s|
    ensures forall k :: TrimEnd(s, lo, j) <= k < j ==> IsSpace(s[k])
    decreases j
  {
    if j > lo && IsSpace(s[j - 1]) {
      TrimEndDropsOnlySpaces(s, lo, j - 1);
    }
  }

  /** `strip()` removes whitespace only: what it drops on either side is whitespace. */
  lemma StripDropsOnlySpaces(s: string)
    ensures var a := SkipSpaces(s, 0);
      && Strip(s) == s[a..TrimEnd(s, a, |s|)]
      && (forall k :: 0 <= k < a ==> IsSpace(s[k]))
      && (forall k :: TrimEnd(s, a, |s|) <= k < |s| ==> IsSpace(s[k]))
  {
    SkipSpacesSkipsOnlySpaces(s, 0);
    TrimEndDropsOnlySpaces(s, SkipSpaces(s, 0), |s|);
  }

  /** `strip()` gives "" exactly for an all-whitespace string. */
  lemma StripEmptyIffAllSpace(s: string)
    ensures Strip(s) == [] <==> forall k :: 0 <= k < |s| ==> IsSpace(s[k])
  {
    StripDropsOnlySpaces(s);
    var a := SkipSpaces(s, 0);
    if Strip(s) != [] {
      assert !IsSpace(s[a]);
    }
  }

  /** A string with no whitespace at either end is its own `strip()`. */
  lemma StripNoop(s: string)
    requires s != [] && !IsSpace(s[0]) && !IsSpace(s[|s| - 1])
    ensures Strip(s) == s
  {
  }

  /** No two neighbouring characters are both whitespace. */
  predicate NoDoubleSpace(s: string) {
    forall i :: 0 <= i < |s| - 1 ==> !IsSpace(s[i]) || !IsSpace(s[i + 1])
  }

  /** A string with no surrounding whitespace and no run of two or more whitespace characters. */
  predicate Normalized(s: string) {
    (s != [] ==> !IsSpace(s[0]) && !IsSpace(s[|s| - 1])) && NoDoubleSpace(s)
  }

  /** Python's `re.sub(r'\s+', ' ', s)`: every maximal whitespace run becomes one blank. */
  function CollapseSpaces(s: string): (r: string)
    ensures |r| <= |s|
    ensures NoDoubleSpace(r)
    ensures forall i :: 0 <= i < |r| && IsSpace(r[i]) ==> r[i] == ' '
    ensures r != [] && IsSpace(r[0]) ==> IsSpace(s[0])
    decreases |s|
  {
    if s == [] then []
    else if IsSpace(s[0]) then [' '] + CollapseSpaces(s[SkipSpaces(s, 1)..])
    else [s[0]] + CollapseSpaces(s[1..])
  }

  lemma NoDoubleSpaceSlice(s: string, a: nat, b: nat)
    requires a <= b <= |s| && NoDoubleSpace(s)
    ensures NoDoubleSpace(s[a..b])
  {
    var t := s[a..b];
    forall i | 0 <= i < |t| - 1 ensures !IsSpace(t[i]) || !IsSpace(t[i + 1]) {
      assert t[i] == s[a + i] && t[i + 1] == s[a + i + 1];
    }
  }

  /** The characters of `s` that are not whitespace, in order. */
  function NonSpaces(s: string): string
  {
    if s == [] then [] else (if IsSpace(s[0]) then [] else [s[0]]) + NonSpaces(s[1..])
  }

  lemma {:induction false} NonSpacesAppend(a: string, b: string)
    ensures NonSpaces(a + b) == NonSpaces(a) + NonSpaces(b)
  {
    if a == [] {
      assert a + b == b;
    } else {
      assert (a + b)[0] == a[0] && (a + b)[1..] == a[1..] + b;
      NonSpacesAppend(a[1..], b);
    }
  }

  lemma {:induction false} NonSpacesOfSpaces(w: string)
    requires forall k :: 0 <= k < |w| ==> IsSpace(w[k])
    ensures NonSpaces(w) == []
  {
    if w != [] {
      NonSpacesOfSpaces(w[1..]);
    }
  }

  /** Where `SkipSpaces` stops is decided inside `a` unless `a` is whitespace from `i` on. */
  lemma {:induction false} SkipSpacesAppend(a: string, b: string, i: nat)
    requires i <= |a|
    ensures SkipSpaces(a, i) < |a| ==> SkipSpaces(a + b, i) == SkipSpaces(a, i)
    ensures SkipSpaces(a, i) == |a| && (b == [] || !IsSpace(b[0])) ==> SkipSpaces(a + b, i) == |a|
    decreases |a| - i
  {
    if i < |a| {
      assert (a + b)[i] == a[i];
      if IsSpace(a[i]) {
        SkipSpacesAppend(a, b, i + 1);
      }
    } else if b != [] {
      assert (a + b)[i] == b[0];
    }
  }

  /** The two ways `CollapseSpaces` takes a text apart at its first character. */
  lemma CollapseUnfold(s: string)
    requires s != []
    ensures !IsSpace(s[0]) ==> CollapseSpaces(s) == [s[0]] + CollapseSpaces(s[1..])
    ensures IsSpace(s[0]) ==> CollapseSpaces(s) == [' '] + CollapseSpaces(s[SkipSpaces(s, 1)..])
  {
  }

  /** Concatenation regrouped, for the cons steps below. */
  lemma Regroup(h: string, t: string, u: string, x: string, y: string)
    requires x == h + t && y == t + u
    ensures h + y == x + u
  {
  }

  /** A leading character that is not whitespace is kept, whatever follows. */
  lemma CollapseConsPlain(a: string, b: string)
    requires a != [] && !IsSpace(a[0])
    requires CollapseSpaces(a[1..] + b) == CollapseSpaces(a[1..]) + CollapseSpaces(b)
    ensures CollapseSpaces(a + b) == CollapseSpaces(a) + CollapseSpaces(b)
  {
    assert (a + b)[0] == a[0] && (a + b)[1..] == a[1..] + b;
    CollapseUnfold(a + b);
    CollapseUnfold(a);
    Regroup([a[0]], CollapseSpaces(a[1..]), CollapseSpaces(b), CollapseSpaces(a), CollapseSpaces(a[1..] + b));
  }

  /** A leading whitespace run that ends inside `a` becomes one blank, whatever follows. */
  lemma CollapseConsRun(a: string, b: string)
    requires a != [] && IsSpace(a[0]) && SkipSpaces(a, 1) < |a|
    requires CollapseSpaces(a[SkipSpaces(a, 1)..] + b) == CollapseSpaces(a[SkipSpaces(a, 1)..]) + CollapseSpaces(b)
    ensures CollapseSpaces(a + b) == CollapseSpaces(a) + CollapseSpaces(b)
  {
    var j := SkipSpaces(a, 1);
    SkipSpacesAppend(a, b, 1);
    assert (a + b)[0] == a[0] && (a + b)[j..] == a[j..] + b;
    CollapseUnfold(a + b);
    CollapseUnfold(a);
    Regroup([' '], CollapseSpaces(a[j..]), CollapseSpaces(b), CollapseSpaces(a), CollapseSpaces(a[j..] + b));
  }

  /** A text that is all whitespace becomes one blank, and so does it in front of text that starts otherwise. */
  lemma CollapseAllSpaces(a: string, b: string)
    requires a != [] && IsSpace(a[0]) && SkipSpaces(a, 1) == |a|
    requires b == [] || !IsSpace(b[0])
    ensures CollapseSpaces(a) == " " && CollapseSpaces(a + b) == [' '] + CollapseSpaces(b)
  {
    SkipSpacesAppend(a, b, 1);
    assert (a + b)[0] == a[0] && (a + b)[|a|..] == b;
    assert a[|a|..] == [];
  }

  /**
   * `re.sub` works run by run: text that does not end in whitespace, or text
   * that follows without starting with it, is collapsed on its own.
   */
  lemma {:induction false} CollapseAppend(a: string, b: string)
    requires a == [] || b == [] || !IsSpace(a[|a| - 1]) || !IsSpace(b[0])
    ensures CollapseSpaces(a + b) == CollapseSpaces(a) + CollapseSpaces(b)
    decreases |a|
  {
    if a == [] {
      assert a + b == b;
    } else if b == [] {
      assert a + b == a;
    } else if !IsSpace(a[0]) {
      CollapseAppend(a[1..], b);
      CollapseConsPlain(a, b);
    } else if SkipSpaces(a, 1) < |a| {
      CollapseAppend(a[SkipSpaces(a, 1)..], b);
      CollapseConsRun(a, b);
    } else {
      SkipSpacesSkipsOnlySpaces(a, 1);
      assert IsSpace(a[|a| - 1]);
      CollapseAllSpaces(a, b);
    }
  }

  /** A whitespace run on its own becomes one blank. */
  lemma CollapseRun(w: string)
    requires w != [] && forall k :: 0 <= k < |w| ==> IsSpace(w[k])
    ensures CollapseSpaces(w) == " "
  {
    assert SkipSpaces(w, 1) == |w|;
    assert w[|w|..] == [];
  }

  /**
   * The substitution itself: a maximal whitespace run between two stretches
   * of text becomes exactly one blank, and the stretches are collapsed on
   * their own.
   */
  lemma CollapseAroundRun(a: string, w: string, b: string)
    requires w != [] && forall k :: 0 <= k < |w| ==> IsSpace(w[k])
    requires a == [] || !IsSpace(a[|a| - 1])
    requires b == [] || !IsSpace(b[0])
    ensures CollapseSpaces(a + w + b) == CollapseSpaces(a) + " " + CollapseSpaces(b)
  {
    var ca, cb := CollapseSpaces(a), CollapseSpaces(b);
    CollapseRun(w);
    CollapseAppend(w, b);
    assert CollapseSpaces(w + b) == " " + cb;
    CollapseAppend(a, w + b);
    assert a + w + b == a + (w + b);
    Regroup(ca, " ", cb, ca + " ", " " + cb);
  }

  /** Collapsing keeps every character that is not whitespace, in order. */
  lemma {:induction false} CollapseKeepsNonSpaces(s: string)
    ensures NonSpaces(CollapseSpaces(s)) == NonSpaces(s)
    decreases |s|
  {
    if s != [] {
      if IsSpace(s[0]) {
        var j := SkipSpaces(s, 1);
        CollapseKeepsNonSpaces(s[j..]);
        NonSpacesAppend([' '], CollapseSpaces(s[j..]));
        SkipSpacesSkipsOnlySpaces(s, 1);
        assert s == s[..j] + s[j..];
        NonSpacesAppend(s[..j], s[j..]);
        NonSpacesOfSpaces(s[..j]);
      } else {
        CollapseKeepsNonSpaces(s[1..]);
        NonSpacesAppend([s[0]], CollapseSpaces(s[1..]));
      }
    }
  }

  /** `re.sub(r'\s+', ' ', s).strip()`. */
  function NormalizeSpaces(s: string): (r: string)
    ensures r == Strip(CollapseSpaces(s))
    ensures Normalized(r)
  {
    var c := CollapseSpaces(s);
    var a := SkipSpaces(c, 0);
    NoDoubleSpaceSlice(c, a, TrimEnd(c, a, |c|));
    Strip(c)
  }

  /** Cutting whitespace off the front keeps every other character. */
  lemma {:induction false} NonSpacesDropFront(c: string, a: nat)
    requires a <= |c|
    requires forall k :: 0 <= k < a ==> IsSpace(c[k])
    ensures NonSpaces(c[a..]) == NonSpaces(c)
    decreases a
  {
    if a > 0 {
      NonSpacesDropFront(c[1..], a - 1);
      assert c[1..][a - 1..] == c[a..];
    }
  }

  /** Cutting whitespace off the back keeps every other character. */
  lemma NonSpacesDropBack(c: string, a: nat, e: nat)
    requires a <= e <= |c|
    requires forall k :: e <= k < |c| ==> IsSpace(c[k])
    ensures NonSpaces(c[a..e]) == NonSpaces(c[a..])
  {
    assert c[a..e] + c[e..] == c[a..];
    NonSpacesAppend(c[a..e], c[e..]);
    NonSpacesOfSpaces(c[e..]);
  }

  /** Cutting whitespace off both ends keeps every other character. */
  lemma NonSpacesOfMiddle(c: string, a: nat, e: nat)
    requires a <= e <= |c|
    requires forall k :: 0 <= k < a ==> IsSpace(c[k])
    requires forall k :: e <= k < |c| ==> IsSpace(c[k])
    ensures NonSpaces(c[a..e]) == NonSpaces(c)
  {
    NonSpacesDropFront(c, a);
    NonSpacesDropBack(c, a, e);
  }

  /** Normalising keeps every character that is not whitespace, in order. */
  lemma NormalizeKeepsNonSpaces(s: string)
    ensures NonSpaces(NormalizeSpaces(s)) == NonSpaces(s)
  {
    var c := CollapseSpaces(s);
    var a := SkipSpaces(c, 0);
    var e := TrimEnd(c, a, |c|);
    StripDropsOnlySpaces(c);
    NonSpacesOfMiddle(c, a, e);
    CollapseKeepsNonSpaces(s);
  }

  /** A text that does not start or end with whitespace is normalised by collapsing alone. */
  lemma NormalizeTrimmed(s: string)
    requires s != [] && !IsSpace(s[0]) && !IsSpace(s[|s| - 1])
    ensures NormalizeSpaces(s) == CollapseSpaces(s)
  {
    var n := |s|;
    assert s == s[..n - 1] + [s[n - 1]];
    CollapseAppend(s[..n - 1], [s[n - 1]]);
    assert CollapseSpaces([s[n - 1]]) == [s[n - 1]];
    var c := CollapseSpaces(s);
    assert c[0] == s[0];
    StripNoop(c);
  }

  /** Python's `sep.join(parts)`: the text opens with the first part and closes with the last. */
  function Join(parts: seq<string>, sep: string): (r: string)
    ensures parts != [] ==> StartsWith(r, parts[0]) && EndsWith(r, parts[|parts| - 1])
  {
    if parts == [] then ""
    else if |parts| == 1 then parts[0]
    else
      var rest := Join(parts[1..], sep);
      var last := parts[|parts| - 1];
      assert last == parts[1..][|parts[1..]| - 1];
      var r := parts[0] + sep + rest;
      assert r[..|parts[0]|] == parts[0];
      assert r[|r| - |last|..] == rest[|rest| - |last|..];
      r
  }

  /** Python's `<=` on str: lexicographic by code point. */
  predicate LexLe(a: string, b: string)
    decreases |a|
  {
    a == [] || (b != [] && (a[0] < b[0] || (a[0] == b[0] && LexLe(a[1..], b[1..]))))
  }

  lemma {:induction false} LexLeTotal(a: string, b: string)
    ensures LexLe(a, b) || LexLe(b, a)
    decreases |a|
  {
    if a != [] && b != [] && a[0] == b[0] {
      LexLeTotal(a[1..], b[1..]);
    }
  }

  predicate SortedStrings(s: seq<string>) {
    forall i :: 0 <= i < |s| - 1 ==> LexLe(s[i], s[i + 1])
  }

  function InsertSorted(x: string, s: seq<string>): (r: seq<string>)
    requires SortedStrings(s)
    ensures |r| == |s| + 1 && (r[0] == x || (s != [] && r[0] == s[0]))
    ensures SortedStrings(r)
    ensures multiset(r) == multiset(s) + multiset{x}
  {
    if s == [] then [x]
    else if LexLe(x, s[0]) then [x] + s
    else
      LexLeTotal(x, s[0]);
      var rest := InsertSorted(x, s[1..]);
      assert s == [s[0]] + s[1..];
      [s[0]] + rest
  }

  /** Python's `sorted(files)` for a list of strings. */
  function SortStrings(s: seq<string>): (r: seq<string>)
    ensures SortedStrings(r)
    ensures multiset(r) == multiset(s)
  {
    if s == [] then []
    else
      assert s == [s[0]] + s[1..];
      InsertSorted(s[0], SortStrings(s[1..]))
  }
}
