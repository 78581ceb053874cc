/**
 * `LLMClient._extract_json_object`: find the first complete JSON object in a
 * reply. After the fences are removed and the text trimmed, a scan starts at
 * the first `{` and tracks a brace depth, an in-string flag and an
 * escape-next flag; every point where the depth returns to zero outside a
 * string closes a candidate, and the first candidate the decoder accepts is
 * the answer. If none is accepted, the whole rest of the text from that `{`
 * is tried once.
 */
module Locator {
  import opened Wrappers
  import opened Text
  import opened Types

  /** The three variables of the scan: `brace_count`, `in_string`, `escape_next`. */
  datatype ScanState = ScanState(depth: int, inString: bool, escapeNext: bool)

  const Initial := ScanState(0, false, false)

  /**
   * One character of the scan: the effect of one iteration of the loop body
   * on its variables. Only an unescaped quote toggles the string flag, and
   * the depth moves only on a brace outside strings.
   */
  function Step(st: ScanState, c: char): (r: ScanState)
    ensures r.inString != st.inString <==> !st.escapeNext && c == '"'
    ensures r.depth != st.depth ==> !st.escapeNext && !st.inString && (c == '{' || c == '}')
  {
    if st.escapeNext then st.(escapeNext := false)
    else if c == '\\' then st.(escapeNext := true)
    else if c == '"' then st.(inString := !st.inString)
    else if st.inString then st
    else if c == '{' then st.(depth := st.depth + 1)
    else if c == '}' then st.(depth := st.depth - 1)
    else st
  }

  /**
   * What one character does to the escape flag and the depth: a character
   * right after a backslash only clears the escape flag, a backslash arms it,
   * and a brace outside strings moves the depth by one.
   */
  lemma StepEffects(st: ScanState, c: char)
    ensures st.escapeNext ==> Step(st, c) == st.(escapeNext := false)
    ensures !st.escapeNext && c == '\\' ==> Step(st, c) == st.(escapeNext := true)
    ensures !st.escapeNext && !st.inString && c == '{' ==> Step(st, c).depth == st.depth + 1
    ensures !st.escapeNext && !st.inString && c == '}' ==> Step(st, c).depth == st.depth - 1
  {
  }

  /** Reading `c` in state `st` brings the depth back to zero: a candidate ends here. */
  predicate Closes(st: ScanState, c: char) {
    !st.escapeNext && !st.inString && c == '}' && st.depth == 1
  }

  /** The scan state just before position `j`, having started at `start`. */
  function StateAt(text: string, start: nat, j: nat): ScanState
    requires start <= j <= |text|
    decreases j - start
  {
    if j == start then Initial else Step(StateAt(text, start, j - 1), text[j - 1])
  }

  /** Position `j` closes a depth-zero candidate `text[start..j+1]`. */
  predicate IsCandidate(text: string, start: nat, j: nat)
    requires start <= j < |text|
  {
    Closes(StateAt(text, start, j), text[j])
  }

  /**
   * The rest of the scan from position `i` in state `st`: the end of the first
   * candidate the decoder accepts, if any.
   */
  function FirstAccepted(text: string, start: nat, i: nat, st: ScanState, decode: string -> Option<Json>): (r: Option<nat>)
    requires start <= i <= |text|
    ensures r.Some? ==> i <= r.value < |text| && text[r.value] == '}'
    ensures r.Some? ==> decode(text[start..r.value + 1]).Some?
    decreases |text| - i
  {
    if i == |text| then None
    else if Closes(st, text[i]) && decode(text[start..i + 1]).Some? then Some(i)
    else FirstAccepted(text, start, i + 1, Step(st, text[i]), decode)
  }

  /** The text the scan works on: fences removed, then `strip()`. */
  function Cleaned(text: string, stripFences: string -> string): string
  {
    Strip(stripFences(text))
  }

  /**
   * The value `_extract_json_object` returns: None for an empty cleaned text or
   * one without `{`; otherwise the first accepted candidate, else the stripped
   * remainder if it decodes, else None. Every answer is accepted by the decoder.
   */
  function Locate(text: string, stripFences: string -> string, decode: string -> Option<Json>): (r: Option<string>)
    ensures Cleaned(text, stripFences) == [] ==> r.None?
    ensures '{' !in Cleaned(text, stripFences) ==> r.None?
    ensures r.Some? ==> decode(r.value).Some?
  {
    var c := Cleaned(text, stripFences);
    if c == [] then None
    else
      match FindChar(c, '{')
      case None => None
      case Some(s) =>
        LocateFrom(c, s, decode)
  }

  /** The scan from the first brace `s` of the cleaned text `c`, then the fallback. */
  function LocateFrom(c: string, s: nat, decode: string -> Option<Json>): (r: Option<string>)
    requires s < |c|
    ensures r.Some? ==> decode(r.value).Some?
  {
    match FirstAccepted(c, s, s, Initial, decode)
    case Some(j) => Some(c[s..j + 1])
    case None =>
      var rest := Strip(c[s..]);
      if decode(rest).Some? then Some(rest) else None
  }

  /** With the first brace at `s`, the locator is the scan from `s` and its fallback. */
  lemma LocateUnfold(text: string, stripFences: string -> string, decode: string -> Option<Json>, s: nat)
    requires FindChar(Cleaned(text, stripFences), '{') == Some(s)
    ensures s < |Cleaned(text, stripFences)| && Cleaned(text, stripFences)[s] == '{'
    ensures !IsSpace(Cleaned(text, stripFences)[|Cleaned(text, stripFences)| - 1])
    ensures Locate(text, stripFences, decode) == LocateFrom(Cleaned(text, stripFences), s, decode)
  {
  }

  /** The remainder from the first `{` of a stripped text is already stripped. */
  lemma RemainderIsStripped(c: string, s: nat)
    requires s < |c| && c[s] == '{' && !IsSpace(c[|c| - 1])
    ensures Strip(c[s..]) == c[s..]
  {
    var rest := c[s..];
    assert rest[0] == '{' && rest[|rest| - 1] == c[|c| - 1];
  }

  /** One step of the scan, phrased with the states the scan reaches from `start`. */
  lemma FirstAcceptedUnfold(text: string, start: nat, i: nat, decode: string -> Option<Json>)
    requires start <= i < |text|
    ensures FirstAccepted(text, start, i, StateAt(text, start, i), decode)
         == if IsCandidate(text, start, i) && decode(text[start..i + 1]).Some? then Some(i)
            else FirstAccepted(text, start, i + 1, StateAt(text, start, i + 1), decode)
  {
  }

  /** An accepted end closes a candidate, and every candidate before it fails to decode. */
  lemma {:induction false} FirstAcceptedSkipsOnlyFailures(text: string, start: nat, i: nat, decode: string -> Option<Json>)
    requires start <= i <= |text|
    requires FirstAccepted(text, start, i, StateAt(text, start, i), decode).Some?
    ensures var j := FirstAccepted(text, start, i, StateAt(text, start, i), decode).value;
      && IsCandidate(text, start, j)
      && forall k {:trigger IsCandidate(text, start, k)} :: i <= k < j && IsCandidate(text, start, k) ==> decode(text[start..k + 1]).None?
    decreases |text| - i
  {
    FirstAcceptedUnfold(text, start, i, decode);
    if !(IsCandidate(text, start, i) && decode(text[start..i + 1]).Some?) {
      FirstAcceptedSkipsOnlyFailures(text, start, i + 1, decode);
    }
  }

  /** When nothing is accepted, every candidate from `i` on fails to decode. */
  lemma {:induction false} NoneAcceptedMeansAllFail(text: string, start: nat, i: nat, decode: string -> Option<Json>)
    requires start <= i <= |text|
    requires FirstAccepted(text, start, i, StateAt(text, start, i), decode).None?
    ensures forall k {:trigger IsCandidate(text, start, k)} :: i <= k < |text| && IsCandidate(text, start, k) ==> decode(text[start..k + 1]).None?
    decreases |text| - i
  {
    if i < |text| {
      FirstAcceptedUnfold(text, start, i, decode);
      NoneAcceptedMeansAllFail(text, start, i + 1, decode);
    }
  }

  /** `FirstAccepted` finds exactly the first decodable candidate at or after `i`. */
  lemma FirstAcceptedIsFirst(text: string, start: nat, i: nat, decode: string -> Option<Json>)
    requires start <= i <= |text|
    ensures var r := FirstAccepted(text, start, i, StateAt(text, start, i), decode);
      && (r.Some? ==>
            && IsCandidate(text, start, r.value)
            && forall k {:trigger IsCandidate(text, start, k)} :: i <= k < r.value && IsCandidate(text, start, k) ==> decode(text[start..k + 1]).None?)
      && (r.None? ==>
            forall k {:trigger IsCandidate(text, start, k)} :: i <= k < |text| && IsCandidate(text, start, k) ==> decode(text[start..k + 1]).None?)
  {
    if FirstAccepted(text, start, i, StateAt(text, start, i), decode).Some? {
      FirstAcceptedSkipsOnlyFailures(text, start, i, decode);
    } else {
      NoneAcceptedMeansAllFail(text, start, i, decode);
    }
  }

  lemma LocateFromIsPrefix(c: string, s: nat, decode: string -> Option<Json>)
    requires s < |c| && c[s] == '{' && !IsSpace(c[|c| - 1])
    requires LocateFrom(c, s, decode).Some?
    ensures var r := LocateFrom(c, s, decode).value;
      r != [] && r[0] == '{' && s + |r| <= |c| && r == c[s..s + |r|]
  {
    if FirstAccepted(c, s, s, Initial, decode).None? {
      RemainderIsStripped(c, s);
    }
  }

  /**
   * Any answer of the locator is a piece of the cleaned text that starts at its
   * first `{`.
   */
  lemma LocateIsPrefixFromFirstBrace(text: string, stripFences: string -> string, decode: string -> Option<Json>)
    requires Locate(text, stripFences, decode).Some?
    ensures var c := Cleaned(text, stripFences);
      var r := Locate(text, stripFences, decode).value;
      && FindChar(c, '{').Some?
      && var s := FindChar(c, '{').value;
      && r != [] && r[0] == '{' && s + |r| <= |c| && r == c[s..s + |r|]
  {
    var c := Cleaned(text, stripFences);
    var s := FindChar(c, '{').value;
    LocateIsPrefixFrom(text, stripFences, decode, s);
  }

  /** The same, with the first brace `s` given. */
  lemma LocateIsPrefixFrom(text: string, stripFences: string -> string, decode: string -> Option<Json>, s: nat)
    requires FindChar(Cleaned(text, stripFences), '{') == Some(s)
    requires Locate(text, stripFences, decode).Some?
    ensures var r := Locate(text, stripFences, decode).value;
      r != [] && r[0] == '{' && s + |r| <= |Cleaned(text, stripFences)| && r == Cleaned(text, stripFences)[s..s + |r|]
  {
    var c := Cleaned(text, stripFences);
    LocateUnfold(text, stripFences, decode, s);
    assert LocateFrom(c, s, decode) == Locate(text, stripFences, decode);
    LocateFromIsPrefix(c, s, decode);
  }

  /**
   * Characterisation, first half: when some candidate decodes, the locator
   * returns the first (shortest) such candidate, whatever failed candidates
   * precede it.
   */
  lemma LocateReturnsFirstDecodingCandidate(text: string, stripFences: string -> string, decode: string -> Option<Json>, s: nat, j: nat)
    requires FindChar(Cleaned(text, stripFences), '{') == Some(s)
    requires s <= j < |Cleaned(text, stripFences)|
    requires IsCandidate(Cleaned(text, stripFences), s, j)
    requires decode(Cleaned(text, stripFences)[s..j + 1]).Some?
    requires forall k {:trigger IsCandidate(Cleaned(text, stripFences), s, k)} :: s <= k < j && IsCandidate(Cleaned(text, stripFences), s, k) ==>
               decode(Cleaned(text, stripFences)[s..k + 1]).None?
    ensures Locate(text, stripFences, decode) == Some(Cleaned(text, stripFences)[s..j + 1])
  {
    var c := Cleaned(text, stripFences);
    LocateUnfold(text, stripFences, decode, s);
    FirstDecodingCandidateIsAccepted(c, s, j, decode);
    LocateFromAccepted(c, s, j, decode);
  }

  /** An accepted candidate ending at `j` is what the scan from `s` returns. */
  lemma LocateFromAccepted(c: string, s: nat, j: nat, decode: string -> Option<Json>)
    requires s < |c| && FirstAccepted(c, s, s, Initial, decode) == Some(j)
    ensures LocateFrom(c, s, decode) == Some(c[s..j + 1])
  {
  }

  lemma FirstDecodingCandidateIsAccepted(c: string, s: nat, j: nat, decode: string -> Option<Json>)
    requires s <= j < |c|
    requires IsCandidate(c, s, j) && decode(c[s..j + 1]).Some?
    requires forall k {:trigger IsCandidate(c, s, k)} :: s <= k < j && IsCandidate(c, s, k) ==> decode(c[s..k + 1]).None?
    ensures FirstAccepted(c, s, s, Initial, decode) == Some(j)
  {
    assert StateAt(c, s, s) == Initial;
    FirstAcceptedIsFirst(c, s, s, decode);

  }

  /**
   * Characterisation, second half: when no candidate decodes, the whole
   * remainder from the first `{` is returned if it decodes and None otherwise;
   * so a truncated object with no closing brace yields None.
   */
  lemma LocateFallsBackToRemainder(text: string, stripFences: string -> string, decode: string -> Option<Json>, s: nat)
    requires FindChar(Cleaned(text, stripFences), '{') == Some(s)
    requires forall k {:trigger IsCandidate(Cleaned(text, stripFences), s, k)} :: s <= k < |Cleaned(text, stripFences)| && IsCandidate(Cleaned(text, stripFences), s, k) ==>
               decode(Cleaned(text, stripFences)[s..k + 1]).None?
    ensures var rest := Cleaned(text, stripFences)[s..];
      Locate(text, stripFences, decode) == if decode(rest).Some? then Some(rest) else None
  {
    var c := Cleaned(text, stripFences);
    LocateUnfold(text, stripFences, decode, s);
    FirstAcceptedIsFirst(c, s, s, decode);
    RemainderIsStripped(c, s);
  }

  /**
   * The scan loop of `_extract_json_object`, from the first brace `start`: the
   * variables are updated exactly as `Step` says, and the end of the first
   * candidate the decoder accepts is returned.
   */
  method ScanCandidates(cleaned: string, start: nat, decode: string -> Option<Json>) returns (r: Option<nat>)
    requires start <= |cleaned|
    ensures r == FirstAccepted(cleaned, start, start, Initial, decode)
  {
    var braceCount := 0;
    var inString := false;
    var escapeNext := false;
    var i := start;
    while i < |cleaned|
      invariant start <= i <= |cleaned|
      invariant FirstAccepted(cleaned, start, start, Initial, decode)
             == FirstAccepted(cleaned, start, i, ScanState(braceCount, inString, escapeNext), decode)
    {
      var ch := cleaned[i];
      ghost var before := ScanState(braceCount, inString, escapeNext);
      if escapeNext {
        escapeNext := false;
      } else if ch == '\\' {
        escapeNext := true;
      } else if ch == '"' {
        inString := !inString;
      } else if !inString {
        if ch == '{' {
          braceCount := braceCount + 1;
        } else if ch == '}' {
          braceCount := braceCount - 1;
          if braceCount == 0 {
            if decode(cleaned[start..i + 1]).Some? {
              ScanStops(cleaned, start, i, before, decode);
              return Some(i);
            }
          }
        }
      }
      ScanMovesOn(cleaned, start, i, before, ScanState(braceCount, inString, escapeNext), decode);
      i := i + 1;
    }
    return None;
  }

  /** `_extract_json_object`: the scan from the first brace, then the stripped remainder as a last try. */
  method ExtractJsonObject(text: string, stripFences: string -> string, decode: string -> Option<Json>) returns (r: Option<string>)
    ensures r == Locate(text, stripFences, decode)
  {
    var cleaned := Strip(stripFences(text));
    if |cleaned| == 0 {
      return None;
    }
    var found := FindChar(cleaned, '{');
    if found.None? {
      return None;
    }
    var start := found.value;
    LocateUnfold(text, stripFences, decode, start);
    var end := ScanCandidates(cleaned, start, decode);
    if end.Some? {
      return Some(cleaned[start..end.value + 1]);
    }
    var potential := Strip(cleaned[start..]);
    if decode(potential).Some? {
      return Some(potential);
    }
    return None;
  }

  /** A position that closes a candidate the decoder accepts ends the scan there. */
  lemma ScanStops(text: string, start: nat, i: nat, st: ScanState, decode: string -> Option<Json>)
    requires start <= i < |text|
    requires Closes(st, text[i]) && decode(text[start..i + 1]).Some?
    ensures FirstAccepted(text, start, i, st, decode) == Some(i)
  {
  }

  /** A position that does not close an accepted candidate just moves the scan on by one state. */
  lemma ScanMovesOn(text: string, start: nat, i: nat, st: ScanState, next: ScanState, decode: string -> Option<Json>)
    requires start <= i < |text|
    requires !(Closes(st, text[i]) && decode(text[start..i + 1]).Some?) && Step(st, text[i]) == next
    ensures FirstAccepted(text, start, i, st, decode) == FirstAccepted(text, start, i + 1, next, decode)
  {
  }

  /** A position that closes no candidate just moves the scan on by one state. */
  lemma ScanPasses(text: string, start: nat, i: nat, st: ScanState, next: ScanState, decode: string -> Option<Json>)
    requires start <= i < |text|
    requires !Closes(st, text[i]) && Step(st, text[i]) == next
    ensures FirstAccepted(text, start, i, st, decode) == FirstAccepted(text, start, i + 1, next, decode)
  {
  }

  /** A string body without quotes or backslashes: the scan stays inside the string across it. */
  predicate PlainBody(s: string) {
    '"' !in s && '\\' !in s
  }

  /**
   * Inside a string and not after a backslash, characters other than `"` and
   * `\` leave the scan state as it is and close nothing, whatever they are.
   */
  lemma {:induction false} InsideRun(text: string, start: nat, i: nat, j: nat, st: ScanState, decode: string -> Option<Json>)
    requires start <= i <= j <= |text|
    requires st.inString && !st.escapeNext
    requires forall m :: i <= m < j ==> text[m] != '"' && text[m] != '\\'
    ensures FirstAccepted(text, start, i, st, decode) == FirstAccepted(text, start, j, st, decode)
    decreases j - i
  {
    if i < j {
      ScanPasses(text, start, i, st, st, decode);
      InsideRun(text, start, i + 1, j, st, decode);
    }
  }

  /** `{"k":"v"}` laid out: where its quotes, colon and braces sit. */
  predicate QuotedPairAt(t: string, a: nat, b: nat)
  {
    && 2 <= a && a + 3 <= b && |t| == b + 2
    && t[0] == '{' && t[1] == '"' && t[a] == '"' && t[a + 1] == ':' && t[a + 2] == '"'
    && t[b] == '"' && t[b + 1] == '}'
  }

  /** The text built from a key and a value has the `{"k":"v"}` layout, with their characters in between. */
  lemma QuotedPairLayout(k: string, v: string)
    ensures var t := "{\"" + k + "\":\"" + v + "\"}";
      && QuotedPairAt(t, 2 + |k|, 5 + |k| + |v|)
      && (forall m :: 2 <= m < 2 + |k| ==> t[m] == k[m - 2])
      && (forall m :: 5 + |k| <= m < 5 + |k| + |v| ==> t[m] == v[m - 5 - |k|])
  {
  }

  /** Over `{"k":"` the scan opens the object, passes the key and enters the value's string. */
  lemma {:induction false} KeyScan(t: string, a: nat, b: nat, decode: string -> Option<Json>)
    requires QuotedPairAt(t, a, b)
    requires forall m :: 2 <= m < a ==> t[m] != '"' && t[m] != '\\'
    ensures FirstAccepted(t, 0, 0, Initial, decode) == FirstAccepted(t, 0, a + 3, ScanState(1, true, false), decode)
  {
    var outside, inside := ScanState(1, false, false), ScanState(1, true, false);
    ScanPasses(t, 0, 0, Initial, outside, decode);
    ScanPasses(t, 0, 1, outside, inside, decode);
    InsideRun(t, 0, 2, a, inside, decode);
    ScanPasses(t, 0, a, inside, outside, decode);
    ScanPasses(t, 0, a + 1, outside, outside, decode);
    ScanPasses(t, 0, a + 2, outside, inside, decode);
  }

  /** Over `v"}` the scan passes the value, leaves the string and stops at the closing brace. */
  lemma {:induction false} ValueScan(t: string, a: nat, b: nat, decode: string -> Option<Json>)
    requires QuotedPairAt(t, a, b)
    requires forall m :: a + 3 <= m < b ==> t[m] != '"' && t[m] != '\\'
    requires decode(t).Some?
    ensures FirstAccepted(t, 0, a + 3, ScanState(1, true, false), decode) == Some(b + 1)
  {
    var outside, inside := ScanState(1, false, false), ScanState(1, true, false);
    InsideRun(t, 0, a + 3, b, inside, decode);
    ScanPasses(t, 0, b, inside, outside, decode);
    assert t[0..b + 2] == t;
    ScanStops(t, 0, b + 1, outside, decode);
  }

  /**
   * The scan over a text laid out as `{"k":"v"}`, whose key and value hold no
   * quote or backslash, passes every brace inside the two strings and stops
   * at the last character.
   */
  lemma QuotedValueScan(t: string, a: nat, b: nat, decode: string -> Option<Json>)
    requires QuotedPairAt(t, a, b)
    requires forall m :: 2 <= m < a ==> t[m] != '"' && t[m] != '\\'
    requires forall m :: a + 3 <= m < b ==> t[m] != '"' && t[m] != '\\'
    requires decode(t).Some?
    ensures FirstAccepted(t, 0, 0, Initial, decode) == Some(|t| - 1)
  {
    KeyScan(t, a, b, decode);
    ValueScan(t, a, b, decode);
  }

  /**
   * A brace inside a string does not end the object: `{"k":"v"}` is returned
   * whole for any key and value without quotes or backslashes, `{"k":"}"}`
   * among them (when the decoder accepts it and there are no fences).
   */
  lemma BracesInStringsIgnored(k: string, v: string, stripFences: string -> string, decode: string -> Option<Json>)
    requires PlainBody(k) && PlainBody(v)
    requires stripFences("{\"" + k + "\":\"" + v + "\"}") == "{\"" + k + "\":\"" + v + "\"}"
    requires decode("{\"" + k + "\":\"" + v + "\"}").Some?
    ensures var t := "{\"" + k + "\":\"" + v + "\"}";
      Locate(t, stripFences, decode) == Some(t)
  {
    var t := "{\"" + k + "\":\"" + v + "\"}";
    QuotedPairLayout(k, v);
    StripNoop(t);
    assert FindChar(t, '{') == Some(0);
    LocateUnfold(t, stripFences, decode, 0);
    QuotedValueScan(t, 2 + |k|, 5 + |k| + |v|, decode);
    assert t[0..|t|] == t;
  }
}
