/**
 * The clean-up script `process_json.py`: each `system` message of a chat log
 * is cut down to its user-information block and its common-information
 * block, and the file is rewritten when some message changed.
 */
module ProcessJson {
  import opened Wrappers
  import opened Text
  import opened Types

  /** The headers of the two blocks that are kept. */
  const UserInfoHeader: string := "# 用户信息"
  const CommonInfoHeader: string := "# 双方共同信息"

  /**
   * The pattern `header\s*\{[^}]*\}` tried at `p`: the header, any whitespace,
   * `{`, then everything up to the first `}`. The result is the end of the
   * match (exclusive).
   */
  function BlockAt(s: string, h: string, p: nat): (r: Option<nat>)
    requires p <= |s|
    ensures r.Some? ==> p + |h| < r.value <= |s|
  {
    if !OccursAt(h, s, p) then None
    else
      var q := SkipSpaces(s, p + |h|);
      if q < |s| && s[q] == '{' then
        match FindFrom(s, q + 1, '}')
        case Some(e) => Some(e + 1)
        case None => None
      else None
  }

  /** `re.search`: the leftmost position at or after `p` where the pattern matches, with the match's end. */
  function SearchBlock(s: string, h: string, p: nat): (r: Option<(nat, nat)>)
    requires p <= |s|
    ensures r.Some? ==> p <= r.value.0 <= |s| && BlockAt(s, h, r.value.0) == Some(r.value.1)
    ensures r.Some? ==> forall k :: p <= k < r.value.0 ==> BlockAt(s, h, k).None?
    ensures r.None? ==> forall k :: p <= k <= |s| ==> BlockAt(s, h, k).None?
    decreases |s| - p
  {
    match BlockAt(s, h, p)
    case Some(e) => Some((p, e))
    case None => if p == |s| then None else SearchBlock(s, h, p + 1)
  }

  /**
   * The text of the leftmost block with header `h`, if any: None exactly when
   * the pattern matches nowhere, and otherwise a text that starts with the
   * header and ends with `}`.
   */
  function FindBlock(s: string, h: string): (r: Option<string>)
    ensures r.None? <==> forall p :: 0 <= p <= |s| ==> BlockAt(s, h, p).None?
    ensures r.Some? ==> StartsWith(r.value, h) && |r.value| > |h| && r.value[|r.value| - 1] == '}'
  {
    match SearchBlock(s, h, 0)
    case Some((p, e)) =>
      BlockShape(s, h, p);
      assert s[p..e][..|h|] == s[p..p + |h|];
      Some(s[p..e])
    case None => None
  }

  /**
   * `extract_required_sections`: the user block followed by a newline, then
   * the common block, each only if found, then stripped.
   */
  function ExtractRequiredSections(content: string): (r: string)
    ensures r != [] ==> !IsSpace(r[0]) && !IsSpace(r[|r| - 1])
    ensures FindBlock(content, UserInfoHeader).None? && FindBlock(content, CommonInfoHeader).None? ==> r == ""
  {
    var u := FindBlock(content, UserInfoHeader);
    var c := FindBlock(content, CommonInfoHeader);
    var result := (if u.Some? then u.value + "\n" else "") + (if c.Some? then c.value else "");
    Strip(result)
  }

  // ---------------------------------------------------------------------------
  // The shape of a block

  /**
   * A match starts with the header, continues with whitespace up to `{`,
   * holds no `}` after that `{`, and ends with `}`.
   */
  lemma BlockShape(s: string, h: string, p: nat)
    requires p <= |s| && BlockAt(s, h, p).Some?
    ensures var e := BlockAt(s, h, p).value; var q := SkipSpaces(s, p + |h|);
      && s[p..p + |h|] == h
      && p + |h| <= q < e - 1
      && (forall k :: p + |h| <= k < q ==> IsSpace(s[k]))
      && s[q] == '{' && s[e - 1] == '}'
      && '}' !in s[q + 1..e - 1]
  {
    var q := SkipSpaces(s, p + |h|);
    SkipSpacesSkipsOnlySpaces(s, p + |h|);
    FindFromSkipsNone(s, q + 1, '}');
  }

  lemma {:induction false} SkipSpacesRun(s: string, i: nat, j: nat)
    requires i <= j < |s| && !IsSpace(s[j])
    requires forall k :: i <= k < j ==> IsSpace(s[k])
    ensures SkipSpaces(s, i) == j
    decreases j - i
  {
    if i < j {
      SkipSpacesRun(s, i + 1, j);
    }
  }

  /** The pattern matches at `p` whenever a header, whitespace, `{`, non-`}` text and `}` lie there. */
  lemma BlockAtLaidOut(s: string, h: string, p: nat, q: nat, e: nat)
    requires OccursAt(h, s, p) && p + |h| <= q < e < |s|
    requires forall k :: p + |h| <= k < q ==> IsSpace(s[k])
    requires s[q] == '{' && s[e] == '}' && '}' !in s[q + 1..e]
    ensures BlockAt(s, h, p) == Some(e + 1)
  {
    SkipSpacesRun(s, p + |h|, q);
    FindFromFindsFirst(s, q + 1, e, '}');
  }

  /** Where the header's first character is absent, nothing matches. */
  lemma NoBlockWithoutHeadChar(s: string, h: string, p: nat)
    requires p < |s| && h != [] && s[p] != h[0]
    ensures BlockAt(s, h, p).None?
  {
  }

  /** The leftmost match is the first position where the pattern matches. */
  lemma SearchFindsFirstBlock(s: string, h: string, p: nat, e: nat)
    requires p <= |s| && BlockAt(s, h, p) == Some(e)
    requires forall k :: 0 <= k < p ==> BlockAt(s, h, k).None?
    ensures SearchBlock(s, h, 0) == Some((p, e))
  {
  }

  /** Where the parts of a written block sit in the text around it. */
  lemma BlockLayout(pre: string, h: string, ws: string, body: string, post: string)
    ensures var s := pre + h + ws + "{" + body + "}" + post;
      var p := |pre|; var q := p + |h| + |ws|; var e := q + 1 + |body|;
      && e < |s|
      && s[p..e + 1] == h + ws + "{" + body + "}"
      && s[p..p + |h|] == h && s[q] == '{' && s[e] == '}' && s[q + 1..e] == body
      && (forall k :: p + |h| <= k < q ==> s[k] == ws[k - p - |h|])
      && (forall k :: 0 <= k < p ==> s[k] == pre[k])
  {
    var s := pre + h + ws + "{" + body + "}" + post;
    assert s == pre + (h + ws + "{" + body + "}") + post;
    assert s == pre + h + ws + ("{" + body + "}" + post);
  }

  /**
   * The round trip: a block written after text without `#` is the block
   * found, up to its first `}`.
   */
  lemma FindBlockOfLayout(pre: string, h: string, ws: string, body: string, post: string)
    requires h != [] && h[0] == '#' && h[0] !in pre
    requires forall k :: 0 <= k < |ws| ==> IsSpace(ws[k])
    requires '}' !in body
    ensures FindBlock(pre + h + ws + "{" + body + "}" + post, h) == Some(h + ws + "{" + body + "}")
  {
    var s := pre + h + ws + "{" + body + "}" + post;
    var p := |pre|;
    var q := p + |h| + |ws|;
    var e := q + 1 + |body|;
    BlockLayout(pre, h, ws, body, post);
    BlockAtLaidOut(s, h, p, q, e);
    forall k | 0 <= k < p ensures BlockAt(s, h, k).None? {
      NoBlockWithoutHeadChar(s, h, k);
    }
    SearchFindsFirstBlock(s, h, p, e + 1);
  }

  // ---------------------------------------------------------------------------
  // The extracted text

  lemma StripTrailingNewline(b: string)
    requires b != [] && !IsSpace(b[0]) && !IsSpace(b[|b| - 1])
    ensures Strip(b + "\n") == b
  {
    var t := b + "\n";
    assert SkipSpaces(t, 0) == 0;
    assert TrimEnd(t, 0, |t|) == TrimEnd(t, 0, |b|);
    assert t[..|b|] == b;
  }

  /** A block that starts with `#` and ends with `}` has no whitespace to strip at either end. */
  predicate Tight(b: string) {
    b != [] && b[0] == '#' && b[|b| - 1] == '}'
  }

  lemma FoundBlockIsTight(s: string, h: string)
    requires h != [] && h[0] == '#' && FindBlock(s, h).Some?
    ensures Tight(FindBlock(s, h).value)
  {
    var b := FindBlock(s, h).value;
    assert b[0] == b[..|h|][0];
  }

  /** The concatenation and strip of the extraction, for any two tight blocks or their absence. */
  lemma JoinTightBlocks(u: Option<string>, c: Option<string>)
    requires u.Some? ==> Tight(u.value)
    requires c.Some? ==> Tight(c.value)
    ensures Strip((if u.Some? then u.value + "\n" else "") + (if c.Some? then c.value else "")) ==
      if u.Some? && c.Some? then u.value + "\n" + c.value
      else if u.Some? then u.value
      else if c.Some? then c.value
      else ""
  {
    if u.Some? && c.Some? {
      var t := u.value + "\n" + c.value;
      assert t[0] == '#' && t[|t| - 1] == '}';
      StripNoop(t);
    } else if u.Some? {
      StripTrailingNewline(u.value);
      assert u.value + "\n" + "" == u.value + "\n";
    } else if c.Some? {
      StripNoop(c.value);
      assert "" + c.value == c.value;
    }
  }

  /**
   * The result is the user block, a newline and the common block, in that
   * order wherever they stand in the text; a missing block is left out
   * together with its newline, and no other text is kept.
   */
  lemma SectionsInOrder(content: string)
    ensures var u := FindBlock(content, UserInfoHeader);
      var c := FindBlock(content, CommonInfoHeader);
      ExtractRequiredSections(content) ==
        if u.Some? && c.Some? then u.value + "\n" + c.value
        else if u.Some? then u.value
        else if c.Some? then c.value
        else ""
  {
    var u := FindBlock(content, UserInfoHeader);
    var c := FindBlock(content, CommonInfoHeader);
    if u.Some? {
      FoundBlockIsTight(content, UserInfoHeader);
    }
    if c.Some? {
      FoundBlockIsTight(content, CommonInfoHeader);
    }
    JoinTightBlocks(u, c);
  }

  // ---------------------------------------------------------------------------
  // process_json_file

  predicate IsSystem(e: Entry) {
    e.Dict? && e.msg.role == "system"
  }

  /** A system message with its content replaced by the extracted sections; any other entry as it is. */
  function RewriteEntry(e: Entry): Entry {
    if IsSystem(e) then Dict(Msg(e.msg.role, ExtractRequiredSections(e.msg.content))) else e
  }

  /** The rewrite actually alters this entry. */
  predicate Changes(e: Entry) {
    IsSystem(e) && ExtractRequiredSections(e.msg.content) != e.msg.content
  }

  /** Every entry of a log rewritten. */
  function RewriteAll(items: seq<Entry>): seq<Entry> {
    if items == [] then []
    else RewriteAll(items[..|items| - 1]) + [RewriteEntry(items[|items| - 1])]
  }

  /** Only system messages are touched, each by its own extraction; the log keeps its length and order. */
  lemma {:induction false} RewriteAllPointwise(items: seq<Entry>)
    ensures |RewriteAll(items)| == |items|
    ensures forall i :: 0 <= i < |items| ==> RewriteAll(items)[i] == RewriteEntry(items[i])
  {
    if items != [] {
      RewriteAllPointwise(items[..|items| - 1]);
    }
  }

  /** The log changes exactly when some system message's content changes. */
  lemma RewriteChangesIff(items: seq<Entry>)
    ensures RewriteAll(items) != items <==> exists i :: 0 <= i < |items| && Changes(items[i])
  {
    RewriteAllPointwise(items);
    if RewriteAll(items) != items {
      var i :| 0 <= i < |items| && RewriteAll(items)[i] != items[i];
      assert Changes(items[i]);
    }
  }

  /** The loop over the decoded list, replacing the content of system messages in place. */
  method RewriteSystemMessages(data: array<Entry>) returns (modified: bool)
    modifies data
    ensures data[..] == RewriteAll(old(data[..]))
    ensures modified <==> exists i :: 0 <= i < data.Length && Changes(old(data[i]))
  {
    modified := false;
    var i := 0;
    while i < data.Length
      invariant i <= data.Length
      invariant forall k :: 0 <= k < i ==> data[k] == RewriteEntry(old(data[k]))
      invariant forall k :: i <= k < data.Length ==> data[k] == old(data[k])
      invariant modified <==> exists k :: 0 <= k < i && Changes(old(data[k]))
    {
      var changed := RewriteMessageAt(data, i);
      modified := modified || changed;
      i := i + 1;
    }
    RewriteAllPointwise(old(data[..]));
  }

  /** The loop body: the entry at `i` rewritten in place, reporting whether its content changed. */
  method RewriteMessageAt(data: array<Entry>, i: nat) returns (changed: bool)
    requires i < data.Length
    modifies data
    ensures data[i] == RewriteEntry(old(data[i]))
    ensures forall k :: 0 <= k < data.Length && k != i ==> data[k] == old(data[k])
    ensures changed <==> Changes(old(data[i]))
  {
    changed := false;
    var message := data[i];
    if message.Dict? && message.msg.role == "system" {
      var originalContent := message.msg.content;
      var newContent := ExtractRequiredSections(originalContent);
      if newContent != originalContent {
        data[i] := Dict(Msg(message.msg.role, newContent));
        changed := true;
      }
    }
  }

  /**
   * `process_json_file` on the decoded file: False without writing for an
   * unreadable file or one that is not a list; otherwise the rewritten list
   * is written, and True returned, exactly when some message changed.
   */
  method ProcessJsonFile(data: Option<FileData>) returns (result: bool, written: Option<seq<Entry>>)
    ensures result <==> written.Some?
    ensures !(data.Some? && data.value.Entries?) ==> !result
    ensures data.Some? && data.value.Entries? ==>
      && (result <==> exists i :: 0 <= i < |data.value.items| && Changes(data.value.items[i]))
      && (result ==> written == Some(RewriteAll(data.value.items)))
  {
    if data.None? || !data.value.Entries? {
      return false, None;
    }
    var items := data.value.items;
    var messages := new Entry[|items|](k requires 0 <= k < |items| => items[k]);
    assert messages[..] == items;
    var modified := RewriteSystemMessages(messages);
    if modified {
      return true, Some(messages[..]);
    }
    return false, None;
  }
}
