/**
 * The helpers of `file_processor.py`: the file filter of the corpus walk,
 * the extraction of the system prompt and the dialogue from a chat log, the
 * text rendering of a dialogue for the prompt, and the progress record.
 */
module FileProcessor {
  import opened Wrappers
  import opened Text
  import opened Types

  // ---------------------------------------------------------------------------
  // find_all_json_files

  /** One directory reported by `os.walk`: its path and the names of its files. */
  datatype WalkEntry = WalkEntry(root: string, files: seq<string>)

  /** The filter: the directory path mentions `empathy`; the name ends in `.json` but not `_analysis.json`. */
  predicate KeepFile(root: string, file: string) {
    IsSubstring("empathy", root) && EndsWith(file, ".json") && !EndsWith(file, "_analysis.json")
  }

  /** `os.path.join(root, file)` for a POSIX path and a bare file name. */
  function JoinPath(root: string, file: string): string {
    if root == [] || EndsWith(root, "/") then root + file else root + "/" + file
  }

  /** The kept files of one directory, in listing order. */
  function KeptIn(e: WalkEntry, upto: nat): seq<string>
    requires upto <= |e.files|
  {
    if upto == 0 then []
    else KeptIn(e, upto - 1) + (if KeepFile(e.root, e.files[upto - 1]) then [JoinPath(e.root, e.files[upto - 1])] else [])
  }

  /** The kept files of the whole walk, in walk order, before sorting. */
  function Candidates(walk: seq<WalkEntry>): seq<string> {
    if walk == [] then []
    else Candidates(walk[..|walk| - 1]) + KeptIn(walk[|walk| - 1], |walk[|walk| - 1].files|)
  }

  /** The walk and the filter, then `sorted`. */
  method FindAllJsonFiles(walk: seq<WalkEntry>) returns (r: seq<string>)
    ensures r == SortStrings(Candidates(walk))
  {
    var jsonFiles: seq<string> := [];
    var d := 0;
    while d < |walk|
      invariant d <= |walk|
      invariant jsonFiles == Candidates(walk[..d])
    {
      var e := walk[d];
      var k := 0;
      while k < |e.files|
        invariant k <= |e.files|
        invariant jsonFiles == Candidates(walk[..d]) + KeptIn(e, k)
      {
        if KeepFile(e.root, e.files[k]) {
          jsonFiles := jsonFiles + [JoinPath(e.root, e.files[k])];
        }
        k := k + 1;
      }
      assert walk[..d + 1][..d] == walk[..d];
      d := d + 1;
    }
    assert walk[..|walk|] == walk;
    return SortStrings(jsonFiles);
  }

  /** The `k`-th file of directory entry `e` passes the filter and joins to `x`. */
  predicate Yields(e: WalkEntry, k: nat, x: string) {
    k < |e.files| && KeepFile(e.root, e.files[k]) && x == JoinPath(e.root, e.files[k])
  }

  lemma {:induction false} KeptInMembership(e: WalkEntry, upto: nat, x: string)
    requires upto <= |e.files|
    ensures x in KeptIn(e, upto) <==> exists k: nat :: k < upto && Yields(e, k, x)
  {
    if upto > 0 {
      KeptInMembership(e, upto - 1, x);
      if Yields(e, upto - 1, x) {
        assert x in KeptIn(e, upto);
      }
    }
  }

  /** A path produced by the walk without its last directory is produced by the whole walk. */
  lemma YieldsInInit(walk: seq<WalkEntry>, init: seq<WalkEntry>, x: string)
    requires walk != [] && init == walk[..|walk| - 1]
    ensures (exists d, k: nat :: 0 <= d < |init| && Yields(init[d], k, x))
      <==> (exists d, k: nat :: 0 <= d < |init| && Yields(walk[d], k, x))
  {
    assert forall d :: 0 <= d < |init| ==> init[d] == walk[d];
  }

  /**
   * A path is listed exactly when it joins a directory of the walk with one of
   * its files that passes the filter.
   */
  lemma {:induction false} CandidatesMembership(walk: seq<WalkEntry>, x: string)
    ensures x in Candidates(walk) <==> exists d, k: nat :: 0 <= d < |walk| && Yields(walk[d], k, x)
  {
    if walk != [] {
      var n := |walk| - 1;
      CandidatesMembership(walk[..n], x);
      KeptInMembership(walk[n], |walk[n].files|, x);
      YieldsInInit(walk, walk[..n], x);
      if exists d, k: nat :: 0 <= d < |walk| && Yields(walk[d], k, x) {
        var d, k: nat :| 0 <= d < |walk| && Yields(walk[d], k, x);
        if d == n {
          assert k < |walk[n].files| && Yields(walk[n], k, x);
        }
      }
    }
  }

  /** The same membership holds once the list is sorted. */
  lemma SortedResultMembership(walk: seq<WalkEntry>, x: string)
    ensures x in SortStrings(Candidates(walk)) <==> exists d, k: nat :: 0 <= d < |walk| && Yields(walk[d], k, x)
  {
    var c := Candidates(walk);
    assert x in SortStrings(c) <==> x in multiset(SortStrings(c));
    assert x in c <==> x in multiset(c);
    CandidatesMembership(walk, x);
  }

  // ---------------------------------------------------------------------------
  // extract_conversation_data

  /** What the extraction returns: the system prompt and the dialogue. */
  datatype Conversation = Conversation(systemContent: string, dialogue: seq<Msg>)

  predicate IsDialogueRole(role: string) {
    role == "user" || role == "assistant"
  }

  /** The content of the last `system` message, or "" when there is none. */
  function LastSystem(items: seq<Entry>): string {
    if items == [] then ""
    else
      var e := items[|items| - 1];
      if e.Dict? && e.msg.role == "system" then e.msg.content else LastSystem(items[..|items| - 1])
  }

  /** The `user` and `assistant` messages, in order. */
  function Dialogue(items: seq<Entry>): seq<Msg> {
    if items == [] then []
    else
      var e := items[|items| - 1];
      Dialogue(items[..|items| - 1]) + (if e.Dict? && IsDialogueRole(e.msg.role) then [e.msg] else [])
  }

  /** The extraction as a value: None for an unreadable file or one that is not a list. */
  function ConversationOf(data: Option<FileData>): (r: Option<Conversation>)
    ensures r.None? <==> data.None? || data == Some(NotList)
  {
    match data
    case None => None
    case Some(NotList) => None
    case Some(Entries(items)) => Some(Conversation(LastSystem(items), Dialogue(items)))
  }

  /** The loop of `extract_conversation_data` over the decoded list. */
  method ExtractConversationData(data: Option<FileData>) returns (r: Option<Conversation>)
    ensures r == ConversationOf(data)
  {
    if data.None? || data.value.NotList? {
      return None;
    }
    var items := data.value.items;
    var systemContent := "";
    var conversation: seq<Msg> := [];
    var i := 0;
    while i < |items|
      invariant i <= |items|
      invariant systemContent == LastSystem(items[..i])
      invariant conversation == Dialogue(items[..i])
    {
      var message := items[i];
      assert items[..i + 1][..i] == items[..i];
      i := i + 1;
      if !message.Dict? {
        continue;
      }
      var role := message.msg.role;
      var content := message.msg.content;
      if role == "system" {
        systemContent := content;
      } else if role == "user" || role == "assistant" {
        conversation := conversation + [Msg(role, content)];
      }
    }
    assert items[..|items|] == items;
    return Some(Conversation(systemContent, conversation));
  }

  /** The last `system` message wins: a later one replaces every earlier one. */
  lemma {:induction false} LastSystemWins(items: seq<Entry>, k: nat)
    requires k < |items| && items[k].Dict? && items[k].msg.role == "system"
    requires forall j :: k < j < |items| ==> !(items[j].Dict? && items[j].msg.role == "system")
    ensures LastSystem(items) == items[k].msg.content
    decreases |items|
  {
    if k < |items| - 1 {
      var init := items[..|items| - 1];
      assert forall j :: k < j < |init| ==> init[j] == items[j];
      LastSystemWins(init, k);
    }
  }

  /** With no `system` message the system prompt is "". */
  lemma {:induction false} NoSystemMeansEmpty(items: seq<Entry>)
    requires forall j :: 0 <= j < |items| ==> !(items[j].Dict? && items[j].msg.role == "system")
    ensures LastSystem(items) == ""
  {
    if items != [] {
      NoSystemMeansEmpty(items[..|items| - 1]);
    }
  }

  /** The dialogue of two stretches of a log is the dialogue of each, in order. */
  lemma {:induction false} DialogueAppend(a: seq<Entry>, b: seq<Entry>)
    ensures Dialogue(a + b) == Dialogue(a) + Dialogue(b)
    decreases |b|
  {
    if b != [] {
      var n := |b| - 1;
      assert (a + b)[..|a + b| - 1] == a + b[..n];
      assert (a + b)[|a + b| - 1] == b[n];
      DialogueAppend(a, b[..n]);
    } else {
      assert a + b == a;
    }
  }

  /** A message is in the dialogue exactly when it is a dict of the log with role `user` or `assistant`. */
  lemma {:induction false} DialogueMembership(items: seq<Entry>, m: Msg)
    ensures m in Dialogue(items) <==> IsDialogueRole(m.role) && Dict(m) in items
  {
    if items != [] {
      var init := items[..|items| - 1];
      DialogueMembership(init, m);
      assert items == init + [items[|items| - 1]];
    }
  }

  // ---------------------------------------------------------------------------
  // format_conversation_for_llm

  /** The two keys a structured user message may carry: the user's words and the chat background. */
  const UserInputKey: string := "[用户输入]"
  const BackgroundKey: string := "[聊天提示信息]"

  function AsciiUpper(c: char): char {
    if 'a' <= c <= 'z' then (c as int - 32) as char else c
  }

  function AsciiLower(c: char): char {
    if 'A' <= c <= 'Z' then (c as int + 32) as char else c
  }

  function LowerAll(s: string): (r: string)
    ensures |r| == |s| && forall i :: 0 <= i < |s| ==> r[i] == AsciiLower(s[i])
  {
    if s == [] then [] else [AsciiLower(s[0])] + LowerAll(s[1..])
  }

  /** `str.capitalize` on ASCII letters: the first upper case, the rest lower case. */
  function Capitalize(s: string): (r: string)
    ensures |r| == |s|
    ensures s != [] ==> r[0] == AsciiUpper(s[0]) && forall i :: 1 <= i < |s| ==> r[i] == AsciiLower(s[i])
  {
    if s == [] then [] else [AsciiUpper(s[0])] + LowerAll(s[1..])
  }

  /**
   * An assistant message: a leading `[tag]` is dropped and the rest stripped.
   * The line is the assistant label followed by a stretch of the content.
   */
  function AssistantLine(content: string): (r: string)
    ensures exists i, j :: 0 <= i <= j <= |content| && r == "[Assistant]: " + content[i..j]
  {
    if StartsWith(content, "[") then
      match FindChar(content, ']')
      case Some(e) =>
        if e > 0 then
          var rest := content[e + 1..];
          var a := SkipSpaces(rest, 0);
          var b := TrimEnd(rest, a, |rest|);
          assert Strip(rest) == content[e + 1 + a..e + 1 + b];
          "[Assistant]: " + Strip(rest)
        else
          assert content == content[0..|content|];
          "[Assistant]: " + content
      case None =>
        assert content == content[0..|content|];
        "[Assistant]: " + content
    else
      assert content == content[0..|content|];
      "[Assistant]: " + content
  }

  /**
   * A user message that decodes to a dict: its input line if the key is
   * there, then its background line if that is a non-blank string. A truthy
   * background that is not a string makes `.strip()` raise, and the handler
   * adds the raw message as a user line after what was already emitted.
   */
  function StructuredUserLines(fields: map<string, Json>, content: string, env: Oracles): seq<string> {
    var input := if UserInputKey in fields then ["[User]: " + ShowValue(env, fields[UserInputKey])] else [];
    if BackgroundKey !in fields then input
    else
      var b := fields[BackgroundKey];
      if !Truthy(b) then input
      else if !b.JStr? then input + ["[User]: " + content]
      else if Strip(b.s) != [] then input + ["[Background]: " + b.s]
      else input
  }

  /**
   * The lines one message contributes to the rendering: at most two, and
   * exactly one unless it is a user message that decodes to a dict.
   */
  function MessageLines(m: Msg, env: Oracles): (r: seq<string>)
    ensures |r| <= 2
    ensures !(m.role == "user" && env.decode(m.content).Some? && env.decode(m.content).value.JObj?) ==> |r| == 1
  {
    if m.role == "assistant" then [AssistantLine(m.content)]
    else if m.role == "user" then
      match env.decode(m.content)
      case Some(JObj(fields)) => StructuredUserLines(fields, m.content, env)
      case _ => ["[User]: " + m.content]
    else ["[" + Capitalize(m.role) + "]: " + m.content]
  }

  /** The lines of a dialogue, message by message. */
  function DialogueLines(msgs: seq<Msg>, env: Oracles): seq<string> {
    if msgs == [] then []
    else DialogueLines(msgs[..|msgs| - 1], env) + MessageLines(msgs[|msgs| - 1], env)
  }

  /** The loop body of `format_conversation_for_llm`: the lines of one message, by its role. */
  method RenderMessage(msg: Msg, env: Oracles) returns (lines: seq<string>)
    ensures lines == MessageLines(msg, env)
  {
    var role := msg.role;
    var content := msg.content;
    if role == "assistant" {
      if StartsWith(content, "[") {
        var endIdx := FindChar(content, ']');
        if endIdx.Some? && endIdx.value > 0 {
          lines := ["[Assistant]: " + Strip(content[endIdx.value + 1..])];
        } else {
          lines := ["[Assistant]: " + content];
        }
      } else {
        lines := ["[Assistant]: " + content];
      }
    } else if role == "user" {
      var userData := env.decode(content);
      if userData.Some? && userData.value.JObj? {
        lines := StructuredUserLines(userData.value.fields, content, env);
      } else {
        lines := ["[User]: " + content];
      }
    } else {
      lines := ["[" + Capitalize(role) + "]: " + content];
    }
  }

  /** `format_conversation_for_llm`: the lines built message by message, joined with newlines. */
  method FormatConversation(conversation: seq<Msg>, env: Oracles) returns (r: string)
    ensures r == Join(DialogueLines(conversation, env), "\n")
  {
    var formatted: seq<string> := [];
    var i := 0;
    while i < |conversation|
      invariant i <= |conversation|
      invariant formatted == DialogueLines(conversation[..i], env)
    {
      var lines := RenderMessage(conversation[i], env);
      formatted := formatted + lines;
      assert conversation[..i + 1][..i] == conversation[..i];
      i := i + 1;
    }
    assert conversation[..|conversation|] == conversation;
    return Join(formatted, "\n");
  }

  /** Lines follow message order: the rendering of two stretches is the rendering of each, in order. */
  lemma {:induction false} DialogueLinesAppend(a: seq<Msg>, b: seq<Msg>, env: Oracles)
    ensures DialogueLines(a + b, env) == DialogueLines(a, env) + DialogueLines(b, env)
    decreases |b|
  {
    if b != [] {
      var n := |b| - 1;
      assert (a + b)[..|a + b| - 1] == a + b[..n];
      assert (a + b)[|a + b| - 1] == b[n];
      DialogueLinesAppend(a, b[..n], env);
    } else {
      assert a + b == a;
    }
  }

  /** An assistant message `[tag]rest` loses the tag and the whitespace around the rest. */
  lemma AssistantTagDropped(tag: string, rest: string)
    requires ']' !in tag
    ensures AssistantLine("[" + tag + "]" + rest) == "[Assistant]: " + Strip(rest)
  {
    var c := "[" + tag + "]" + rest;
    assert c[0] == '[' && c[1..|tag| + 1] == tag;
    assert c[..1] == "[";
    assert c[..|tag| + 1] == "[" + tag;
    assert c[|tag| + 1] == ']';
    assert ']' !in c[..|tag| + 1];
    assert c[|tag| + 2..] == rest;
  }

  /** An assistant message not starting with `[`, or without `]`, is kept verbatim. */
  lemma AssistantUntaggedVerbatim(content: string)
    requires !StartsWith(content, "[") || ']' !in content
    ensures AssistantLine(content) == "[Assistant]: " + content
  {
  }

  /** A structured user message with neither key contributes no line. */
  lemma StructuredWithoutKeysIsSilent(m: Msg, fields: map<string, Json>, env: Oracles)
    requires m.role == "user" && env.decode(m.content) == Some(JObj(fields))
    requires UserInputKey !in fields && BackgroundKey !in fields
    ensures MessageLines(m, env) == []
  {
  }

  /**
   * A structured user message: the input line comes first exactly when
   * `[用户输入]` is present; one more line follows exactly when the background
   * is truthy and, if it is a string, not blank. That line is the background
   * for a string and the raw message otherwise (the handler's line after
   * `.strip()` raises).
   */
  lemma StructuredUserLinesMeaning(fields: map<string, Json>, content: string, env: Oracles)
    ensures var lines := StructuredUserLines(fields, content, env);
      var k := if UserInputKey in fields then 1 else 0;
      && (|lines| == k || |lines| == k + 1)
      && (UserInputKey in fields ==> lines[0] == "[User]: " + ShowValue(env, fields[UserInputKey]))
      && (|lines| == k + 1 <==>
            BackgroundKey in fields && Truthy(fields[BackgroundKey])
            && (fields[BackgroundKey].JStr? ==> Strip(fields[BackgroundKey].s) != []))
      && (|lines| == k + 1 ==>
            lines[k] == if fields[BackgroundKey].JStr? then "[Background]: " + fields[BackgroundKey].s
                        else "[User]: " + content)
  {
  }

  /** A `[Background]: ` line appears exactly when the background is a string that is not blank. */
  lemma BackgroundLineIffNonBlank(fields: map<string, Json>, content: string, env: Oracles)
    ensures var lines := StructuredUserLines(fields, content, env);
      (exists i :: 0 <= i < |lines| && StartsWith(lines[i], "[Background]: "))
      <==> BackgroundKey in fields && fields[BackgroundKey].JStr? && Strip(fields[BackgroundKey].s) != []
  {
    var lines := StructuredUserLines(fields, content, env);
    StructuredUserLinesMeaning(fields, content, env);
    forall x: string ensures !StartsWith("[User]: " + x, "[Background]: ") {
      assert ("[User]: " + x)[1] == 'U';
    }
    if BackgroundKey in fields && fields[BackgroundKey].JStr? && Strip(fields[BackgroundKey].s) != [] {
      var s := fields[BackgroundKey].s;
      assert s != [];
      var k := |lines| - 1;
      assert lines[k] == "[Background]: " + s;
      assert lines[k][..|"[Background]: "|] == "[Background]: ";
    }
  }

  /** A user message that does not decode to a dict is one raw user line. */
  lemma UnstructuredUserIsRaw(m: Msg, env: Oracles)
    requires m.role == "user" && (env.decode(m.content).None? || !env.decode(m.content).value.JObj?)
    ensures MessageLines(m, env) == ["[User]: " + m.content]
  {
  }

  // ---------------------------------------------------------------------------
  // save_progress

  /** The progress record: the processed paths and their number. */
  datatype ProgressRecord = ProgressRecord(processedFiles: seq<string>, count: nat)

  function MakeProgress(processed: seq<string>): (r: ProgressRecord)
    ensures r.processedFiles == processed && r.count == |r.processedFiles|
  {
    ProgressRecord(processed, |processed|)
  }
}
