/**
 * The batch driver `main()`: the work list (corpus files not yet in the
 * loaded progress, capped in test mode), the per-file bookkeeping of results,
 * processed paths and counters, the save every time the processed list
 * reaches a multiple of ten, the pacing pause between files, and the final
 * save. Saves and pauses are recorded as values instead of being performed.
 */
module Driver {
  import opened Wrappers
  import opened Text
  import opened Types
  import opened FileProcessor
  import opened LlmClient

  /** One entry of the results list: the file's base name and its analysis. */
  datatype ResultEntry = ResultEntry(fileName: string, analysis: Json)

  /** What one save writes: the progress record and the results list, always together. */
  datatype Snapshot = Snapshot(progress: ProgressRecord, results: seq<ResultEntry>)

  /** How a file ends: its log could not be read as a list, the call gave nothing, or an analysis. */
  datatype Outcome = ExtractFailed | CallFailed | Analysed(value: Json)

  /** The driver's state: the two lists, the counters, and what was saved and paused so far. */
  datatype BatchState = BatchState(
    processed: seq<string>,
    results: seq<ResultEntry>,
    success: nat,
    fail: nat,
    saves: seq<Snapshot>,
    /** The 1-based positions of the files after which the driver paused. */
    pauses: seq<nat>)

  /** The position just after the last `/` of `path[..j]`, or 0 when it has none. */
  function TailStart(path: string, j: nat): (r: nat)
    requires j <= |path|
    ensures r <= j && (r > 0 ==> path[r - 1] == '/')
  {
    if j == 0 then 0 else if path[j - 1] == '/' then j else TailStart(path, j - 1)
  }

  /** `os.path.basename`: what follows the last `/`. */
  function BaseName(path: string): string {
    path[TailStart(path, |path|)..]
  }

  lemma {:induction false} TailStartSkipsNoSlash(path: string, j: nat)
    requires j <= |path|
    ensures forall k :: TailStart(path, j) <= k < j ==> path[k] != '/'
  {
    if j > 0 && path[j - 1] != '/' {
      TailStartSkipsNoSlash(path, j - 1);
    }
  }

  /** The base name is the slash-free tail of the path, after a `/` unless it is the whole path. */
  lemma BaseNameIsTail(path: string)
    ensures var r := BaseName(path);
      && '/' !in r && EndsWith(path, r)
      && (r == path || path[|path| - |r| - 1] == '/')
  {
    TailStartSkipsNoSlash(path, |path|);
  }

  // ---------------------------------------------------------------------------
  // The work list

  /** `[f for f in all_files if f not in processed_files]`. */
  function Unprocessed(allFiles: seq<string>, loaded: seq<string>): seq<string> {
    if allFiles == [] then []
    else
      var f := allFiles[|allFiles| - 1];
      Unprocessed(allFiles[..|allFiles| - 1], loaded) + (if f !in loaded then [f] else [])
  }

  /** Python's `s[:n]`, a negative `n` counting from the end. */
  function PyPrefix<T>(s: seq<T>, n: int): (r: seq<T>)
    ensures n >= 0 ==> |r| == if n < |s| then n else |s|
    ensures n < 0 ==> |r| == if |s| + n > 0 then |s| + n else 0
    ensures r == s[..|r|]
  {
    if n >= 0 then (if n < |s| then s[..n] else s)
    else if |s| + n > 0 then s[..|s| + n] else []
  }

  /** The files this run works on. */
  function WorkList(allFiles: seq<string>, loaded: seq<string>, testMode: bool, testCount: int): seq<string> {
    var remaining := Unprocessed(allFiles, loaded);
    if testMode then PyPrefix(remaining, testCount) else remaining
  }

  /** The list comprehension at the head of the run. */
  method RemainingFiles(allFiles: seq<string>, loaded: seq<string>) returns (r: seq<string>)
    ensures r == Unprocessed(allFiles, loaded)
  {
    r := [];
    var i := 0;
    while i < |allFiles|
      invariant i <= |allFiles|
      invariant r == Unprocessed(allFiles[..i], loaded)
    {
      if allFiles[i] !in loaded {
        r := r + [allFiles[i]];
      }
      assert allFiles[..i + 1][..i] == allFiles[..i];
      i := i + 1;
    }
    assert allFiles[..|allFiles|] == allFiles;
  }

  /** A file is on the list of unprocessed files exactly when it is in the corpus and not in the loaded progress. */
  lemma {:induction false} UnprocessedMembership(allFiles: seq<string>, loaded: seq<string>, f: string)
    ensures f in Unprocessed(allFiles, loaded) <==> f in allFiles && f !in loaded
  {
    if allFiles != [] {
      var init := allFiles[..|allFiles| - 1];
      UnprocessedMembership(init, loaded, f);
      assert allFiles == init + [allFiles[|allFiles| - 1]];
    }
  }

  /** The filter keeps corpus order: filtering two stretches is filtering each, in order. */
  lemma {:induction false} UnprocessedAppend(a: seq<string>, b: seq<string>, loaded: seq<string>)
    ensures Unprocessed(a + b, loaded) == Unprocessed(a, loaded) + Unprocessed(b, loaded)
    decreases |b|
  {
    if b != [] {
      var n := |b| - 1;
      assert (a + b)[..|a + b| - 1] == a + b[..n];
      assert (a + b)[|a + b| - 1] == b[n];
      UnprocessedAppend(a, b[..n], loaded);
    } else {
      assert a + b == a;
    }
  }

  /** A corpus without repeated paths gives a work list without repeated paths. */
  lemma {:induction false} UnprocessedNoRepeats(allFiles: seq<string>, loaded: seq<string>)
    requires forall i, j :: 0 <= i < j < |allFiles| ==> allFiles[i] != allFiles[j]
    ensures var r := Unprocessed(allFiles, loaded);
      forall i, j :: 0 <= i < j < |r| ==> r[i] != r[j]
  {
    if allFiles != [] {
      var init := allFiles[..|allFiles| - 1];
      var f := allFiles[|allFiles| - 1];
      UnprocessedNoRepeats(init, loaded);
      UnprocessedMembership(init, loaded, f);
    }
  }

  /**
   * Every file of the work list is a corpus file that is not in the loaded
   * progress; outside test mode every such file is on it, and in test mode
   * the list is the first `testCount` of them.
   */
  lemma WorkListMembership(allFiles: seq<string>, loaded: seq<string>, testMode: bool, testCount: int, f: string)
    ensures f in WorkList(allFiles, loaded, testMode, testCount) ==> f in allFiles && f !in loaded
    ensures !testMode ==> (f in WorkList(allFiles, loaded, testMode, testCount) <==> f in allFiles && f !in loaded)
    ensures testMode && testCount >= 0 ==> |WorkList(allFiles, loaded, testMode, testCount)| <= testCount
    ensures testMode ==>
      (WorkList(allFiles, loaded, testMode, testCount) == Unprocessed(allFiles, loaded)[..|WorkList(allFiles, loaded, testMode, testCount)|])
  {
    UnprocessedMembership(allFiles, loaded, f);
  }

  // ---------------------------------------------------------------------------
  // One file

  /** The prompt for a conversation: the template filled with the system prompt and the rendered dialogue. */
  function PromptFor(c: Conversation, env: Oracles): string {
    env.promptTemplate(c.systemContent, Join(DialogueLines(c.dialogue, env), "\n"))
  }

  /**
   * How a file ends, as a value: it fails at extraction exactly when its log
   * cannot be read as a list, and an analysis is a truthy value.
   */
  function OutcomeOf(cfg: ClientConfig, env: Oracles, path: string): (r: Outcome)
    ensures r == ExtractFailed <==> env.readFile(path).None? || env.readFile(path) == Some(NotList)
    ensures r.Analysed? ==> Truthy(r.value)
  {
    match ConversationOf(env.readFile(path))
    case None => ExtractFailed
    case Some(c) =>
      var analysis := Call(cfg, env, PromptFor(c, env)).result;
      if analysis.Some? && Truthy(analysis.value) then Analysed(analysis.value) else CallFailed
  }

  /** The outcome of each file of a run. */
  function Outcomes(cfg: ClientConfig, env: Oracles): string -> Outcome {
    (path: string) => OutcomeOf(cfg, env, path)
  }

  /** Extraction, rendering, prompt and call for one file. */
  method ProcessFile(cfg: ClientConfig, env: Oracles, filePath: string) returns (r: Outcome)
    ensures r == OutcomeOf(cfg, env, filePath)
  {
    var conversationData := ExtractConversationData(env.readFile(filePath));
    if conversationData.None? {
      return ExtractFailed;
    }
    var formatted := FormatConversation(conversationData.value.dialogue, env);
    var prompt := env.promptTemplate(conversationData.value.systemContent, formatted);
    var analysisResult, _ := CallLlm(cfg, env, prompt);
    if analysisResult.Some? && Truthy(analysisResult.value) {
      return Analysed(analysisResult.value);
    }
    return CallFailed;
  }

  /** An analysed file's value holds every required field. */
  lemma AnalysedHasRequired(cfg: ClientConfig, env: Oracles, path: string)
    ensures OutcomeOf(cfg, env, path).Analysed? ==> HasRequired(OutcomeOf(cfg, env, path).value) == Some(true)
  {
    match ConversationOf(env.readFile(path))
    case None =>
    case Some(c) => CallResultHasRequired(cfg, env, PromptFor(c, env));
  }

  // ---------------------------------------------------------------------------
  // The loop

  /** The pacing pause after file `idx` (1-based) of `n`, skipped after the last. */
  function Paced(st: BatchState, idx: nat, n: nat): BatchState {
    if idx < n then st.(pauses := st.pauses + [idx]) else st
  }

  /**
   * The bookkeeping for file `idx` (1-based) of `n`, given how it ended: one
   * success for an analysis, one failure otherwise, and a pause unless the
   * extraction failed or the file is the last.
   */
  function Step(st: BatchState, path: string, outcome: Outcome, idx: nat, n: nat): (r: BatchState)
    ensures r.success == st.success + (if outcome.Analysed? then 1 else 0)
    ensures r.fail == st.fail + (if outcome.Analysed? then 0 else 1)
    ensures r.pauses == st.pauses + (if idx < n && !outcome.ExtractFailed? then [idx] else [])
  {
    match outcome
    case ExtractFailed => st.(fail := st.fail + 1)
    case CallFailed => Paced(st.(fail := st.fail + 1), idx, n)
    case Analysed(v) =>
      var results := st.results + [ResultEntry(BaseName(path), v)];
      var processed := st.processed + [path];
      var saves := if |processed| % 10 == 0 then st.saves + [Snapshot(MakeProgress(processed), results)] else st.saves;
      Paced(BatchState(processed, results, st.success + 1, st.fail, saves, st.pauses), idx, n)
  }

  /** The loop from file `i` of the work list on. */
  function Run(st: BatchState, work: seq<string>, i: nat, outcome: string -> Outcome): BatchState
    requires i <= |work|
    decreases |work| - i
  {
    if i == |work| then st
    else Run(Step(st, work[i], outcome(work[i]), i + 1, |work|), work, i + 1, outcome)
  }

  /** The state before the loop. */
  function Initial(loaded: seq<string>, loadedResults: seq<ResultEntry>): BatchState {
    BatchState(loaded, loadedResults, 0, 0, [], [])
  }

  /** A state followed by the final save. */
  function Finish(st: BatchState): BatchState {
    st.(saves := st.saves + [Snapshot(MakeProgress(st.processed), st.results)])
  }

  /** A whole run for any outcomes: nothing at all for an empty work list, else the loop and the final save. */
  function BatchWith(work: seq<string>, loaded: seq<string>, loadedResults: seq<ResultEntry>, outcome: string -> Outcome): BatchState {
    if |work| == 0 then Initial(loaded, loadedResults)
    else Finish(Run(Initial(loaded, loadedResults), work, 0, outcome))
  }

  /** A whole run of `main()`. */
  function Batch(cfg: ClientConfig, env: Oracles, allFiles: seq<string>, loaded: seq<string>,
                 loadedResults: seq<ResultEntry>, testMode: bool, testCount: int): BatchState {
    BatchWith(WorkList(allFiles, loaded, testMode, testCount), loaded, loadedResults, Outcomes(cfg, env))
  }

  lemma RunUnfold(st: BatchState, work: seq<string>, i: nat, outcome: string -> Outcome)
    requires i < |work|
    ensures Run(st, work, i, outcome) == Run(Step(st, work[i], outcome(work[i]), i + 1, |work|), work, i + 1, outcome)
  {
  }

  /**
   * The bookkeeping of the loop body for file `idx` of `n`: a failed
   * extraction counts a failure and skips the pause; an analysis appends to
   * both lists, counts a success and saves at a multiple of ten; a failed call
   * counts a failure; then the pause unless the file is the last.
   */
  method RecordOutcome(processedFiles: seq<string>, results: seq<ResultEntry>, successCount: nat, failCount: nat,
                       saves: seq<Snapshot>, pauses: seq<nat>, filePath: string, o: Outcome, idx: nat, n: nat)
    returns (processedFiles': seq<string>, results': seq<ResultEntry>, successCount': nat, failCount': nat,
             saves': seq<Snapshot>, pauses': seq<nat>)
    ensures BatchState(processedFiles', results', successCount', failCount', saves', pauses')
      == Step(BatchState(processedFiles, results, successCount, failCount, saves, pauses), filePath, o, idx, n)
  {
    processedFiles', results', successCount', failCount', saves', pauses' :=
      processedFiles, results, successCount, failCount, saves, pauses;
    if o.ExtractFailed? {
      failCount' := failCount' + 1;
      return;
    }
    if o.Analysed? {
      results' := results' + [ResultEntry(BaseName(filePath), o.value)];
      processedFiles' := processedFiles' + [filePath];
      successCount' := successCount' + 1;
      if |processedFiles'| % 10 == 0 {
        saves' := saves' + [Snapshot(MakeProgress(processedFiles'), results')];
      }
    } else {
      failCount' := failCount' + 1;
    }
    if idx < n {
      pauses' := pauses' + [idx];
    }
  }

  /** One pass of `main()`'s loop: file `i` of the work list is processed and its outcome recorded. */
  method HandleFile(cfg: ClientConfig, env: Oracles, work: seq<string>, i: nat,
                    processedFiles: seq<string>, results: seq<ResultEntry>, successCount: nat, failCount: nat,
                    saves: seq<Snapshot>, pauses: seq<nat>)
    returns (processedFiles': seq<string>, results': seq<ResultEntry>, successCount': nat, failCount': nat,
             saves': seq<Snapshot>, pauses': seq<nat>)
    requires i < |work|
    ensures Run(BatchState(processedFiles, results, successCount, failCount, saves, pauses), work, i, Outcomes(cfg, env))
      == Run(BatchState(processedFiles', results', successCount', failCount', saves', pauses'), work, i + 1, Outcomes(cfg, env))
  {
    var filePath := work[i];
    var o := ProcessFile(cfg, env, filePath);
    assert o == Outcomes(cfg, env)(filePath);
    RunUnfold(BatchState(processedFiles, results, successCount, failCount, saves, pauses), work, i, Outcomes(cfg, env));
    processedFiles', results', successCount', failCount', saves', pauses' :=
      RecordOutcome(processedFiles, results, successCount, failCount, saves, pauses, filePath, o, i + 1, |work|);
  }

  /** `main()` from the work list to the final save. */
  method RunBatch(cfg: ClientConfig, env: Oracles, allFiles: seq<string>, loaded: seq<string>,
                  loadedResults: seq<ResultEntry>, testMode: bool, testCount: int)
    returns (processedFiles: seq<string>, results: seq<ResultEntry>, successCount: nat, failCount: nat,
             saves: seq<Snapshot>, pauses: seq<nat>)
    ensures BatchState(processedFiles, results, successCount, failCount, saves, pauses)
      == Batch(cfg, env, allFiles, loaded, loadedResults, testMode, testCount)
  {
    processedFiles, results := loaded, loadedResults;
    successCount, failCount := 0, 0;
    saves, pauses := [], [];
    var remainingFiles := RemainingFiles(allFiles, loaded);
    if testMode {
      remainingFiles := PyPrefix(remainingFiles, testCount);
    }
    if |remainingFiles| == 0 {
      return;
    }
    ghost var outcome := Outcomes(cfg, env);
    ghost var whole := Run(Initial(loaded, loadedResults), remainingFiles, 0, outcome);
    var i := 0;
    while i < |remainingFiles|
      invariant i <= |remainingFiles|
      invariant whole == Run(BatchState(processedFiles, results, successCount, failCount, saves, pauses), remainingFiles, i, outcome)
    {
      processedFiles, results, successCount, failCount, saves, pauses :=
        HandleFile(cfg, env, remainingFiles, i, processedFiles, results, successCount, failCount, saves, pauses);
      i := i + 1;
    }
    saves := saves + [Snapshot(MakeProgress(processedFiles), results)];
  }

  // ---------------------------------------------------------------------------
  // Properties of the loop

  /** The files of `work[i..]` that end with an analysis, in order. */
  function Succeeded(work: seq<string>, i: nat, outcome: string -> Outcome): seq<string>
    requires i <= |work|
    decreases |work| - i
  {
    if i == |work| then []
    else (if outcome(work[i]).Analysed? then [work[i]] else []) + Succeeded(work, i + 1, outcome)
  }

  /** The counters account for every file: each adds one success or one failure. */
  lemma {:induction false} RunCounts(st: BatchState, work: seq<string>, i: nat, outcome: string -> Outcome)
    requires i <= |work|
    ensures var r := Run(st, work, i, outcome);
      r.success + r.fail == st.success + st.fail + (|work| - i)
    decreases |work| - i
  {
    if i < |work| {
      var next := Step(st, work[i], outcome(work[i]), i + 1, |work|);
      assert next.success + next.fail == st.success + st.fail + 1;
      RunCounts(next, work, i + 1, outcome);
    }
  }

  /** The processed list grows by exactly the analysed files, in work-list order. */
  lemma {:induction false} RunProcessed(st: BatchState, work: seq<string>, i: nat, outcome: string -> Outcome)
    requires i <= |work|
    ensures Run(st, work, i, outcome).processed == st.processed + Succeeded(work, i, outcome)
    decreases |work| - i
  {
    if i < |work| {
      var o := outcome(work[i]);
      var next := Step(st, work[i], o, i + 1, |work|);
      var head := if o.Analysed? then [work[i]] else [];
      var rest := Succeeded(work, i + 1, outcome);
      assert next.processed == st.processed + head by {
        StepLists(st, work[i], o, i + 1, |work|);
      }
      RunProcessed(next, work, i + 1, outcome);
      RunUnfold(st, work, i, outcome);
      assert Succeeded(work, i, outcome) == head + rest;
      assert (st.processed + head) + rest == st.processed + (head + rest);
    }
  }

  /** The results list keeps what it held and grows in step with the processed list: a failure touches neither. */
  lemma {:induction false} RunResults(st: BatchState, work: seq<string>, i: nat, outcome: string -> Outcome)
    requires i <= |work|
    ensures var r := Run(st, work, i, outcome);
      && |r.results| - |r.processed| == |st.results| - |st.processed|
      && |st.results| <= |r.results| && r.results[..|st.results|] == st.results
    decreases |work| - i
  {
    if i < |work| {
      var next := Step(st, work[i], outcome(work[i]), i + 1, |work|);
      StepLists(st, work[i], outcome(work[i]), i + 1, |work|);
      RunResults(next, work, i + 1, outcome);
      var r := Run(next, work, i + 1, outcome);
      assert r.results[..|st.results|] == r.results[..|next.results|][..|st.results|];
    }
  }

  /** The results entry added for a file names it by its base name and holds its analysis. */
  lemma AnalysedEntry(st: BatchState, path: string, v: Json, idx: nat, n: nat)
    ensures var r := Step(st, path, Analysed(v), idx, n);
      r.results == st.results + [ResultEntry(BaseName(path), v)] && r.processed == st.processed + [path]
  {
  }

  /** The multiples of ten in `(a, b]`, ascending: the processed-list lengths at which a save falls. */
  function SaveLengths(a: nat, b: nat): seq<nat>
    requires a <= b
    decreases b
  {
    if b == a then [] else SaveLengths(a, b - 1) + (if b % 10 == 0 then [b] else [])
  }

  /** The number of processed paths in each save. */
  function SavedLengths(saves: seq<Snapshot>): seq<nat> {
    if saves == [] then []
    else SavedLengths(saves[..|saves| - 1]) + [|saves[|saves| - 1].progress.processedFiles|]
  }

  /** Each save is the state of both lists at that point: prefixes of the current lists, with the same offset. */
  predicate SavesArePrefixes(saves: seq<Snapshot>, processed: seq<string>, results: seq<ResultEntry>) {
    forall j :: 0 <= j < |saves| ==>
      var p := saves[j].progress.processedFiles;
      && saves[j].progress.count == |p|
      && |p| <= |processed| && processed[..|p|] == p
      && |saves[j].results| <= |results| && results[..|saves[j].results|] == saves[j].results
      && |results| - |saves[j].results| == |processed| - |p|
  }

  lemma SavedLengthsAppend(saves: seq<Snapshot>, s: Snapshot)
    ensures SavedLengths(saves + [s]) == SavedLengths(saves) + [|s.progress.processedFiles|]
  {
    assert (saves + [s])[..|saves|] == saves;
  }

  /** Growing both lists by one keeps every earlier save a prefix of them. */
  lemma PrefixesGrow(saves: seq<Snapshot>, processed: seq<string>, results: seq<ResultEntry>, path: string, e: ResultEntry)
    requires SavesArePrefixes(saves, processed, results)
    ensures SavesArePrefixes(saves, processed + [path], results + [e])
  {
    var p2, r2 := processed + [path], results + [e];
    forall j | 0 <= j < |saves|
      ensures p2[..|saves[j].progress.processedFiles|] == saves[j].progress.processedFiles
      ensures r2[..|saves[j].results|] == saves[j].results
    {
      assert p2[..|processed|] == processed;
      assert r2[..|results|] == results;
    }
  }

  /** A save of the current lists is a prefix of them. */
  lemma PrefixesSaveNow(saves: seq<Snapshot>, processed: seq<string>, results: seq<ResultEntry>)
    requires SavesArePrefixes(saves, processed, results)
    ensures SavesArePrefixes(saves + [Snapshot(MakeProgress(processed), results)], processed, results)
  {
    assert processed[..|processed|] == processed;
    assert results[..|results|] == results;
  }

  /** What a step does to the two lists and the saves, and nothing else. */
  lemma StepLists(st: BatchState, path: string, outcome: Outcome, idx: nat, n: nat)
    ensures var r := Step(st, path, outcome, idx, n);
      if outcome.Analysed? then
        && r.processed == st.processed + [path]
        && r.results == st.results + [ResultEntry(BaseName(path), outcome.value)]
        && r.saves == if |r.processed| % 10 == 0 then st.saves + [Snapshot(MakeProgress(r.processed), r.results)] else st.saves
      else r.processed == st.processed && r.results == st.results && r.saves == st.saves
  {
  }

  /** One step adds a save exactly when the processed list reaches a multiple of ten. */
  lemma StepSaveLengths(st: BatchState, path: string, outcome: Outcome, idx: nat, n: nat)
    ensures var r := Step(st, path, outcome, idx, n);
      && |st.processed| <= |r.processed|
      && SavedLengths(r.saves) == SavedLengths(st.saves) + SaveLengths(|st.processed|, |r.processed|)
  {
    StepLists(st, path, outcome, idx, n);
    var r := Step(st, path, outcome, idx, n);
    if outcome.Analysed? {
      if |r.processed| % 10 == 0 {
        SavedLengthsAppend(st.saves, Snapshot(MakeProgress(r.processed), r.results));
      }
      assert SaveLengths(|st.processed|, |r.processed|) == (if |r.processed| % 10 == 0 then [|r.processed|] else []);
    }
  }

  /** One step keeps every save a prefix snapshot of the two lists. */
  lemma StepPrefixes(st: BatchState, path: string, outcome: Outcome, idx: nat, n: nat)
    requires SavesArePrefixes(st.saves, st.processed, st.results)
    ensures var r := Step(st, path, outcome, idx, n);
      SavesArePrefixes(r.saves, r.processed, r.results)
  {
    StepLists(st, path, outcome, idx, n);
    if outcome.Analysed? {
      var r := Step(st, path, outcome, idx, n);
      PrefixesGrow(st.saves, st.processed, st.results, path, ResultEntry(BaseName(path), outcome.value));
      if |r.processed| % 10 == 0 {
        PrefixesSaveNow(st.saves, r.processed, r.results);
      }
    }
  }

  lemma {:induction false} SaveLengthsSplit(a: nat, b: nat, c: nat)
    requires a <= b <= c
    ensures SaveLengths(a, c) == SaveLengths(a, b) + SaveLengths(b, c)
    decreases c
  {
    if c > b {
      SaveLengthsSplit(a, b, c - 1);
    }
  }

  /**
   * The save cadence: during the loop a save is taken exactly when the
   * processed list (loaded entries included) reaches a multiple of ten.
   */
  lemma {:induction false} RunSaveLengths(st: BatchState, work: seq<string>, i: nat, outcome: string -> Outcome)
    requires i <= |work|
    ensures var r := Run(st, work, i, outcome);
      && |st.processed| <= |r.processed|
      && SavedLengths(r.saves) == SavedLengths(st.saves) + SaveLengths(|st.processed|, |r.processed|)
    decreases |work| - i
  {
    if i < |work| {
      var next := Step(st, work[i], outcome(work[i]), i + 1, |work|);
      StepSaveLengths(st, work[i], outcome(work[i]), i + 1, |work|);
      RunSaveLengths(next, work, i + 1, outcome);
      SaveLengthsSplit(|st.processed|, |next.processed|, |Run(next, work, i + 1, outcome).processed|);
    }
  }

  /** Each save taken during the loop holds both lists as they were at that moment. */
  lemma {:induction false} RunPrefixes(st: BatchState, work: seq<string>, i: nat, outcome: string -> Outcome)
    requires i <= |work|
    requires SavesArePrefixes(st.saves, st.processed, st.results)
    ensures var r := Run(st, work, i, outcome);
      SavesArePrefixes(r.saves, r.processed, r.results)
    decreases |work| - i
  {
    if i < |work| {
      StepPrefixes(st, work[i], outcome(work[i]), i + 1, |work|);
      RunPrefixes(Step(st, work[i], outcome(work[i]), i + 1, |work|), work, i + 1, outcome);
    }
  }

  /** The pauses of the loop from file `i` on: after each file but the last whose extraction did not fail. */
  lemma {:induction false} RunPauses(st: BatchState, work: seq<string>, i: nat, outcome: string -> Outcome, x: nat)
    requires i <= |work|
    ensures x in Run(st, work, i, outcome).pauses <==>
      x in st.pauses || (i < x < |work| && !outcome(work[x - 1]).ExtractFailed?)
    decreases |work| - i
  {
    if i < |work| {
      var next := Step(st, work[i], outcome(work[i]), i + 1, |work|);
      RunPauses(next, work, i + 1, outcome, x);
    }
  }

  // ---------------------------------------------------------------------------
  // Properties of a whole run

  /** An empty work list ends the run with nothing saved, nothing counted and the loaded lists as they were. */
  lemma EmptyWorkListSavesNothing(work: seq<string>, loaded: seq<string>, loadedResults: seq<ResultEntry>, outcome: string -> Outcome)
    requires work == []
    ensures BatchWith(work, loaded, loadedResults, outcome) == BatchState(loaded, loadedResults, 0, 0, [], [])
  {
  }

  /**
   * A non-empty run: every file is counted once as a success or a failure,
   * the processed list is the loaded one followed by the analysed files in
   * work-list order, the results keep their offset to it, and the last save
   * writes the final lists.
   */
  lemma BatchBookkeeping(work: seq<string>, loaded: seq<string>, loadedResults: seq<ResultEntry>, outcome: string -> Outcome)
    ensures var r := BatchWith(work, loaded, loadedResults, outcome);
      && r.success + r.fail == |work|
      && r.processed == loaded + Succeeded(work, 0, outcome)
      && |r.results| - |r.processed| == |loadedResults| - |loaded|
      && r.results[..|loadedResults|] == loadedResults
  {
    if |work| > 0 {
      RunCounts(Initial(loaded, loadedResults), work, 0, outcome);
      RunProcessed(Initial(loaded, loadedResults), work, 0, outcome);
      RunResults(Initial(loaded, loadedResults), work, 0, outcome);
    } else {
      assert Succeeded(work, 0, outcome) == [];
    }
  }

  /**
   * The saves of a non-empty run: one at each multiple of ten that the
   * processed list passes during the loop, then the final one with the
   * final lists; each holds both lists as they were when it was taken.
   */
  lemma BatchSaves(work: seq<string>, loaded: seq<string>, loadedResults: seq<ResultEntry>, outcome: string -> Outcome)
    requires work != []
    ensures var r := BatchWith(work, loaded, loadedResults, outcome);
      && |loaded| <= |r.processed|
      && SavedLengths(r.saves) == SaveLengths(|loaded|, |r.processed|) + [|r.processed|]
      && r.saves[|r.saves| - 1] == Snapshot(ProgressRecord(r.processed, |r.processed|), r.results)
      && SavesArePrefixes(r.saves, r.processed, r.results)
  {
    var init := Initial(loaded, loadedResults);
    var st := Run(init, work, 0, outcome);
    RunSaveLengths(init, work, 0, outcome);
    RunPrefixes(init, work, 0, outcome);
    SavedLengthsAppend(st.saves, Snapshot(MakeProgress(st.processed), st.results));
    assert SavedLengths([]) == [];
    var r := Finish(st);
    forall j | 0 <= j < |r.saves|
      ensures r.processed[..|r.saves[j].progress.processedFiles|] == r.saves[j].progress.processedFiles
    {
      if j == |st.saves| {
        assert r.processed[..|r.processed|] == r.processed;
      }
    }
    assert r.results[..|r.results|] == r.results;
  }

  /** The pacing pauses of a run: after file `x` exactly when it is not the last and its extraction did not fail. */
  lemma BatchPauses(work: seq<string>, loaded: seq<string>, loadedResults: seq<ResultEntry>, outcome: string -> Outcome, x: nat)
    ensures x in BatchWith(work, loaded, loadedResults, outcome).pauses <==>
      0 < x < |work| && !outcome(work[x - 1]).ExtractFailed?
  {
    if |work| > 0 {
      RunPauses(Initial(loaded, loadedResults), work, 0, outcome, x);
    }
  }

  /**
   * Resuming: a second run that loads the processed list of a first run
   * over the same corpus works on no file the first run analysed.
   */
  lemma ResumeSkipsAnalysed(work: seq<string>, loaded: seq<string>, loadedResults: seq<ResultEntry>,
                            outcome: string -> Outcome, allFiles: seq<string>, testMode: bool, testCount: int, f: string)
    requires f in BatchWith(work, loaded, loadedResults, outcome).processed
    ensures f !in WorkList(allFiles, BatchWith(work, loaded, loadedResults, outcome).processed, testMode, testCount)
  {
    WorkListMembership(allFiles, BatchWith(work, loaded, loadedResults, outcome).processed, testMode, testCount, f);
  }
}
