/**
 * `LLMClient.call_llm`: up to `max_retries` attempts, each one sending the
 * prompt, locating a JSON object in the reply, parsing it with the three-tier
 * cascade and checking the four required fields. The HTTP exchange is the
 * `send` oracle; a `time.sleep` is recorded as an event.
 */
module LlmClient {
  import opened Wrappers
  import opened Text
  import opened Types
  import opened Locator
  import opened Repair

  /** The two settings the retry loop reads. */
  datatype ClientConfig = ClientConfig(maxRetries: int, retryInterval: nat)

  /** What the loop does that can be observed: a request for an attempt, and a pause. */
  datatype Event = Sent(attempt: nat) | Slept(seconds: nat)

  /** The outcome of one attempt: its value is returned, or the loop moves on, pausing first or not. */
  datatype Verdict = Accepted(value: Json) | Rejected(pauses: bool)

  /**
   * `all(field in parsed_json for field in required_fields)`: key membership
   * for a dict, element membership for a list, substring for a string, and a
   * `TypeError` (None) for a number or a boolean.
   */
  function HasRequired(v: Json): (r: Option<bool>)
    ensures v.JObj? ==> r == Some(forall k | k in RequiredFields :: k in v.fields)
    ensures (v.JNum? || v.JBool? || v.JNull?) <==> r.None?
  {
    match v
    case JObj(fields) => Some(forall k | k in RequiredFields :: k in fields)
    case JArr(items) => Some(forall k | k in RequiredFields :: JStr(k) in items)
    case JStr(t) => Some(forall k | k in RequiredFields :: IsSubstring(k, t))
    case _ => None
  }

  /**
   * One attempt judged from its reply. An exception, a reply the locator finds
   * nothing in, a failed parse, a falsy value, a value without a required
   * field, and the `TypeError` of a membership test on a number all lead to a
   * pause; a body without `choices` leads straight to the next attempt.
   */
  function Judge(reply: Reply, env: Oracles): Verdict
  {
    match reply
    case Raised => Rejected(true)
    case NoChoices => Rejected(false)
    case Content(text) =>
      match Locate(text, env.stripFences, env.decode)
      case None => Rejected(true)
      case Some(jsonText) =>
        match SafeParse(jsonText, env)
        case None => Rejected(true)
        case Some(v) =>
          if Truthy(v) && HasRequired(v) == Some(true) then Accepted(v) else Rejected(true)
  }

  /**
   * Only a body without `choices` moves on without a pause, and an accepted
   * value came from a content reply, is truthy and holds every required field.
   */
  lemma JudgeMeaning(reply: Reply, env: Oracles)
    ensures reply.NoChoices? <==> Judge(reply, env) == Rejected(false)
    ensures var r := Judge(reply, env);
      r.Accepted? ==> reply.Content? && Truthy(r.value) && HasRequired(r.value) == Some(true)
  {
  }

  /** Result and events of the attempts from `attempt` on. */
  datatype Trace = Trace(result: Option<Json>, events: seq<Event>)

  /**
   * The loop from `attempt` to `max_retries - 1`, as a value, for any verdicts
   * of the attempts.
   */
  function Attempts(cfg: ClientConfig, verdict: nat -> Verdict, attempt: nat): Trace
    decreases if attempt < cfg.maxRetries then cfg.maxRetries - attempt else 0
  {
    if attempt >= cfg.maxRetries then Trace(None, [])
    else
      match verdict(attempt)
      case Accepted(v) => Trace(Some(v), [Sent(attempt)])
      case Rejected(pauses) =>
        var rest := Attempts(cfg, verdict, attempt + 1);
        Trace(rest.result, [Sent(attempt)] + Pause(cfg, attempt, pauses) + rest.events)
  }

  /** The pause after a rejected attempt: only if it asks for one and is not the last. */
  function Pause(cfg: ClientConfig, attempt: nat, pauses: bool): seq<Event> {
    if pauses && attempt < cfg.maxRetries - 1 then [Slept(cfg.retryInterval)] else []
  }

  /** The verdict of each attempt of a call. */
  function Verdicts(env: Oracles, prompt: string): nat -> Verdict {
    (k: nat) => Judge(env.send(prompt, k), env)
  }

  /** The whole call: every attempt from the first. */
  function Call(cfg: ClientConfig, env: Oracles, prompt: string): Trace {
    Attempts(cfg, Verdicts(env, prompt), 0)
  }

  /** The number of requests in a list of events. */
  function CountSent(events: seq<Event>): nat {
    if events == [] then 0 else (if events[0].Sent? then 1 else 0) + CountSent(events[1..])
  }

  lemma {:induction false} CountSentAppend(a: seq<Event>, b: seq<Event>)
    ensures CountSent(a + b) == CountSent(a) + CountSent(b)
  {
    if a != [] {
      assert (a + b)[0] == a[0];
      assert (a + b)[1..] == a[1..] + b;
      CountSentAppend(a[1..], b);
    } else {
      assert a + b == b;
    }
  }

  /** A request followed by a pause or nothing counts as one request. */
  lemma CountSentStep(attempt: nat, pause: seq<Event>, rest: seq<Event>)
    requires forall e :: e in pause ==> e.Slept?
    requires |pause| <= 1
    ensures CountSent([Sent(attempt)] + pause + rest) == 1 + CountSent(rest)
  {
    CountSentAppend([Sent(attempt)] + pause, rest);
    var head := [Sent(attempt)] + pause;
    assert head[0] == Sent(attempt) && head[1..] == pause;
    if pause != [] {
      assert pause[0].Slept? && pause[1..] == [];
      assert CountSent(pause) == 0;
    }
    assert CountSent(head) == 1;
  }

  /**
   * The body of one attempt after the request: no `choices` moves on without
   * a pause; otherwise the reply goes through the locator, the cascade and the
   * field check, and any failure moves on after a pause.
   */
  method JudgeReply(reply: Reply, env: Oracles) returns (r: Verdict)
    ensures r == Judge(reply, env)
  {
    if reply.Raised? {
      return Rejected(true);
    } else if reply.NoChoices? {
      return Rejected(false);
    }
    var jsonText := ExtractJsonObject(reply.text, env.stripFences, env.decode);
    if jsonText.None? {
      return Rejected(true);
    }
    var parsed := SafeParse(jsonText.value, env);
    if parsed.Some? && Truthy(parsed.value) && HasRequired(parsed.value) == Some(true) {
      return Accepted(parsed.value);
    }
    return Rejected(true);
  }

  /**
   * One attempt of the loop: the request, the verdict on its reply, and what
   * is recorded for it (the request, then the pause a rejection asks for).
   */
  method Attempt(cfg: ClientConfig, env: Oracles, prompt: string, attempt: nat) returns (outcome: Verdict, step: seq<Event>)
    requires attempt < cfg.maxRetries
    ensures outcome == Verdicts(env, prompt)(attempt)
    ensures outcome.Accepted? ==> Attempts(cfg, Verdicts(env, prompt), attempt) == Trace(Some(outcome.value), step)
    ensures outcome.Rejected? ==>
      && Attempts(cfg, Verdicts(env, prompt), attempt).result == Attempts(cfg, Verdicts(env, prompt), attempt + 1).result
      && Attempts(cfg, Verdicts(env, prompt), attempt).events == step + Attempts(cfg, Verdicts(env, prompt), attempt + 1).events
  {
    var reply := env.send(prompt, attempt);
    outcome := JudgeReply(reply, env);
    step := [Sent(attempt)];
    if outcome.Rejected? {
      RejectedStep(cfg, Verdicts(env, prompt), attempt, outcome.pauses);
      step := step + Pause(cfg, attempt, outcome.pauses);
    }
  }

  /**
   * The loop itself. Each attempt sends, then either returns the accepted
   * value at once or moves on, pausing first unless it was the last attempt
   * or the body had no `choices`.
   */
  method CallLlm(cfg: ClientConfig, env: Oracles, prompt: string) returns (result: Option<Json>, events: seq<Event>)
    ensures Trace(result, events) == Call(cfg, env, prompt)
  {
    ghost var verdict := Verdicts(env, prompt);
    events := [];
    var attempt := 0;
    while attempt < cfg.maxRetries
      invariant 0 <= attempt
      invariant attempt > 0 ==> attempt <= cfg.maxRetries
      invariant Call(cfg, env, prompt).result == Attempts(cfg, verdict, attempt).result
      invariant Call(cfg, env, prompt).events == events + Attempts(cfg, verdict, attempt).events
      decreases cfg.maxRetries - attempt
    {
      var outcome, step := Attempt(cfg, env, prompt, attempt);
      if outcome.Accepted? {
        return Some(outcome.value), events + step;
      }
      assert events + step + Attempts(cfg, verdict, attempt + 1).events
          == events + (step + Attempts(cfg, verdict, attempt + 1).events);
      events := events + step;
      attempt := attempt + 1;
    }
    result := None;
  }

  /** A rejected attempt: its request, its pause if any, then the later attempts. */
  lemma RejectedStep(cfg: ClientConfig, verdict: nat -> Verdict, attempt: nat, pauses: bool)
    requires attempt < cfg.maxRetries && verdict(attempt) == Rejected(pauses)
    ensures Attempts(cfg, verdict, attempt).result == Attempts(cfg, verdict, attempt + 1).result
    ensures Attempts(cfg, verdict, attempt).events
         == [Sent(attempt)] + Pause(cfg, attempt, pauses) + Attempts(cfg, verdict, attempt + 1).events
  {
  }

  /** A body without `choices` is followed directly by the next request, with no pause. */
  lemma NoChoicesMovesOnWithoutPause(cfg: ClientConfig, env: Oracles, prompt: string, k: nat)
    requires k < cfg.maxRetries && env.send(prompt, k).NoChoices?
    ensures Attempts(cfg, Verdicts(env, prompt), k).events
         == [Sent(k)] + Attempts(cfg, Verdicts(env, prompt), k + 1).events
  {
    RejectedStep(cfg, Verdicts(env, prompt), k, false);
  }

  /** The requests of attempts `attempt` onwards: one per attempt, at most the remaining budget. */
  lemma {:induction false} AttemptsBudget(cfg: ClientConfig, verdict: nat -> Verdict, attempt: nat)
    ensures CountSent(Attempts(cfg, verdict, attempt).events) <= if attempt < cfg.maxRetries then cfg.maxRetries - attempt else 0
    decreases if attempt < cfg.maxRetries then cfg.maxRetries - attempt else 0
  {
    if attempt < cfg.maxRetries {
      match verdict(attempt)
      case Accepted(v) =>
        assert CountSent([Sent(attempt)]) == 1;
      case Rejected(pauses) =>
        AttemptsBudget(cfg, verdict, attempt + 1);
        CountSentStep(attempt, Pause(cfg, attempt, pauses), Attempts(cfg, verdict, attempt + 1).events);
    }
  }

  /** At most `max_retries` requests, and none at all when it is zero or negative. */
  lemma CallBudget(cfg: ClientConfig, env: Oracles, prompt: string)
    ensures CountSent(Call(cfg, env, prompt).events) <= if cfg.maxRetries > 0 then cfg.maxRetries else 0
  {
    AttemptsBudget(cfg, Verdicts(env, prompt), 0);
  }

  /** A value is returned exactly when some attempt is accepted. */
  lemma {:induction false} AttemptsNoneIffAllRejected(cfg: ClientConfig, verdict: nat -> Verdict, attempt: nat)
    ensures Attempts(cfg, verdict, attempt).result.None?
        <==> forall k :: attempt <= k < cfg.maxRetries ==> verdict(k).Rejected?
    decreases if attempt < cfg.maxRetries then cfg.maxRetries - attempt else 0
  {
    if attempt < cfg.maxRetries {
      AttemptsNoneIffAllRejected(cfg, verdict, attempt + 1);
    }
  }

  /** The call returns None exactly when every one of its attempts is rejected. */
  lemma CallNoneIffAllRejected(cfg: ClientConfig, env: Oracles, prompt: string)
    ensures Call(cfg, env, prompt).result.None?
        <==> forall k :: 0 <= k < cfg.maxRetries ==> Judge(env.send(prompt, k), env).Rejected?
  {
    AttemptsNoneIffAllRejected(cfg, Verdicts(env, prompt), 0);
    assert forall k: nat :: Verdicts(env, prompt)(k) == Judge(env.send(prompt, k), env);
  }

  /**
   * Early return: when attempt `k` is the first accepted one, its value is
   * the result and the requests were exactly those of attempts `attempt` to `k`.
   */
  lemma {:induction false} AttemptsReturnFirstAccepted(cfg: ClientConfig, verdict: nat -> Verdict, attempt: nat, k: nat)
    requires attempt <= k < cfg.maxRetries
    requires verdict(k).Accepted?
    requires forall j :: attempt <= j < k ==> verdict(j).Rejected?
    ensures Attempts(cfg, verdict, attempt).result == Some(verdict(k).value)
    ensures CountSent(Attempts(cfg, verdict, attempt).events) == k - attempt + 1
    decreases k - attempt
  {
    if attempt < k {
      var pauses := verdict(attempt).pauses;
      AttemptsReturnFirstAccepted(cfg, verdict, attempt + 1, k);
      CountSentStep(attempt, Pause(cfg, attempt, pauses), Attempts(cfg, verdict, attempt + 1).events);
    } else {
      assert CountSent([Sent(k)]) == 1;
    }
  }

  /** The call returns the value of its first accepted attempt, after exactly that many requests. */
  lemma CallReturnsFirstAccepted(cfg: ClientConfig, env: Oracles, prompt: string, k: nat)
    requires k < cfg.maxRetries
    requires Judge(env.send(prompt, k), env).Accepted?
    requires forall j :: 0 <= j < k ==> Judge(env.send(prompt, j), env).Rejected?
    ensures Call(cfg, env, prompt).result == Some(Judge(env.send(prompt, k), env).value)
    ensures CountSent(Call(cfg, env, prompt).events) == k + 1
  {
    AttemptsReturnFirstAccepted(cfg, Verdicts(env, prompt), 0, k);
  }

  /** A returned value is the value of one of the attempts, accepted by its verdict. */
  lemma {:induction false} AttemptsResultIsAccepted(cfg: ClientConfig, verdict: nat -> Verdict, attempt: nat)
    ensures var r := Attempts(cfg, verdict, attempt).result;
      r.Some? ==> exists k :: attempt <= k < cfg.maxRetries && verdict(k) == Accepted(r.value)
    decreases if attempt < cfg.maxRetries then cfg.maxRetries - attempt else 0
  {
    if attempt < cfg.maxRetries && verdict(attempt).Rejected? {
      AttemptsResultIsAccepted(cfg, verdict, attempt + 1);
    }
  }

  /** Whatever the call returns is truthy and holds every required field. */
  lemma CallResultHasRequired(cfg: ClientConfig, env: Oracles, prompt: string)
    ensures var r := Call(cfg, env, prompt).result;
      r.Some? ==> Truthy(r.value) && HasRequired(r.value) == Some(true)
  {
    var r := Call(cfg, env, prompt).result;
    AttemptsResultIsAccepted(cfg, Verdicts(env, prompt), 0);
    if r.Some? {
      var k: nat :| k < cfg.maxRetries && Verdicts(env, prompt)(k) == Accepted(r.value);
      JudgeMeaning(env.send(prompt, k), env);
      assert Judge(env.send(prompt, k), env) == Accepted(r.value);
    }
  }

  /**
   * Pauses fall only between attempts: each one directly follows the request
   * of an attempt before the last, and the events never end with a pause.
   */
  predicate PausesBetweenAttempts(events: seq<Event>, maxRetries: int) {
    && (forall i :: 0 <= i < |events| && events[i].Slept? ==>
          i > 0 && events[i - 1].Sent? && events[i - 1].attempt < maxRetries - 1)
    && (events != [] ==> events[|events| - 1].Sent?)
  }

  /** Attempts remain: their events start with a request. */
  lemma AttemptsStartWithRequest(cfg: ClientConfig, verdict: nat -> Verdict, attempt: nat)
    requires attempt < cfg.maxRetries
    ensures Attempts(cfg, verdict, attempt).events != []
    ensures Attempts(cfg, verdict, attempt).events[0] == Sent(attempt)
  {
  }

  lemma {:induction false} AttemptsPauseBetween(cfg: ClientConfig, verdict: nat -> Verdict, attempt: nat)
    ensures PausesBetweenAttempts(Attempts(cfg, verdict, attempt).events, cfg.maxRetries)
    decreases if attempt < cfg.maxRetries then cfg.maxRetries - attempt else 0
  {
    if attempt < cfg.maxRetries {
      match verdict(attempt)
      case Accepted(v) =>
      case Rejected(pauses) =>
        var pause := Pause(cfg, attempt, pauses);
        var rest := Attempts(cfg, verdict, attempt + 1).events;
        AttemptsPauseBetween(cfg, verdict, attempt + 1);
        var events := [Sent(attempt)] + pause + rest;
        assert Attempts(cfg, verdict, attempt).events == events;
        if pause != [] {
          AttemptsStartWithRequest(cfg, verdict, attempt + 1);
        }
        forall i | 0 <= i < |events| && events[i].Slept?
          ensures i > 0 && events[i - 1].Sent? && events[i - 1].attempt < cfg.maxRetries - 1
        {
          if i >= 1 + |pause| {
            assert events[i] == rest[i - 1 - |pause|];
          }
        }
    }
  }

  /** The whole call pauses only between attempts, never after the last one or after success. */
  lemma CallPausesBetween(cfg: ClientConfig, env: Oracles, prompt: string)
    ensures PausesBetweenAttempts(Call(cfg, env, prompt).events, cfg.maxRetries)
  {
    AttemptsPauseBetween(cfg, Verdicts(env, prompt), 0);
  }

  /** Requests `from` to `last`, each but the last followed by a pause. */
  function PauseAfterEach(from: nat, last: nat, seconds: nat): seq<Event>
    requires from <= last
    decreases last - from
  {
    if from == last then [Sent(last)]
    else [Sent(from), Slept(seconds)] + PauseAfterEach(from + 1, last, seconds)
  }

  /**
   * Retry budget: when every attempt but the last is rejected with a pause
   * and the last is accepted, the value is returned after all the requests,
   * with a pause after each failed one.
   */
  lemma {:induction false} FailuresThenSuccess(cfg: ClientConfig, verdict: nat -> Verdict, attempt: nat)
    requires attempt < cfg.maxRetries
    requires forall j :: attempt <= j < cfg.maxRetries - 1 ==> verdict(j) == Rejected(true)
    requires verdict(cfg.maxRetries - 1).Accepted?
    ensures Attempts(cfg, verdict, attempt).result == Some(verdict(cfg.maxRetries - 1).value)
    ensures Attempts(cfg, verdict, attempt).events == PauseAfterEach(attempt, cfg.maxRetries - 1, cfg.retryInterval)
    decreases cfg.maxRetries - attempt
  {
    if attempt < cfg.maxRetries - 1 {
      FailuresThenSuccess(cfg, verdict, attempt + 1);
    }
  }

  /**
   * With `max_retries` = N, N - 1 transport errors followed by an acceptable
   * reply give the value after N requests and N - 1 pauses.
   */
  lemma CallFailuresThenSuccess(cfg: ClientConfig, env: Oracles, prompt: string)
    requires cfg.maxRetries >= 1
    requires forall j: nat :: j < cfg.maxRetries - 1 ==> env.send(prompt, j).Raised?
    requires Judge(env.send(prompt, cfg.maxRetries - 1), env).Accepted?
    ensures Call(cfg, env, prompt).result == Some(Judge(env.send(prompt, cfg.maxRetries - 1), env).value)
    ensures Call(cfg, env, prompt).events == PauseAfterEach(0, cfg.maxRetries - 1, cfg.retryInterval)
  {
    var verdict := Verdicts(env, prompt);
    forall j: nat | j < cfg.maxRetries - 1
      ensures verdict(j) == Rejected(true)
    {
      assert env.send(prompt, j).Raised?;
    }
    FailuresThenSuccess(cfg, verdict, 0);
  }

  /** Tier 3 output passes the field check of the retry loop. */
  /**
   * Inside `call_llm` the cascade never goes past tier 1: the locator only
   * returns text that starts with `{` and decodes, so `_safe_parse_json`
   * gives that decode.
   */
  lemma LocatedTextParsesAtTierOne(text: string, env: Oracles)
    requires Locate(text, env.stripFences, env.decode).Some?
    ensures var j := Locate(text, env.stripFences, env.decode).value;
      SafeParse(j, env) == env.decode(j) && SafeParse(j, env).Some?
  {
    LocateIsPrefixFromFirstBrace(text, env.stripFences, env.decode);
  }

  lemma RecoveredRecordIsAccepted(v: Json)
    requires WellFormedRecord(v)
    ensures Truthy(v) && HasRequired(v) == Some(true)
  {
    assert Category in v.fields;
  }
}
