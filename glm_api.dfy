/**
 * `GlmApiService`: how a day's log becomes one summary. A short log goes out
 * in one request; a long one is cut into fixed-size chunks that are
 * summarised one after another (with a retry loop for HTTP 429 and a pause
 * between chunks), and two or more partial summaries are merged by one more
 * request.
 *
 * The network is a scripted oracle: `script(n)` is the `SummaryResult` that
 * the n-th request sent (0-based) produced, as `Extract` derives it from the
 * reply. Requests and waits are recorded, in order, as a trace of events
 * instead of being performed.
 */
module GlmApi {
  import opened Strings
  import ResponseNormalizer

  // ------------------------------------------------------------ data shapes

  /** `SummaryResult` of types.ts: a success flag, a summary or an error. */
  datatype SummaryResult = SummaryResult(success: bool, summary: Option<string>, error: Option<string>)

  function Succeeded(summary: string): SummaryResult {
    SummaryResult(true, Some(summary), None)
  }

  function Failed(error: string): SummaryResult {
    SummaryResult(false, None, Some(error))
  }

  /** Successes carry a summary and no error; failures an error and no summary. */
  predicate WellFormed(r: SummaryResult) {
    (r.success <==> r.summary.Some?) && (!r.success <==> r.error.Some?)
  }

  /** `choices[i].message`: both fields may be absent. */
  datatype Message = Message(content: Option<string>, reasoningContent: Option<string>)

  /** What one request produces. */
  datatype ApiReply =
    | Body(choices: Option<seq<Message>>)                     // the parsed JSON body
    | Thrown(message: Option<string>, response: Option<string>) // a rejected request; `response` already serialised
    | TimedOut                                                // the timeout promise won the race

  /** One request sent, or one wait. */
  datatype Event = Sent(request: Request) | Waited(ms: nat)

  datatype Request = SummarizeRequest(content: string) | MergeRequest(prompt: string)

  /** The result of the n-th request. */
  type Script = nat -> SummaryResult

  const DefaultApiError := "API呼び出しに失敗しました"
  const EmptyReply := "APIからの応答が空です"
  const InvalidReply := "APIからの応答が不正です"
  const EmptyMergeReply := "統合APIからの応答が空です"
  const InvalidMergeReply := "統合APIからの応答が不正です"
  const AllChunksFailed := "全てのチャンクの要約に失敗しました"
  const RateLimitExceeded := "レートリミット超過（リトライ上限到達）"
  const MaxRetries: nat := 3
  const RequestDelay: nat := 1000

  // ------------------------------------------------------- error formatting

  /** JavaScript truthiness of an optional string. */
  predicate Truthy(s: Option<string>) {
    s.Some? && s.value != ""
  }

  /**
   * `formatApiError`: the error's message (or a fixed text when it has
   * none), followed by the serialised response details when there are any.
   */
  function FormatApiError(message: Option<string>, response: Option<string>): (r: string)
    ensures StartsWith(r, if Truthy(message) then message.value else DefaultApiError)
    ensures response.None? ==> r == (if Truthy(message) then message.value else DefaultApiError)
    ensures response.Some? ==> Contains(r, response.value)
  {
    var head := if Truthy(message) then message.value else DefaultApiError;
    if response.None? then head
    else
      var r := head + " (詳細: " + response.value + ")";
      assert OccursAt(r, response.value, |head| + 6);
      r
  }

  /**
   * `timeout / 1000` as JavaScript prints it: the whole seconds in decimal,
   * then, unless the division is exact, a point and the fraction digits of
   * the milliseconds left over (Fraction).
   */
  function SecondsText(ms: nat): (r: string)
    ensures ms % 1000 == 0 ==> r == NatToString(ms / 1000)
    ensures ms % 1000 != 0 ==>
      var w := NatToString(ms / 1000);
      |w| + 1 < |r| && r[..|w| + 1] == w + "." && Fraction(r[|w| + 1..], ms % 1000)
  {
    if ms % 1000 == 0 then NatToString(ms / 1000)
    else
      var w := NatToString(ms / 1000);
      var f := DropTrailingZeros(Pad3(ms % 1000));
      FractionOfPad3(ms % 1000);
      var r := w + "." + f;
      assert r[..|w| + 1] == w + "." && r[|w| + 1..] == f;
      r
  }

  /**
   * The shortest decimal fraction for v thousandths: one to three digits,
   * no trailing zero, denoting v / 1000.
   */
  predicate Fraction(f: string, v: nat) {
    && 1 <= |f| <= 3
    && (forall i :: 0 <= i < |f| ==> '0' <= f[i] <= '9')
    && f[|f| - 1] != '0'
    && DigitsValue(f) * Pow10(3 - |f|) == v
  }

  lemma FractionOfPad3(v: nat)
    requires 0 < v < 1000
    ensures Fraction(DropTrailingZeros(Pad3(v)), v)
  {
    var p := Pad3(v);
    Pad3Value(v);
    assert forall i :: 0 <= i < |p| ==> '0' <= p[i] <= '9';
    DropTrailingZerosValue(p);
  }

  /** The digit string with its trailing '0's removed, and only those. */
  function DropTrailingZeros(s: string): (r: string)
    ensures |r| <= |s| && r == s[..|r|]
    ensures forall k :: |r| <= k < |s| ==> s[k] == '0'
    ensures r == [] || r[|r| - 1] != '0'
    decreases |s|
  {
    if s != [] && s[|s| - 1] == '0' then DropTrailingZeros(s[..|s| - 1]) else s
  }

  /** Dropping k trailing zeros divides the value by 10^k. */
  lemma {:induction false} DropTrailingZerosValue(s: string)
    requires forall i :: 0 <= i < |s| ==> '0' <= s[i] <= '9'
    ensures var r := DropTrailingZeros(s);
      (forall i :: 0 <= i < |r| ==> '0' <= r[i] <= '9')
      && DigitsValue(r) * Pow10(|s| - |r|) == DigitsValue(s)
    decreases |s|
  {
    var r := DropTrailingZeros(s);
    assert forall i :: 0 <= i < |r| ==> r[i] == s[i];
    if s != [] && s[|s| - 1] == '0' {
      DropTrailingZerosValue(s[..|s| - 1]);
      DropZeroStep(s, r);
    }
  }

  lemma DropZeroStep(s: string, r: string)
    requires s != [] && s[|s| - 1] == '0' && forall i :: 0 <= i < |s| ==> '0' <= s[i] <= '9'
    requires |r| < |s| && forall i :: 0 <= i < |r| ==> '0' <= r[i] <= '9'
    requires DigitsValue(r) * Pow10(|s| - 1 - |r|) == DigitsValue(s[..|s| - 1])
    ensures DigitsValue(r) * Pow10(|s| - |r|) == DigitsValue(s)
  {
    var p := Pow10(|s| - 1 - |r|);
    assert Pow10(|s| - |r|) == 10 * p;
    assert DigitsValue(s) == DigitsValue(s[..|s| - 1]) * 10;
    MulTen(DigitsValue(r), p);
  }

  lemma MulTen(x: nat, p: nat)
    ensures x * (10 * p) == (x * p) * 10
  {
  }

  /** The message of the error the timeout promise rejects with. */
  function TimeoutMessage(timeoutMs: nat): string {
    "タイムアウト（" + SecondsText(timeoutMs) + "秒）"
  }

  // -------------------------------------------------------- reply extraction

  /** `message.content || message.reasoning_content || ''`. */
  function ReplyText(m: Message): string {
    if Truthy(m.content) then m.content.value
    else if Truthy(m.reasoningContent) then m.reasoningContent.value
    else ""
  }

  /**
   * How one reply becomes a result, shared by `callApi` and
   * `mergeSummaries` (which differ only in their two error texts). A thrown
   * merge request reaches the `catch` of `generateSummary`, which formats
   * it exactly as `callApi`'s own `catch` does.
   */
  function Extract(reply: ApiReply, emptyError: string, invalidError: string, timeoutMs: nat): (r: SummaryResult)
    ensures WellFormed(r)
    ensures r.success ==>
      (IsTrimmed(r.summary.value, JavaScript) && !Contains(r.summary.value, "\n\n\n")
       && !ResponseNormalizer.HasTagMatch(r.summary.value))
    ensures reply.Body? && (reply.choices.None? || reply.choices.value == []) ==> r == Failed(invalidError)
    ensures reply.TimedOut? ==> r == Failed(TimeoutMessage(timeoutMs))
  {
    match reply
    case Thrown(message, response) => Failed(FormatApiError(message, response))
    case TimedOut => Failed(FormatApiError(Some(TimeoutMessage(timeoutMs)), None))
    case Body(choices) =>
      if choices.None? || |choices.value| == 0 then Failed(invalidError)
      else
        var raw := Trim(ReplyText(choices.value[0]), JavaScript);
        if raw == "" then Failed(emptyError)
        else
          ResponseNormalizer.CleanXmlIsCanonical(raw);
          Succeeded(ResponseNormalizer.CleanXml(raw))
  }

  /** `callApi` on the reply its request received. */
  function CallApi(reply: ApiReply, timeoutMs: nat): (r: SummaryResult)
    ensures reply.TimedOut? ==> r == Failed(TimeoutMessage(timeoutMs))
    ensures reply.Body? && (reply.choices.None? || reply.choices.value == []) ==> r == Failed(InvalidReply)
    ensures r.success ==> r.summary.Some? && IsTrimmed(r.summary.value, JavaScript)
  {
    Extract(reply, EmptyReply, InvalidReply, timeoutMs)
  }

  /** `mergeSummaries` on the reply its request received. */
  function MergeResult(reply: ApiReply, timeoutMs: nat): (r: SummaryResult)
    ensures reply.TimedOut? ==> r == Failed(TimeoutMessage(timeoutMs))
    ensures reply.Body? && (reply.choices.None? || reply.choices.value == []) ==> r == Failed(InvalidMergeReply)
    ensures r.success ==> r.summary.Some? && IsTrimmed(r.summary.value, JavaScript)
  {
    Extract(reply, EmptyMergeReply, InvalidMergeReply, timeoutMs)
  }

  /**
   * The reply text is the first non-empty of `content` and
   * `reasoning_content`, trimmed: a non-blank text succeeds with its
   * normalised form, a blank one fails as empty. A whitespace-only `content`
   * is chosen before `reasoning_content` and so fails.
   */
  lemma {:induction false} ExtractBody(m: Message, rest: seq<Message>, emptyError: string, invalidError: string, timeoutMs: nat)
    ensures var r := Extract(Body(Some([m] + rest)), emptyError, invalidError, timeoutMs);
      var text := if Truthy(m.content) then m.content.value
                  else if Truthy(m.reasoningContent) then m.reasoningContent.value else "";
      && (AllSpace(text, JavaScript) ==> r == Failed(emptyError))
      && (!AllSpace(text, JavaScript) ==> r == Succeeded(ResponseNormalizer.CleanXml(Trim(text, JavaScript))))
  {
    var text := ReplyText(m);
    if AllSpace(text, JavaScript) {
      TrimOfAllSpace(text, JavaScript);
    } else {
      TrimOfNotAllSpace(text, JavaScript);
    }
  }

  /**
   * Rate limiting is recognised by "429" in the error text, so a failure
   * made by the extraction itself (empty or malformed body) is never retried.
   */
  lemma ExtractionFailuresAreFinal(choices: Option<seq<Message>>, timeoutMs: nat)
    ensures !IsRateLimited(CallApi(Body(choices), timeoutMs))
    ensures !IsRateLimited(MergeResult(Body(choices), timeoutMs))
  {
    NoDigitsNo429(EmptyReply);
    NoDigitsNo429(InvalidReply);
    NoDigitsNo429(EmptyMergeReply);
    NoDigitsNo429(InvalidMergeReply);
  }

  lemma NoDigitsNo429(s: string)
    requires '4' !in s
    ensures !Contains(s, "429")
  {
    forall k: nat | k <= |s| ensures !OccursAt(s, "429", k) {
      if k + 3 <= |s| {
        assert s[k..k + 3][0] == s[k];
      }
    }
  }

  // ------------------------------------------------------------------ retry

  /** `!result.success && result.error?.includes('429')`. */
  predicate IsRateLimited(r: SummaryResult) {
    !r.success && r.error.Some? && Contains(r.error.value, "429")
  }

  function Pow2(k: nat): (r: nat)
    ensures r > k
  {
    if k == 0 then 1 else 2 * Pow2(k - 1)
  }

  /** `Math.pow(2, attempt) * 5000`: 10 s, 20 s, 40 s for attempts 1, 2, 3. */
  function Backoff(attempt: nat): (ms: nat)
    ensures attempt >= 1 ==> ms >= 10000 && ms % 10000 == 0
  {
    Pow2(attempt) * 5000
  }

  /** Each retry waits twice as long as the one before: 10 s, 20 s, 40 s, … */
  lemma BackoffDoubles(attempt: nat)
    ensures Backoff(attempt + 1) == 2 * Backoff(attempt)
    ensures Backoff(1) == 10000 && Backoff(2) == 20000 && Backoff(3) == 40000
  {
  }

  /**
   * `callApiWithRetry` from `attempt` on: the result and the events it
   * produces, the first request answered by `script(next)`.
   */
  function Retry(script: Script, next: nat, content: string, attempt: nat, maxRetries: nat)
    : (out: (SummaryResult, seq<Event>))
    requires attempt >= 1
    ensures !IsRateLimited(out.0)
    ensures out.1 == [] <==> attempt > maxRetries
    decreases maxRetries + 1 - attempt
  {
    if attempt > maxRetries then
      NoDigitsNo429(RateLimitExceeded);
      (Failed(RateLimitExceeded), [])
    else
      var r := script(next);
      if !IsRateLimited(r) then (r, [Sent(SummarizeRequest(content))])
      else
        var rest := Retry(script, next + 1, content, attempt + 1, maxRetries);
        (rest.0, [Sent(SummarizeRequest(content)), Waited(Backoff(attempt))] + rest.1)
  }

  /** The first of `n` scripted replies that is not rate limited, or `n`. */
  function FirstUsable(script: Script, next: nat, n: nat): (k: nat)
    ensures k <= n
    ensures forall j :: next <= j < next + k ==> IsRateLimited(script(j))
    ensures k < n ==> !IsRateLimited(script(next + k))
    decreases n
  {
    if n == 0 then 0
    else if !IsRateLimited(script(next)) then 0
    else FirstUsable(script, next + 1, n - 1) + 1
  }

  function SentCount(trace: seq<Event>): nat
    decreases |trace|
  {
    if trace == [] then 0 else (if trace[0].Sent? then 1 else 0) + SentCount(trace[1..])
  }

  /** How many times `e` occurs in `trace`. */
  function Occurrences(trace: seq<Event>, e: Event): nat
    decreases |trace|
  {
    if trace == [] then 0 else (if trace[0] == e then 1 else 0) + Occurrences(trace[1..], e)
  }

  /**
   * The retry loop's result in closed form. With `n` attempts left and `k`
   * the first of them that is not rate limited, the result is that
   * attempt's result, or the rate-limit failure when there is none.
   */
  lemma {:induction false} RetryResult(script: Script, next: nat, content: string, attempt: nat,
                                       maxRetries: nat)
    requires 1 <= attempt <= maxRetries + 1
    ensures var n := maxRetries + 1 - attempt;
      var k := FirstUsable(script, next, n);
      Retry(script, next, content, attempt, maxRetries).0
        == (if k < n then script(next + k) else Failed(RateLimitExceeded))
    decreases maxRetries + 1 - attempt
  {
    if attempt <= maxRetries && IsRateLimited(script(next)) {
      RetryResult(script, next + 1, content, attempt + 1, maxRetries);
    }
  }

  /**
   * The i-th event of a retry loop started at `attempt`: requests for the
   * same content alternate with the backoff of the attempt just made.
   */
  function RetryStep(content: string, attempt: nat, i: nat): (e: Event)
    ensures attempt >= 1 ==> e == Sent(SummarizeRequest(content)) || (e.Waited? && e.ms >= 10000)
  {
    if i % 2 == 0 then Sent(SummarizeRequest(content)) else Waited(Backoff(attempt + i / 2))
  }

  /**
   * The retry loop's events in closed form: they follow `RetryStep`,
   * ending with the request when an attempt was usable and with a wait
   * otherwise, so a backoff also follows the last rate-limited attempt.
   */
  lemma {:induction false} RetryTrace(script: Script, next: nat, content: string, attempt: nat,
                                      maxRetries: nat)
    requires 1 <= attempt <= maxRetries + 1
    ensures var n := maxRetries + 1 - attempt;
      var k := FirstUsable(script, next, n);
      var trace := Retry(script, next, content, attempt, maxRetries).1;
      && |trace| == (if k < n then 2 * k + 1 else 2 * n)
      && (forall i :: 0 <= i < |trace| ==> trace[i] == RetryStep(content, attempt, i))
    decreases maxRetries + 1 - attempt
  {
    if attempt <= maxRetries && IsRateLimited(script(next)) {
      RetryTrace(script, next + 1, content, attempt + 1, maxRetries);
      var rest := Retry(script, next + 1, content, attempt + 1, maxRetries).1;
      var tr := [Sent(SummarizeRequest(content)), Waited(Backoff(attempt))] + rest;
      forall i | 2 <= i < |tr| ensures tr[i] == RetryStep(content, attempt, i) {
        assert tr[i] == rest[i - 2];
        RetryStepShift(content, attempt, i);
      }
    }
  }

  lemma RetryStepShift(content: string, attempt: nat, i: nat)
    requires i >= 2
    ensures RetryStep(content, attempt + 1, i - 2) == RetryStep(content, attempt, i)
  {
    assert (i - 2) % 2 == i % 2 && attempt + 1 + (i - 2) / 2 == attempt + i / 2;
  }

  /** One request per usable-or-not attempt made: `k + 1` with a usable one, else all `n`. */
  lemma {:induction false} RetrySentCount(script: Script, next: nat, content: string, attempt: nat,
                                          maxRetries: nat)
    requires 1 <= attempt <= maxRetries + 1
    ensures var n := maxRetries + 1 - attempt;
      var k := FirstUsable(script, next, n);
      SentCount(Retry(script, next, content, attempt, maxRetries).1) == (if k < n then k + 1 else n)
    decreases maxRetries + 1 - attempt
  {
    if attempt <= maxRetries && IsRateLimited(script(next)) {
      RetrySentCount(script, next + 1, content, attempt + 1, maxRetries);
      var rest := Retry(script, next + 1, content, attempt + 1, maxRetries).1;
      var tr := [Sent(SummarizeRequest(content)), Waited(Backoff(attempt))] + rest;
      assert tr[1..][1..] == rest;
    }
  }

  /** At most `maxRetries` requests, and at least one when `maxRetries >= 1`. */
  lemma RetrySendsAtMostMax(script: Script, next: nat, content: string, maxRetries: nat)
    ensures var out := Retry(script, next, content, 1, maxRetries);
      SentCount(out.1) <= maxRetries && (maxRetries >= 1 ==> SentCount(out.1) >= 1)
  {
    RetrySentCount(script, next, content, 1, maxRetries);
  }

  /** `callApiWithRetry`: the `for` loop over attempts, with its early return. */
  method CallApiWithRetry(script: Script, next: nat, content: string, maxRetries: nat)
    returns (result: SummaryResult, trace: seq<Event>)
    ensures (result, trace) == Retry(script, next, content, 1, maxRetries)
  {
    trace := [];
    var attempt := 1;
    ghost var whole := Retry(script, next, content, 1, maxRetries);
    assert whole.1 == trace + whole.1;
    while attempt <= maxRetries
      invariant 1 <= attempt && (attempt <= maxRetries + 1 || maxRetries == 0)
      invariant var rest := Retry(script, next + attempt - 1, content, attempt, maxRetries);
        whole.0 == rest.0 && whole.1 == trace + rest.1
      decreases maxRetries + 1 - attempt
    {
      ghost var rest := Retry(script, next + attempt - 1, content, attempt, maxRetries);
      var r := script(next + attempt - 1);
      trace := trace + [Sent(SummarizeRequest(content))];
      if !IsRateLimited(r) {
        result := r;
        return;
      }
      ghost var rest' := Retry(script, next + attempt, content, attempt + 1, maxRetries);
      assert rest.1 == [Sent(SummarizeRequest(content)), Waited(Backoff(attempt))] + rest'.1;
      trace := trace + [Waited(Backoff(attempt))];
      assert whole.1 == trace + rest'.1;
      attempt := attempt + 1;
    }
    result := Failed(RateLimitExceeded);
    assert trace + [] == trace;
  }

  // --------------------------------------------------------------- chunking

  /** `logContent.slice(i, i + chunkSize)` for i = 0, chunkSize, 2·chunkSize, … */
  function Chunks(log: string, size: nat): (r: seq<string>)
    requires size > 0
    ensures r == [] <==> log == []
    decreases |log|
  {
    if log == [] then []
    else if |log| <= size then [log]
    else [log[..size]] + Chunks(log[size..], size)
  }

  /** The chunks are consecutive slices: they concatenate to the log. */
  lemma {:induction false} ChunksConcat(log: string, size: nat)
    requires size > 0
    ensures Concat(Chunks(log, size)) == log
    decreases |log|
  {
    if |log| > size {
      ChunksConcat(log[size..], size);
      assert ([log[..size]] + Chunks(log[size..], size))[1..] == Chunks(log[size..], size);
      assert log == log[..size] + log[size..];
    }
  }

  /**
   * No chunk is empty or longer than `size`, and all but the last have
   * exactly `size` characters.
   */
  lemma {:induction false} ChunkSizes(log: string, size: nat)
    requires size > 0
    ensures forall k :: 0 <= k < |Chunks(log, size)| ==> 0 < |Chunks(log, size)[k]| <= size
    ensures forall k :: 0 <= k < |Chunks(log, size)| - 1 ==> |Chunks(log, size)[k]| == size
    decreases |log|
  {
    if |log| > size {
      ChunkSizes(log[size..], size);
      var rest := Chunks(log[size..], size);
      assert forall k :: 1 <= k < |rest| + 1 ==> Chunks(log, size)[k] == rest[k - 1];
    }
  }

  /** There are ⌈|log| / size⌉ chunks: the fewest whose sizes can cover the log. */
  lemma {:induction false} ChunkCount(log: string, size: nat)
    requires size > 0
    ensures (|Chunks(log, size)| - 1) * size < |log| <= |Chunks(log, size)| * size
    decreases |log|
  {
    if |log| > size {
      ChunkCount(log[size..], size);
      var n := |Chunks(log[size..], size)|;
      assert (n + 1) * size == n * size + size;
      assert n * size == (n - 1) * size + size;
    }
  }

  /** The chunking loop of `generateChunkedSummary`. */
  method SplitChunks(log: string, size: nat) returns (chunks: seq<string>)
    requires size > 0
    ensures chunks == Chunks(log, size)
  {
    chunks := [];
    var i := 0;
    while i < |log|
      invariant chunks + Chunks(log[(if i <= |log| then i else |log|)..], size) == Chunks(log, size)
      decreases |log| - i
    {
      var end := if i + size <= |log| then i + size else |log|;
      ChunksStep(log, size, i);
      chunks := chunks + [log[i..end]];
      i := i + size;
    }
    assert Chunks(log[|log|..], size) == [];
  }

  /** One turn of the slicing loop: the chunks from `i` on start with `log[i..i + size]`. */
  lemma ChunksStep(log: string, size: nat, i: nat)
    requires size > 0 && i < |log|
    ensures var end := if i + size <= |log| then i + size else |log|;
      Chunks(log[i..], size) == [log[i..end]] + Chunks(log[end..], size)
  {
    var rest := log[i..];
    if i + size < |log| {
      assert rest[..size] == log[i..i + size];
      assert rest[size..] == log[i + size..];
    } else {
      assert log[i..|log|] == rest;
      assert Chunks(log[|log|..], size) == [];
    }
  }

  // --------------------------------------------------------------- dispatch

  /** What one chunk produced: its (final) result and its events. */
  datatype ChunkOutcome = ChunkOutcome(result: SummaryResult, trace: seq<Event>)

  /** One chunk through the retry loop, its first request answered by `script(start)`. */
  function ChunkRun(script: Script, start: nat, content: string): ChunkOutcome {
    var out := Retry(script, start, content, 1, MaxRetries);
    ChunkOutcome(out.0, out.1)
  }

  /** Each chunk in index order through the retry loop, requests numbered on. */
  function Outcomes(script: Script, next: nat, chunks: seq<string>): (outs: seq<ChunkOutcome>)
    ensures |outs| == |chunks|
    decreases |chunks|
  {
    if chunks == [] then []
    else
      var n := |chunks| - 1;
      var done := Outcomes(script, next, chunks[..n]);
      done + [ChunkRun(script, next + SentTotal(done), chunks[n])]
  }

  /** `result.success && result.summary`: a success with a non-empty summary. */
  predicate Kept(r: SummaryResult) {
    r.success && r.summary.Some? && r.summary.value != ""
  }

  /** `partialSummaries`: the kept summaries, in chunk order. */
  function Partials(outs: seq<ChunkOutcome>): seq<string>
    decreases |outs|
  {
    if outs == [] then []
    else (if Kept(outs[0].result) then [outs[0].result.summary.value] else []) + Partials(outs[1..])
  }

  /** The chunks' events with one pacing wait between consecutive chunks. */
  function PacedTrace(outs: seq<ChunkOutcome>): seq<Event>
    decreases |outs|
  {
    if outs == [] then []
    else if |outs| == 1 then outs[0].trace
    else outs[0].trace + [Waited(RequestDelay)] + PacedTrace(outs[1..])
  }

  function SentTotal(outs: seq<ChunkOutcome>): nat
    decreases |outs|
  {
    if outs == [] then 0 else SentCount(outs[0].trace) + SentTotal(outs[1..])
  }

  lemma {:induction false} PartialsAppend(outs: seq<ChunkOutcome>, o: ChunkOutcome)
    ensures Partials(outs + [o]) == Partials(outs) + (if Kept(o.result) then [o.result.summary.value] else [])
    decreases |outs|
  {
    if outs != [] {
      assert (outs + [o])[1..] == outs[1..] + [o];
      PartialsAppend(outs[1..], o);
    } else {
      assert outs + [o] == [o];
    }
  }

  lemma {:induction false} PacedTraceAppend(outs: seq<ChunkOutcome>, o: ChunkOutcome)
    ensures PacedTrace(outs + [o]) ==
      if outs == [] then o.trace else PacedTrace(outs) + [Waited(RequestDelay)] + o.trace
    decreases |outs|
  {
    if |outs| >= 2 {
      assert (outs + [o])[1..] == outs[1..] + [o];
      PacedTraceAppend(outs[1..], o);
    } else if |outs| == 1 {
      assert (outs + [o])[1..] == [o];
    } else {
      assert outs + [o] == [o];
    }
  }

  lemma {:induction false} SentTotalAppend(outs: seq<ChunkOutcome>, o: ChunkOutcome)
    ensures SentTotal(outs + [o]) == SentTotal(outs) + SentCount(o.trace)
    decreases |outs|
  {
    if outs != [] {
      assert (outs + [o])[1..] == outs[1..] + [o];
      SentTotalAppend(outs[1..], o);
    } else {
      assert outs + [o] == [o];
    }
  }

  /**
   * One more chunk through the retry loop extends the outcomes by one, and
   * the partials, the paced trace and the request count with it.
   */
  lemma DispatchStep(script: Script, next: nat, chunks: seq<string>, i: nat, o: ChunkOutcome)
    requires i < |chunks|
    requires o == ChunkRun(script, next + SentTotal(Outcomes(script, next, chunks[..i])), chunks[i])
    ensures var done := Outcomes(script, next, chunks[..i]);
      var done' := Outcomes(script, next, chunks[..i + 1]);
      && done' == done + [o]
      && Partials(done') == Partials(done) + (if Kept(o.result) then [o.result.summary.value] else [])
      && SentTotal(done') == SentTotal(done) + SentCount(o.trace)
      && PacedTrace(done') + Pacing(i + 1, |chunks|) == PacedTrace(done) + Pacing(i, |chunks|) + o.trace + Pacing(i + 1, |chunks|)
  {
    var done := Outcomes(script, next, chunks[..i]);
    OutcomesSnoc(script, next, chunks, i);
    PartialsAppend(done, o);
    PacedTraceAppend(done, o);
    SentTotalAppend(done, o);
  }

  lemma OutcomesSnoc(script: Script, next: nat, chunks: seq<string>, i: nat)
    requires i < |chunks|
    ensures var done := Outcomes(script, next, chunks[..i]);
      Outcomes(script, next, chunks[..i + 1]) == done + [ChunkRun(script, next + SentTotal(done), chunks[i])]
  {
    assert chunks[..i + 1][..i] == chunks[..i];
  }

  /** The pacing wait that follows chunk `i - 1` of `n` when another chunk comes. */
  function Pacing(i: nat, n: nat): (r: seq<Event>)
    ensures r == [] || r == [Waited(RequestDelay)]
  {
    if 0 < i < n then [Waited(RequestDelay)] else []
  }

  /** The sequential per-chunk loop of `generateChunkedSummary`. */
  method DispatchChunks(script: Script, next: nat, chunks: seq<string>)
    returns (partials: seq<string>, trace: seq<Event>, sent: nat)
    ensures var outs := Outcomes(script, next, chunks);
      partials == Partials(outs) && trace == PacedTrace(outs) && sent == SentTotal(outs)
  {
    partials, trace, sent := [], [], 0;
    ghost var done: seq<ChunkOutcome> := [];
    for i := 0 to |chunks|
      invariant done == Outcomes(script, next, chunks[..i])
      invariant partials == Partials(done) && sent == SentTotal(done)
      invariant trace == PacedTrace(done) + Pacing(i, |chunks|)
    {
      var result, events := CallApiWithRetry(script, next + sent, chunks[i], MaxRetries);
      var o := ChunkOutcome(result, events);
      DispatchStep(script, next, chunks, i, o);
      done := done + [o];
      if Kept(result) {
        partials := partials + [result.summary.value];
      }
      trace := trace + events;
      sent := sent + SentCount(events);
      if i < |chunks| - 1 {
        trace := trace + [Waited(RequestDelay)];
      }
    }
    assert chunks[..|chunks|] == chunks;
  }

  /**
   * Chunk k is answered by the retry loop started at the request number
   * following the earlier chunks' requests.
   */
  lemma OutcomeOfChunk(script: Script, next: nat, chunks: seq<string>, outs: seq<ChunkOutcome>, k: nat)
    requires outs == Outcomes(script, next, chunks) && k < |chunks|
    ensures outs[k] == ChunkRun(script, next + SentTotal(outs[..k]), chunks[k])
  {
    OutcomesConsistent(script, next, chunks);
    NextRunApplies(script, next, outs[..k], chunks[k], outs[k]);
  }

  /** The number of the first request after those of the outcomes `prior`. */
  function StartAfter(next: nat, prior: seq<ChunkOutcome>): nat {
    next + SentTotal(prior)
  }

  /** The retry loop of a chunk that follows the outcomes `prior`. */
  function NextRun(script: Script, next: nat): (seq<ChunkOutcome>, string) -> ChunkOutcome {
    (prior: seq<ChunkOutcome>, content: string) => ChunkRun(script, StartAfter(next, prior), content)
  }

  lemma NextRunApplies(script: Script, next: nat, prior: seq<ChunkOutcome>, content: string, o: ChunkOutcome)
    requires o == NextRun(script, next)(prior, content)
    ensures o == ChunkRun(script, next + SentTotal(prior), content)
  {
  }

  /** Every outcome in `outs` is `step` of its chunk after the outcomes before it. */
  predicate Consistent(step: (seq<ChunkOutcome>, string) -> ChunkOutcome, chunks: seq<string>, outs: seq<ChunkOutcome>) {
    |outs| == |chunks| &&
    forall k {:trigger outs[k]} :: 0 <= k < |outs| ==> outs[k] == step(outs[..k], chunks[k])
  }

  lemma {:induction false} OutcomesConsistent(script: Script, next: nat, chunks: seq<string>)
    ensures Consistent(NextRun(script, next), chunks, Outcomes(script, next, chunks))
    decreases |chunks|
  {
    if chunks != [] {
      var n := |chunks| - 1;
      var done := Outcomes(script, next, chunks[..n]);
      var o := ChunkRun(script, next + SentTotal(done), chunks[n]);
      assert Outcomes(script, next, chunks) == done + [o];
      OutcomesConsistent(script, next, chunks[..n]);
      RunIsNext(script, next, done, chunks[n], o);
      ConsistentSnoc(NextRun(script, next), chunks, done, o);
    }
  }

  lemma RunIsNext(script: Script, next: nat, prior: seq<ChunkOutcome>, content: string, o: ChunkOutcome)
    requires o == ChunkRun(script, next + SentTotal(prior), content)
    ensures o == NextRun(script, next)(prior, content)
  {
  }

  /** Stepping the last chunk after consistent outcomes of the others keeps them consistent. */
  lemma ConsistentSnoc(step: (seq<ChunkOutcome>, string) -> ChunkOutcome, chunks: seq<string>,
      done: seq<ChunkOutcome>, o: ChunkOutcome)
    requires chunks != []
    requires Consistent(step, chunks[..|chunks| - 1], done)
    requires o == step(done, chunks[|chunks| - 1])
    ensures Consistent(step, chunks, done + [o])
  {
    var outs := done + [o];
    forall k | 0 <= k < |outs|
      ensures outs[k] == step(outs[..k], chunks[k])
    {
      if k < |done| {
        assert outs[k] == done[k] && outs[..k] == done[..k];
        assert chunks[..|chunks| - 1][k] == chunks[k];
      } else {
        assert outs[..k] == done;
      }
    }
  }

  /**
   * The events of one retry loop are requests for its content (one to
   * `MaxRetries` of them) and backoff waits, never a pacing wait.
   */
  lemma RetryEvents(script: Script, next: nat, content: string)
    ensures var out := Retry(script, next, content, 1, MaxRetries);
      && 1 <= SentCount(out.1) <= MaxRetries
      && (forall e :: e in out.1 ==> e == Sent(SummarizeRequest(content)) || (e.Waited? && e.ms >= 10000))
  {
    var out := Retry(script, next, content, 1, MaxRetries);
    RetrySendsAtMostMax(script, next, content, MaxRetries);
    RetryTrace(script, next, content, 1, MaxRetries);
    forall e | e in out.1 ensures e == Sent(SummarizeRequest(content)) || (e.Waited? && e.ms >= 10000) {
      var i :| 0 <= i < |out.1| && out.1[i] == e;
      assert e == RetryStep(content, 1, i);
    }
  }

  /** The events of chunk k: requests for chunk k and backoff waits. */
  lemma ChunkEvents(script: Script, next: nat, chunks: seq<string>, k: nat)
    requires k < |chunks|
    ensures var outs := Outcomes(script, next, chunks);
      forall e :: e in outs[k].trace ==> e == Sent(SummarizeRequest(chunks[k])) || (e.Waited? && e.ms >= 10000)
  {
    var outs := Outcomes(script, next, chunks);
    OutcomeOfChunk(script, next, chunks, outs, k);
    var start := next + SentTotal(outs[..k]);
    OutcomeEvents(script, start, chunks[k], outs[k]);
  }

  lemma OutcomeEvents(script: Script, start: nat, content: string, o: ChunkOutcome)
    requires o == ChunkRun(script, start, content)
    ensures forall e :: e in o.trace ==> e == Sent(SummarizeRequest(content)) || (e.Waited? && e.ms >= 10000)
  {
    RetryEvents(script, start, content);
  }

  /**
   * The pacing wait (1000 ms) occurs exactly n - 1 times for n chunks: once
   * between each pair of consecutive chunks, never after the last, and no
   * backoff can be mistaken for it.
   */
  lemma {:induction false} PacingCount(outs: seq<ChunkOutcome>)
    requires forall k :: 0 <= k < |outs| ==> Waited(RequestDelay) !in outs[k].trace
    ensures outs != [] ==> Occurrences(PacedTrace(outs), Waited(RequestDelay)) == |outs| - 1
    decreases |outs|
  {
    if |outs| == 1 {
      NotOccurring(outs[0].trace, Waited(RequestDelay));
    } else if |outs| >= 2 {
      assert forall k :: 0 <= k < |outs| - 1 ==> outs[1..][k] == outs[k + 1];
      PacingCount(outs[1..]);
      var w := Waited(RequestDelay);
      assert [w][1..] == [];
      assert Occurrences([w], w) == 1 + Occurrences([], w);
      NotOccurring(outs[0].trace, w);
      OccurrencesAppend(outs[0].trace, [Waited(RequestDelay)]);
      OccurrencesAppend(outs[0].trace + [Waited(RequestDelay)], PacedTrace(outs[1..]));
    }
  }

  /**
   * For the dispatch that is modelled: n chunks give exactly n - 1 pacing
   * waits in the trace, one between each pair of consecutive chunks.
   */
  lemma PacingOfChunks(script: Script, next: nat, chunks: seq<string>)
    requires chunks != []
    ensures Occurrences(PacedTrace(Outcomes(script, next, chunks)), Waited(RequestDelay)) == |chunks| - 1
  {
    var outs := Outcomes(script, next, chunks);
    forall k | 0 <= k < |outs| ensures Waited(RequestDelay) !in outs[k].trace {
      ChunkEvents(script, next, chunks, k);
    }
    PacingCount(outs);
  }

  lemma {:induction false} NotOccurring(trace: seq<Event>, e: Event)
    requires e !in trace
    ensures Occurrences(trace, e) == 0
    decreases |trace|
  {
    if trace != [] {
      NotOccurring(trace[1..], e);
    }
  }

  lemma {:induction false} OccurrencesAppend(a: seq<Event>, b: seq<Event>)
    ensures forall e :: Occurrences(a + b, e) == Occurrences(a, e) + Occurrences(b, e)
    decreases |a|
  {
    if a == [] {
      assert a + b == b;
    } else {
      assert (a + b)[1..] == a[1..] + b;
      OccurrencesAppend(a[1..], b);
    }
  }

  lemma {:induction false} SentCountAppend(a: seq<Event>, b: seq<Event>)
    ensures SentCount(a + b) == SentCount(a) + SentCount(b)
    decreases |a|
  {
    if a == [] {
      assert a + b == b;
    } else {
      assert (a + b)[1..] == a[1..] + b;
      SentCountAppend(a[1..], b);
    }
  }

  /**
   * Partial summaries are the kept results in chunk order: each is
   * non-empty, there are no more of them than chunks, and a chunk whose
   * result failed or came back empty contributes nothing.
   */
  lemma {:induction false} PartialsAreKeptSummaries(outs: seq<ChunkOutcome>)
    ensures |Partials(outs)| <= |outs|
    ensures forall p :: p in Partials(outs) ==> p != ""
    ensures (forall k :: 0 <= k < |outs| ==> !Kept(outs[k].result)) <==> Partials(outs) == []
    decreases |outs|
  {
    if outs != [] {
      PartialsAreKeptSummaries(outs[1..]);
      assert forall k :: 1 <= k < |outs| ==> outs[k] == outs[1..][k - 1];
    }
  }

  // ------------------------------------------------------------ merge prompt

  const MergeHeader := "以下は同じ日の作業ログを複数パートに分けて要約したものです。\nこれらを統合して、1つの作業日報にまとめてください。\n\n【ルール】\n- 重複を排除して簡潔にまとめる\n- プロジェクトごとにセクション分け\n- 同じ作業は1つにまとめる\n- 日本語のみ、Markdown形式\n\n"
  const MergeFooter := "\n\n統合した作業日報:"

  function PartLabel(i: nat): string {
    "=== パート" + NatToString(i + 1) + " ===\n"
  }

  /** `summaries.map((s, i) => …)`: each partial under its 1-based part label. */
  function LabelledParts(summaries: seq<string>, from: nat): (r: seq<string>)
    ensures |r| == |summaries|
    ensures forall k :: 0 <= k < |r| ==> r[k] == PartLabel(from + k) + summaries[k]
    decreases |summaries|
  {
    if summaries == [] then []
    else [PartLabel(from) + summaries[0]] + LabelledParts(summaries[1..], from + 1)
  }

  function MergePrompt(summaries: seq<string>): (r: string)
    ensures StartsWith(r, MergeHeader)
    ensures |MergeFooter| <= |r| && r[|r| - |MergeFooter|..] == MergeFooter
  {
    MergeHeader + Join(LabelledParts(summaries, 0), "\n\n") + MergeFooter
  }

  /** Every partial appears in the merge prompt right after its part label. */
  lemma MergePromptHasEveryPart(summaries: seq<string>, k: nat)
    requires k < |summaries|
    ensures Contains(MergePrompt(summaries), PartLabel(k) + summaries[k])
  {
    var parts := LabelledParts(summaries, 0);
    var at := JoinHasPart(parts, "\n\n", k);
    ContainsInMiddle(MergeHeader, Join(parts, "\n\n"), MergeFooter, parts[k], at);
  }

  lemma {:induction false} JoinHasPart(parts: seq<string>, sep: string, k: nat) returns (at: nat)
    requires k < |parts|
    ensures OccursAt(Join(parts, sep), parts[k], at)
    decreases k
  {
    if k == 0 {
      at := 0;
      if |parts| > 1 {
        assert Join(parts, sep)[..|parts[0]|] == parts[0];
      }
    } else {
      var at' := JoinHasPart(parts[1..], sep, k - 1);
      at := |parts[0]| + |sep| + at';
      var j := Join(parts, sep);
      assert j == parts[0] + sep + Join(parts[1..], sep);
      assert j[at..at + |parts[k]|] == Join(parts[1..], sep)[at'..at' + |parts[k]|];
    }
  }

  // -------------------------------------------------------------- top level

  /** `generateChunkedSummary` and `generateSummary` as one specification. */
  function Summary(log: string, maxContentLength: nat, script: Script)
    : (out: (SummaryResult, seq<Event>))
    requires maxContentLength > 0
  {
    if |log| > maxContentLength then
      var outs := Outcomes(script, 0, Chunks(log, maxContentLength));
      var partials := Partials(outs);
      var trace := PacedTrace(outs);
      if |partials| == 0 then (Failed(AllChunksFailed), trace)
      else if |partials| == 1 then (Succeeded(partials[0]), trace)
      else (script(SentTotal(outs)), trace + [Sent(MergeRequest(MergePrompt(partials)))])
    else (script(0), [Sent(SummarizeRequest(log))])
  }

  function MergeCount(trace: seq<Event>): nat
    decreases |trace|
  {
    if trace == [] then 0
    else (if trace[0].Sent? && trace[0].request.MergeRequest? then 1 else 0) + MergeCount(trace[1..])
  }

  /**
   * A log at or below the threshold is sent whole in exactly one request
   * and never retried; above it, no request carries more than
   * `maxContentLength` characters of the log.
   */
  lemma {:induction false} RequestsAreBounded(log: string, maxContentLength: nat, script: Script)
    requires maxContentLength > 0
    ensures var out := Summary(log, maxContentLength, script);
      && (|log| <= maxContentLength ==> out.1 == [Sent(SummarizeRequest(log))])
      && (forall e :: e in out.1 && e.Sent? && e.request.SummarizeRequest? ==>
            |e.request.content| <= maxContentLength)
  {
    if |log| > maxContentLength {
      var chunks := Chunks(log, maxContentLength);
      ChunkSizes(log, maxContentLength);
      var outs := Outcomes(script, 0, chunks);
      PacedTraceMembers(outs);
      forall e | e in PacedTrace(outs) && e.Sent? && e.request.SummarizeRequest?
        ensures |e.request.content| <= maxContentLength
      {
        var k :| 0 <= k < |outs| && e in outs[k].trace;
        ChunkEvents(script, 0, chunks, k);
        assert e.request.content == chunks[k];
      }
    }
  }

  lemma {:induction false} PacedTraceMembers(outs: seq<ChunkOutcome>)
    ensures forall e :: e in PacedTrace(outs) ==>
      e == Waited(RequestDelay) || exists k :: 0 <= k < |outs| && e in outs[k].trace
    decreases |outs|
  {
    if |outs| >= 2 {
      PacedTraceMembers(outs[1..]);
      forall e | e in PacedTrace(outs[1..]) && e != Waited(RequestDelay)
        ensures exists k :: 0 <= k < |outs| && e in outs[k].trace
      {
        var k :| 0 <= k < |outs[1..]| && e in outs[1..][k].trace;
        assert outs[1..][k] == outs[k + 1];
      }
    }
  }

  /**
   * How a chunked run ends: no partial gives the all-failed error; one
   * partial is the result unchanged, with no merge request; two or more
   * lead to exactly one merge request, the last event, whose reply decides
   * the result.
   */
  lemma {:induction false} ChunkedTermination(log: string, maxContentLength: nat, script: Script)
    requires maxContentLength > 0 && |log| > maxContentLength
    ensures var outs := Outcomes(script, 0, Chunks(log, maxContentLength));
      var partials := Partials(outs);
      var out := Summary(log, maxContentLength, script);
      && (|partials| == 0 ==> out.0 == Failed(AllChunksFailed) && MergeCount(out.1) == 0)
      && (|partials| == 1 ==> out.0 == Succeeded(partials[0]) && MergeCount(out.1) == 0)
      && (|partials| >= 2 ==>
            (MergeCount(out.1) == 1
             && out.1[|out.1| - 1] == Sent(MergeRequest(MergePrompt(partials)))
             && out.0 == script(SentTotal(outs))))
  {
    var outs := Outcomes(script, 0, Chunks(log, maxContentLength));
    NoMergeInChunks(script, 0, Chunks(log, maxContentLength));
    var trace := PacedTrace(outs);
    MergeCountAppend(trace, [Sent(MergeRequest(MergePrompt(Partials(outs))))]);
  }

  lemma {:induction false} NoMergeInChunks(script: Script, next: nat, chunks: seq<string>)
    ensures MergeCount(PacedTrace(Outcomes(script, next, chunks))) == 0
  {
    var outs := Outcomes(script, next, chunks);
    PacedTraceMembers(outs);
    forall e | e in PacedTrace(outs) ensures !(e.Sent? && e.request.MergeRequest?) {
      if e != Waited(RequestDelay) {
        var k :| 0 <= k < |outs| && e in outs[k].trace;
        ChunkEvents(script, next, chunks, k);
      }
    }
    NoMergeRequest(PacedTrace(outs));
  }

  lemma {:induction false} NoMergeRequest(trace: seq<Event>)
    requires forall e :: e in trace ==> !(e.Sent? && e.request.MergeRequest?)
    ensures MergeCount(trace) == 0
    decreases |trace|
  {
    if trace != [] {
      assert trace[0] in trace;
      NoMergeRequest(trace[1..]);
    }
  }

  lemma {:induction false} MergeCountAppend(a: seq<Event>, b: seq<Event>)
    ensures MergeCount(a + b) == MergeCount(a) + MergeCount(b)
    decreases |a|
  {
    if a == [] {
      assert a + b == b;
    } else {
      assert (a + b)[1..] == a[1..] + b;
      MergeCountAppend(a[1..], b);
    }
  }

  /** `generateSummary`: the threshold test, then the direct call or the chunked run. */
  method GenerateSummary(log: string, maxContentLength: nat, script: Script)
    returns (result: SummaryResult, trace: seq<Event>)
    requires maxContentLength > 0
    ensures (result, trace) == Summary(log, maxContentLength, script)
  {
    if |log| > maxContentLength {
      var chunks := SplitChunks(log, maxContentLength);
      var partials, sent;
      partials, trace, sent := DispatchChunks(script, 0, chunks);
      if |partials| == 0 {
        result := Failed(AllChunksFailed);
      } else if |partials| == 1 {
        result := Succeeded(partials[0]);
      } else {
        trace := trace + [Sent(MergeRequest(MergePrompt(partials)))];
        result := script(sent);
      }
    } else {
      trace := [Sent(SummarizeRequest(log))];
      result := script(0);
    }
  }
}
