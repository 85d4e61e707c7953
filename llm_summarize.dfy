/**
 * Summary requests to the chat-completion service: the text offered for
 * summary, the two prompt messages, and the linear-backoff retry loop shared
 * by `summarize_article` and `summarize_with_openai`.
 *
 * The service is an oracle `complete(k, messages)`: the outcome of the `k`-th
 * request of the run (its reply text, or an exception). A request that starts
 * at call number `base` issues its attempts as calls `base`, `base + 1`, ...
 * The sleeps are returned as the list of waits requested, in seconds.
 */
module LlmSummarize {
  import opened Wrappers
  import opened PyText
  import opened Records

  datatype Message = Message(role: string, content: string)

  type Completion = (nat, seq<Message>) -> Outcome<string>

  const SystemPrompt: string := "You are a helpful assistant that creates concise news summaries."
  const UserPrompt: string :=
    "Create a concise 2-3 sentence summary of this news article content. Focus on the key facts and main points:\n\n"

  // ---------------------------------------------------------------- text and prompt

  /** The lines offered for summary: a title line and a description line, each only when non-empty. */
  function Parts(title: string, description: string): seq<string> {
    (if title != "" then ["Title: " + title] else [])
    + (if description != "" then ["Description: " + description] else [])
  }

  /** `"\n".join(text_to_summarize)`. */
  function CombinedText(title: string, description: string): string {
    Join("\n", Parts(title, description))
  }

  /** The combined text in each of the four cases of which fields are present. */
  lemma CombinedTextCases(title: string, description: string)
    ensures title != "" && description != "" ==>
      CombinedText(title, description) == "Title: " + title + "\n" + "Description: " + description
    ensures title != "" && description == "" ==> CombinedText(title, description) == "Title: " + title
    ensures title == "" && description != "" ==> CombinedText(title, description) == "Description: " + description
    ensures title == "" && description == "" ==> CombinedText(title, description) == ""
  {
    var parts := Parts(title, description);
    if title != "" && description != "" {
      assert parts == ["Title: " + title, "Description: " + description];
      assert parts[1..] == ["Description: " + description];
      assert Join("\n", parts[1..]) == "Description: " + description;
    }
  }

  /** The text opens with a title line exactly when there is a title. */
  lemma CombinedTextTitleLine(title: string, description: string)
    ensures StartsWith(CombinedText(title, description), "Title: ") <==> title != ""
  {
    CombinedTextCases(title, description);
    var text := CombinedText(title, description);
    if title == "" && description != "" {
      assert text[0] == 'D';
    }
  }

  /** The user message: the fixed instruction, a title paragraph when there is a title, then the content. */
  function UserContent(text: string, title: string): string {
    UserPrompt + (if title != "" then "Title: " + title + "\n\n" else "") + "Content:\n" + text
  }

  /** The two messages of every attempt, a system message then the user message. */
  function Prompt(text: string, title: string): (messages: seq<Message>)
    ensures |messages| == 2
    ensures messages[0] == Message("system", SystemPrompt)
    ensures messages[1].role == "user"
  {
    [Message("system", SystemPrompt), Message("user", UserContent(text, title))]
  }

  /** The user message starts with the instruction and ends with the text to summarize. */
  lemma UserContentShape(text: string, title: string)
    ensures StartsWith(UserContent(text, title), UserPrompt)
    ensures var c := UserContent(text, title); |text| <= |c| && c[|c| - |text|..] == text
    ensures title == "" ==> UserContent(text, title) == UserPrompt + "Content:\n" + text
  {
    var head := UserPrompt + (if title != "" then "Title: " + title + "\n\n" else "") + "Content:\n";
    assert UserContent(text, title) == head + text;
    assert (head + text)[..|UserPrompt|] == UserPrompt;
  }

  // ---------------------------------------------------------------- the retry loop, as a reference

  /** The reply to attempt `i` of a request that starts at call number `base`. */
  function ReplyAt(complete: Completion, base: nat, messages: seq<Message>, i: nat): Outcome<string> {
    complete(base + i, messages)
  }

  /** A reply that ends the loop: returned text that is not blank once stripped. */
  predicate Good(reply: Outcome<string>) {
    reply.Ok? && Strip(reply.value) != ""
  }

  /** The first attempt from `attempt` on whose reply is good, or the attempt count when none is. */
  function FirstGood(complete: Completion, base: nat, messages: seq<Message>, maxRetries: int, attempt: nat): (j: nat)
    ensures attempt <= j <= Max(maxRetries, attempt)
    ensures j < maxRetries ==> Good(ReplyAt(complete, base, messages, j))
    ensures forall i :: attempt <= i < j ==> !Good(ReplyAt(complete, base, messages, i))
    decreases maxRetries - attempt
  {
    if attempt >= maxRetries || Good(ReplyAt(complete, base, messages, attempt)) then attempt
    else FirstGood(complete, base, messages, maxRetries, attempt + 1)
  }

  /** The attempts among the first `n` that raised and were not the last allowed: those followed by a sleep. */
  function WaitIndices(complete: Completion, base: nat, messages: seq<Message>, maxRetries: int, n: nat): seq<nat> {
    if n == 0 then []
    else
      WaitIndices(complete, base, messages, maxRetries, n - 1)
      + (if ReplyAt(complete, base, messages, n - 1).Raised? && n - 1 < maxRetries - 1 then [n - 1] else [])
  }

  /** The sleep after each waiting attempt: `retry_delay * (attempt + 1)`. */
  function Waits(indices: seq<nat>, retryDelay: int): seq<int> {
    if indices == [] then []
    else Waits(indices[..|indices| - 1], retryDelay) + [retryDelay * (indices[|indices| - 1] + 1)]
  }

  /** An attempt waits exactly when it raised and was not the last one allowed; the waits come in attempt order. */
  lemma {:induction false} WaitIndicesMeans(complete: Completion, base: nat, messages: seq<Message>, maxRetries: int, n: nat)
    ensures forall i: nat :: i in WaitIndices(complete, base, messages, maxRetries, n)
              <==> (i < n && i < maxRetries - 1 && ReplyAt(complete, base, messages, i).Raised?)
    ensures forall p, q :: 0 <= p < q < |WaitIndices(complete, base, messages, maxRetries, n)| ==>
              WaitIndices(complete, base, messages, maxRetries, n)[p] < WaitIndices(complete, base, messages, maxRetries, n)[q]
  {
    if n > 0 {
      WaitIndicesMeans(complete, base, messages, maxRetries, n - 1);
      var w := WaitIndices(complete, base, messages, maxRetries, n - 1);
      forall k | 0 <= k < |w|
        ensures w[k] < n - 1
      {
        assert w[k] in w;
      }
    }
  }

  /** Each wait is `retry_delay` times the one-based number of the attempt that raised. */
  lemma {:induction false} WaitsMeans(indices: seq<nat>, retryDelay: int)
    ensures |Waits(indices, retryDelay)| == |indices|
    ensures forall k :: 0 <= k < |indices| ==> Waits(indices, retryDelay)[k] == retryDelay * (indices[k] + 1)
  {
    if indices != [] {
      WaitsMeans(indices[..|indices| - 1], retryDelay);
    }
  }

  /** An attempt whose reply is not good passes the search on to the next one. */
  lemma FirstGoodStep(complete: Completion, base: nat, messages: seq<Message>, maxRetries: int, attempt: nat)
    requires attempt < maxRetries && !Good(ReplyAt(complete, base, messages, attempt))
    ensures FirstGood(complete, base, messages, maxRetries, attempt) == FirstGood(complete, base, messages, maxRetries, attempt + 1)
  {
  }

  /** One more attempt adds its sleep, if it waits, after the earlier ones. */
  lemma WaitsStep(complete: Completion, base: nat, messages: seq<Message>, maxRetries: int, retryDelay: int, attempt: nat)
    ensures ReplyAt(complete, base, messages, attempt).Raised? && attempt < maxRetries - 1 ==>
      Waits(WaitIndices(complete, base, messages, maxRetries, attempt + 1), retryDelay)
      == Waits(WaitIndices(complete, base, messages, maxRetries, attempt), retryDelay) + [retryDelay * (attempt + 1)]
    ensures !(ReplyAt(complete, base, messages, attempt).Raised? && attempt < maxRetries - 1) ==>
      Waits(WaitIndices(complete, base, messages, maxRetries, attempt + 1), retryDelay)
      == Waits(WaitIndices(complete, base, messages, maxRetries, attempt), retryDelay)
  {
    var w := WaitIndices(complete, base, messages, maxRetries, attempt);
    if ReplyAt(complete, base, messages, attempt).Raised? && attempt < maxRetries - 1 {
      assert (w + [attempt])[..|w|] == w;
    } else {
      assert w + [] == w;
    }
  }

  /** What one summary request yields: the summary, the number of calls made, the waits. */
  datatype Attempted = Attempted(summary: Option<string>, calls: nat, waits: seq<int>)

  /**
   * The request as a whole: attempts stop at the first good reply, whose
   * stripped text is the summary, or after `max_retries` attempts with none.
   */
  function Attempt(complete: Completion, base: nat, messages: seq<Message>, maxRetries: int, retryDelay: int): (a: Attempted)
    ensures a.calls <= Max(maxRetries, 0)
    ensures a.summary.Some? ==>
      a.calls >= 1 && ReplyAt(complete, base, messages, a.calls - 1).Ok?
      && a.summary.value == Strip(ReplyAt(complete, base, messages, a.calls - 1).value) && a.summary.value != ""
    ensures a.summary.None? ==> a.calls == Max(maxRetries, 0)
    ensures forall i :: 0 <= i < a.calls - 1 ==> !Good(ReplyAt(complete, base, messages, i))
    ensures a.summary.None? ==> forall i :: 0 <= i < a.calls ==> !Good(ReplyAt(complete, base, messages, i))
    ensures a.waits == Waits(WaitIndices(complete, base, messages, maxRetries, a.calls), retryDelay)
  {
    var j := FirstGood(complete, base, messages, maxRetries, 0);
    if j < maxRetries then
      Attempted(Some(Strip(ReplyAt(complete, base, messages, j).value)), j + 1,
                Waits(WaitIndices(complete, base, messages, maxRetries, j + 1), retryDelay))
    else
      Attempted(None, j, Waits(WaitIndices(complete, base, messages, maxRetries, j), retryDelay))
  }

  // ---------------------------------------------------------------- the retry loop, as code

  /**
   * The `for attempt in range(max_retries)` loop of `summarize_with_openai`,
   * which `summarize_article` repeats inline: build the prompt, ask, return the
   * stripped reply when it is not blank; on an exception sleep
   * `retry_delay * (attempt + 1)` unless it was the last attempt.
   */
  method RequestSummary(text: string, title: string, maxRetries: int, retryDelay: int, complete: Completion, base: nat)
    returns (summary: Option<string>, calls: nat, waits: seq<int>)
    ensures Attempted(summary, calls, waits) == Attempt(complete, base, Prompt(text, title), maxRetries, retryDelay)
  {
    var messages := Prompt(text, title);
    summary, calls, waits := None, 0, [];
    var attempt: nat := 0;
    while attempt < maxRetries
      invariant attempt <= Max(maxRetries, 0)
      invariant calls == attempt
      invariant FirstGood(complete, base, messages, maxRetries, 0) == FirstGood(complete, base, messages, maxRetries, attempt)
      invariant waits == Waits(WaitIndices(complete, base, messages, maxRetries, attempt), retryDelay)
    {
      var reply := complete(base + attempt, messages);
      assert reply == ReplyAt(complete, base, messages, attempt);
      WaitsStep(complete, base, messages, maxRetries, retryDelay, attempt);
      calls := calls + 1;
      if reply.Ok? {
        var stripped := Strip(reply.value);
        if stripped != "" {
          summary := Some(stripped);
          assert FirstGood(complete, base, messages, maxRetries, attempt) == attempt;
          return;
        }
      } else if attempt < maxRetries - 1 {
        waits := waits + [retryDelay * (attempt + 1)];
      }
      FirstGoodStep(complete, base, messages, maxRetries, attempt);
      attempt := attempt + 1;
    }
    assert FirstGood(complete, base, messages, maxRetries, attempt) == attempt;
  }

  /**
   * `summarize_article`: no request at all when the stripped title and
   * description are both empty; otherwise one summary request on their
   * combined text, with the title repeated in the prompt.
   */
  method SummarizeArticle(article: Article, maxRetries: int, retryDelay: int, complete: Completion, base: nat)
    returns (summary: Option<string>, calls: nat, waits: seq<int>)
    ensures var title, description := Strip(TitleOf(article)), Strip(DescriptionOf(article));
      if title == "" && description == "" then summary == None && calls == 0 && waits == []
      else Attempted(summary, calls, waits)
           == Attempt(complete, base, Prompt(CombinedText(title, description), title), maxRetries, retryDelay)
  {
    var title := Strip(TitleOf(article));
    var description := Strip(DescriptionOf(article));
    if title == "" && description == "" {
      return None, 0, [];
    }
    var combined := CombinedText(title, description);
    summary, calls, waits := RequestSummary(combined, title, maxRetries, retryDelay, complete, base);
  }
}
