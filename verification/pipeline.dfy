/** The reply pipeline of `process_message`: for each of the four strategies
    ("gemini", "openrouter", "deepseek", "refined") the order in which the
    outside services are called, which failures end the run with a fixed
    message, which ones fall back to an earlier text, and which ones escape
    to the outer exception handler.

    Every outside call is abstracted. `Services` holds one function per kind
    of call, giving what that call does for its arguments: it returns a string
    or raises (the `Raised` case carries `str(e)`). A run records the calls it
    made, in order, next to the reply. This makes it possible to state which
    calls a failure skips. */
module Pipeline {
  import opened Text

  datatype Option<T> = None | Some(value: T)

  /** What an outside call did: it returned `text`, or it raised an exception
      whose `str` is `error`. */
  datatype Outcome = Ok(text: string) | Raised(error: string)

  /** The two OpenRouter-hosted chat backends. */
  datatype Backend = OpenRouter | DeepSeek

  /** The two calls to `rewrite_ai_response` in a run: the one on the first
      answer and the one on the conversational text. */
  datatype Stage = First | Final

  /** The three prompts sent to the Gemini model. Only what each prompt is
      built from is kept; the Persian wording around it is not modelled. */
  datatype Prompt =
    | Answer(userInput: string)
    | Review(userInput: string, draft: string)
    | Merge(userInput: string, context: string)

  /** What `check_and_rewrite_openrouter` / `check_and_rewrite_deepseek` get
      back from the provider: the request failed (a `RequestException`), the
      body has no usable `choices`, it has a first choice whose message
      content is `content`, or it has a first choice that is not shaped as
      expected (the lookup raises). */
  datatype ProviderReply =
    | RequestFailed(error: string)
    | NoChoices
    | Choice(content: string)
    | Malformed(error: string)

  /** One call to an outside service, with the arguments that vary. */
  datatype Call =
    | Generate(prompt: Prompt)
    | Ask(backend: Backend, input: string)
    | Humanize(stage: Stage, text: string)
    | Verify(backend: Backend, draft: string, userInput: string)

  /** The behaviour of the outside services:
      - `generate`: the `.text` of Gemini's `generate_content` for a prompt;
      - `ask`: `ask_openrouter` or `ask_deepseek`;
      - `humanize`: `rewrite_ai_response`;
      - `verify`: the provider's reply inside `check_and_rewrite_*`. */
  datatype Services = Services(
    generate: Prompt -> Outcome,
    ask: (Backend, string) -> Outcome,
    humanize: (Stage, string) -> Outcome,
    verify: (Backend, string, string) -> ProviderReply)

  /** The value `process_message` returns (`None` when the mode is not one of
      the four) and the outside calls it made, in order. */
  datatype Run = Run(reply: Option<string>, calls: seq<Call>)

  const GeminiRequestFailed: string := "❌ خطا در دریافت پاسخ از Gemini."
  const GeminiSilent: string := "❌ Gemini پاسخی تولید نکرد."
  const RewriteFailed: string := "❌ مشکلی در بازنویسی پاسخ پیش آمد."
  const NoModelReplied: string := "❌ هیچ پاسخی از مدل\U{200C}ها دریافت نشد. لطفاً بعداً دوباره امتحان کن."
  const MergeSilent: string := "❌ پاسخ نهایی تولید نشد."
  const MergeFailed: string := "❌ مشکلی در تولید پاسخ نهایی پیش آمد."
  const OpenRouterLabel: string := "🧠 پاسخ OpenRouter:\n"
  const DeepSeekLabel: string := "🤖 پاسخ DeepSeek:\n"

  /** The mark the backends put in their own error replies. */
  const Cross: char := '❌'

  /** The outer handler's reply for an exception that escapes a mode. */
  function ErrorReply(error: string): (r: string)
    ensures |r| == |error| + 5 && r[..5] == "خطا: " && r[5..] == error
  {
    "خطا: " + error
  }

  /** What the caller of a mode sees of an outcome when the mode does not
      catch it: the text, or the outer handler's message. */
  function Escaped(o: Outcome): string {
    match o
    case Ok(text) => text
    case Raised(error) => ErrorReply(error)
  }

  predicate IsMode(mode: string) {
    mode == "gemini" || mode == "openrouter" || mode == "deepseek" || mode == "refined"
  }

  /** The test a single backend's response goes through: it carries the error
      mark or is blank once stripped, that is, it has no visible character. */
  predicate LooksFailed(response: string)
    ensures LooksFailed(response) <==> Cross in response || Visible(response) == []
  {
    BlankIffInvisible(response);
    Cross in response || Strip(response) == []
  }

  /** A response in "refined" mode, or "" when it is treated as absent: when
      it is empty (not stripped first) or carries the error mark. */
  function Kept(response: string): (r: string)
    ensures r == [] || r == response
    ensures r == [] <==> response == [] || Cross in response
  {
    if response == [] || Cross in response then [] else response
  }

  /** The block of the merge prompt that quotes the backends' answers. */
  function MergeContext(openRouter: string, deepSeek: string): (ctx: string)
    ensures ctx == [] <==> openRouter == [] && deepSeek == []
    ensures openRouter != [] ==>
      |OpenRouterLabel| + |openRouter| <= |ctx| && ctx[..|OpenRouterLabel| + |openRouter|] == OpenRouterLabel + openRouter
    ensures deepSeek != [] ==>
      |DeepSeekLabel| + |deepSeek| <= |ctx| && ctx[|ctx| - |deepSeek| - |DeepSeekLabel|..] == DeepSeekLabel + deepSeek
    ensures openRouter != [] ==>
      |OpenRouterLabel| + |openRouter| + 2 <= |ctx|
      && ctx[|OpenRouterLabel| + |openRouter|..|OpenRouterLabel| + |openRouter| + 2] == "\n\n"
    ensures openRouter != [] && deepSeek != [] ==>
      |ctx| == |OpenRouterLabel| + |openRouter| + 2 + |DeepSeekLabel| + |deepSeek|
    ensures openRouter != [] && deepSeek == [] ==> |ctx| == |OpenRouterLabel| + |openRouter| + 2
    ensures openRouter == [] && deepSeek != [] ==> |ctx| == |DeepSeekLabel| + |deepSeek|
  {
    var first := if openRouter != [] then OpenRouterLabel + openRouter + "\n\n" else [];
    var second := if deepSeek != [] then DeepSeekLabel + deepSeek else [];
    assert openRouter != [] ==> (first + second)[..|OpenRouterLabel| + |openRouter|] == OpenRouterLabel + openRouter;
    assert openRouter != [] ==>
      (first + second)[|OpenRouterLabel| + |openRouter|..|OpenRouterLabel| + |openRouter| + 2] == "\n\n";
    assert (first + second)[|first|..] == second;
    first + second
  }

  /** `check_and_rewrite_*` given the provider's reply: the stripped content
      of the first choice, the draft unchanged when the request failed or no
      choice came back, and an escaping exception for a malformed choice. */
  function CheckAndRewrite(draft: string, reply: ProviderReply): (r: Outcome)
    ensures r.Raised? <==> reply.Malformed?
    ensures reply.RequestFailed? || reply.NoChoices? ==> r == Ok(draft)
    ensures reply.Choice? ==> r == Ok(Strip(reply.content))
    ensures reply.Choice? ==> r.Ok? && Stripped(r.text) && Visible(r.text) == Visible(reply.content)
    ensures reply.Malformed? ==> r == Raised(reply.error)
  {
    match reply
    case RequestFailed(_) => Ok(draft)
    case NoChoices => Ok(draft)
    case Choice(content) => VisibleStrip(content); Ok(Strip(content))
    case Malformed(error) => Raised(error)
  }

  /** What a logged call did, given the services. */
  function Answered(w: Services, c: Call): Outcome {
    match c
    case Generate(p) => w.generate(p)
    case Ask(b, input) => w.ask(b, input)
    case Humanize(s, text) => w.humanize(s, text)
    case Verify(b, draft, userInput) => CheckAndRewrite(draft, w.verify(b, draft, userInput))
  }

  /** The text a call works on. */
  function Input(c: Call): string {
    match c
    case Generate(p) => (match p case Answer(u) => u case Review(_, d) => d case Merge(_, ctx) => ctx)
    case Ask(_, input) => input
    case Humanize(_, text) => text
    case Verify(_, draft, _) => draft
  }

  function Last(calls: seq<Call>): Call
    requires calls != []
  {
    calls[|calls| - 1]
  }

  /** No call before the last one raised: the run stopped at its first
      exception, if any. */
  predicate StopsAtFirstRaise(w: Services, calls: seq<Call>) {
    forall i :: 0 <= i < |calls| - 1 ==> Answered(w, calls[i]).Ok?
  }

  /** Every call but the last returned, and what it returned is what the
      next call works on. */
  predicate Chained(w: Services, calls: seq<Call>) {
    forall i :: 0 <= i < |calls| - 1 ==> Answered(w, calls[i]) == Ok(Input(calls[i + 1]))
  }

  // ---------------------------------------------------------------------
  // The four modes
  // ---------------------------------------------------------------------

  /** "gemini": answer, humanize, review, humanize. The first two failures
      end the run with a fixed message; a failed review keeps the humanized
      text and a failed final humanize keeps the conversational text. */
  function GeminiMode(w: Services, userInput: string): (r: Run)
    ensures r.reply.Some? && 1 <= |r.calls| <= 4
    ensures r.calls[0] == Generate(Answer(userInput))
  {
    var answer := Generate(Answer(userInput));
    match w.generate(Answer(userInput))
    case Raised(_) => Run(Some(GeminiRequestFailed), [answer])
    case Ok(raw) =>
      var response := Strip(raw);
      if response == [] then Run(Some(GeminiSilent), [answer])
      else
        var first := Humanize(First, response);
        match w.humanize(First, response)
        case Raised(_) => Run(Some(RewriteFailed), [answer, first])
        case Ok(humanized) =>
          var review := w.generate(Review(userInput, humanized));
          var conversational := if review.Raised? then humanized else Strip(review.text);
          var final := w.humanize(Final, conversational);
          var reply := if final.Raised? then conversational else final.text;
          Run(Some(reply), [answer, first, Generate(Review(userInput, humanized)), Humanize(Final, conversational)])
  }

  /** "openrouter" and "deepseek": ask the backend, then humanize, verify
      with the same provider and humanize again. Nothing here catches an
      exception. */
  function SingleBackendMode(w: Services, b: Backend, userInput: string): (r: Run)
    ensures r.reply.Some? && 1 <= |r.calls| <= 4
    ensures r.calls[0] == Ask(b, userInput)
  {
    var ask := Ask(b, userInput);
    match w.ask(b, userInput)
    case Raised(e) => Run(Some(ErrorReply(e)), [ask])
    case Ok(response) =>
      if LooksFailed(response) then Run(Some(response), [ask])
      else
        var first := Humanize(First, response);
        match w.humanize(First, response)
        case Raised(e) => Run(Some(ErrorReply(e)), [ask, first])
        case Ok(humanized) =>
          var check := Verify(b, humanized, userInput);
          match CheckAndRewrite(humanized, w.verify(b, humanized, userInput))
          case Raised(e) => Run(Some(ErrorReply(e)), [ask, first, check])
          case Ok(conversational) =>
            var final := Humanize(Final, conversational);
            Run(Some(Escaped(w.humanize(Final, conversational))), [ask, first, check, final])
  }

  /** The part of "refined" mode inside its own `try`: merge, humanize,
      review, humanize, where any exception gives the same fixed message. */
  function MergeStage(w: Services, userInput: string, context: string): (r: Run)
    ensures r.reply.Some? && 1 <= |r.calls| <= 4
    ensures r.calls[0] == Generate(Merge(userInput, context))
  {
    var merge := Generate(Merge(userInput, context));
    match w.generate(Merge(userInput, context))
    case Raised(_) => Run(Some(MergeFailed), [merge])
    case Ok(raw) =>
      var merged := Strip(raw);
      if merged == [] then Run(Some(MergeSilent), [merge])
      else
        var first := Humanize(First, merged);
        match w.humanize(First, merged)
        case Raised(_) => Run(Some(MergeFailed), [merge, first])
        case Ok(humanized) =>
          var review := Generate(Review(userInput, humanized));
          match w.generate(Review(userInput, humanized))
          case Raised(_) => Run(Some(MergeFailed), [merge, first, review])
          case Ok(text) =>
            var final := Humanize(Final, Strip(text));
            match w.humanize(Final, Strip(text))
            case Raised(_) => Run(Some(MergeFailed), [merge, first, review, final])
            case Ok(reply) => Run(Some(reply), [merge, first, review, final])
  }

  /** "refined": ask OpenRouter, then DeepSeek, and merge what came back. */
  function RefinedMode(w: Services, userInput: string): (r: Run)
    ensures r.reply.Some? && 1 <= |r.calls| <= 6
    ensures r.calls[0] == Ask(OpenRouter, userInput)
  {
    var askOpenRouter := Ask(OpenRouter, userInput);
    match w.ask(OpenRouter, userInput)
    case Raised(e) => Run(Some(ErrorReply(e)), [askOpenRouter])
    case Ok(openRouter) =>
      var askDeepSeek := Ask(DeepSeek, userInput);
      match w.ask(DeepSeek, userInput)
      case Raised(e) => Run(Some(ErrorReply(e)), [askOpenRouter, askDeepSeek])
      case Ok(deepSeek) =>
        if Kept(openRouter) == [] && Kept(deepSeek) == [] then
          Run(Some(NoModelReplied), [askOpenRouter, askDeepSeek])
        else
          var tail := MergeStage(w, userInput, MergeContext(Kept(openRouter), Kept(deepSeek)));
          Run(tail.reply, [askOpenRouter, askDeepSeek] + tail.calls)
  }

  /** `process_message(user_input, mode)`. */
  function ProcessMessage(w: Services, userInput: string, mode: string): (r: Run)
    ensures r.reply.Some? <==> IsMode(mode)
    ensures !IsMode(mode) ==> r.calls == []
    ensures IsMode(mode) ==> 1 <= |r.calls| <= 6
    ensures mode == "gemini" ==> r == GeminiMode(w, userInput)
    ensures mode == "openrouter" ==> r == SingleBackendMode(w, OpenRouter, userInput)
    ensures mode == "deepseek" ==> r == SingleBackendMode(w, DeepSeek, userInput)
    ensures mode == "refined" ==> r == RefinedMode(w, userInput)
  {
    if mode == "gemini" then GeminiMode(w, userInput)
    else if mode == "openrouter" then SingleBackendMode(w, OpenRouter, userInput)
    else if mode == "deepseek" then SingleBackendMode(w, DeepSeek, userInput)
    else if mode == "refined" then RefinedMode(w, userInput)
    else Run(None, [])
  }

  // ---------------------------------------------------------------------
  // "openrouter" and "deepseek"
  // ---------------------------------------------------------------------

  /** A single-backend run is a chain: each call works on what the previous
      one returned, the run stops at the first exception, the calls come in
      the order ask, humanize, verify, humanize, and the reply is what the
      last call returned or the outer handler's message for what it raised. */
  lemma {:induction false} SingleBackendIsAChain(w: Services, b: Backend, userInput: string)
    ensures var r := SingleBackendMode(w, b, userInput);
      Chained(w, r.calls) && r.reply == Some(Escaped(Answered(w, Last(r.calls))))
    ensures var r := SingleBackendMode(w, b, userInput);
      |r.calls| == 4 || Answered(w, Last(r.calls)).Raised?
      || (|r.calls| == 1 && LooksFailed(w.ask(b, userInput).text))
    ensures var r := SingleBackendMode(w, b, userInput);
      (|r.calls| > 1 ==> r.calls[1] == Humanize(First, Input(r.calls[1])))
      && (|r.calls| > 2 ==> r.calls[2] == Verify(b, Input(r.calls[2]), userInput))
      && (|r.calls| > 3 ==> r.calls[3] == Humanize(Final, Input(r.calls[3])))
  {
    match w.ask(b, userInput)
    case Raised(_) =>
    case Ok(response) =>
      if !LooksFailed(response) {
        match w.humanize(First, response)
        case Raised(_) =>
        case Ok(humanized) =>
          match CheckAndRewrite(humanized, w.verify(b, humanized, userInput))
          case Raised(_) =>
          case Ok(conversational) =>
      }
  }

  /** A response that carries the error mark or is blank is the reply as it
      is, and then, and only then, no other service is called. */
  lemma {:induction false} SingleBackendShortCircuit(w: Services, b: Backend, userInput: string, response: string)
    requires w.ask(b, userInput) == Ok(response)
    ensures LooksFailed(response) <==> SingleBackendMode(w, b, userInput).calls == [Ask(b, userInput)]
    ensures LooksFailed(response) ==> SingleBackendMode(w, b, userInput).reply == Some(response)
  {
  }

  /** When nothing raises, the reply is humanize(verify(humanize(response))). */
  lemma {:induction false} SingleBackendComposition(w: Services, b: Backend, userInput: string,
      response: string, humanized: string, conversational: string, reply: string)
    requires w.ask(b, userInput) == Ok(response) && !LooksFailed(response)
    requires w.humanize(First, response) == Ok(humanized)
    requires CheckAndRewrite(humanized, w.verify(b, humanized, userInput)) == Ok(conversational)
    requires w.humanize(Final, conversational) == Ok(reply)
    ensures SingleBackendMode(w, b, userInput) == Run(Some(reply),
      [Ask(b, userInput), Humanize(First, response), Verify(b, humanized, userInput), Humanize(Final, conversational)])
  {
  }

  /** When the verifier's request fails or brings back no choice, the final
      humanize works on the first humanize's text unchanged. */
  lemma {:induction false} VerifierFallback(w: Services, b: Backend, userInput: string, response: string, humanized: string)
    requires w.ask(b, userInput) == Ok(response) && !LooksFailed(response)
    requires w.humanize(First, response) == Ok(humanized)
    requires w.verify(b, humanized, userInput).RequestFailed? || w.verify(b, humanized, userInput).NoChoices?
    ensures var r := SingleBackendMode(w, b, userInput);
      |r.calls| == 4 && r.calls[3] == Humanize(Final, humanized)
  {
  }

  // ---------------------------------------------------------------------
  // "gemini"
  // ---------------------------------------------------------------------

  /** The two failures that end a "gemini" run early: the first generation
      raises or comes back blank, or the first humanize raises. */
  lemma {:induction false} GeminiEarlyExits(w: Services, userInput: string)
    ensures var o := w.generate(Answer(userInput));
      o.Raised? ==> GeminiMode(w, userInput) == Run(Some(GeminiRequestFailed), [Generate(Answer(userInput))])
    ensures var o := w.generate(Answer(userInput));
      o.Ok? && Strip(o.text) == [] ==> GeminiMode(w, userInput) == Run(Some(GeminiSilent), [Generate(Answer(userInput))])
    ensures var o := w.generate(Answer(userInput));
      o.Ok? && Strip(o.text) != [] && w.humanize(First, Strip(o.text)).Raised? ==>
        GeminiMode(w, userInput) == Run(Some(RewriteFailed), [Generate(Answer(userInput)), Humanize(First, Strip(o.text))])
  {
  }

  /** Once the first humanize has succeeded a "gemini" run always makes all
      four calls: a raising review is replaced by the humanized text and a
      raising final humanize by the text it was given. */
  lemma {:induction false} GeminiFallbacks(w: Services, userInput: string, response: string, humanized: string)
    requires w.generate(Answer(userInput)).Ok? && Strip(w.generate(Answer(userInput)).text) == response
    requires response != [] && w.humanize(First, response) == Ok(humanized)
    ensures var r := GeminiMode(w, userInput);
      |r.calls| == 4 && r.calls[1] == Humanize(First, response) && r.calls[2] == Generate(Review(userInput, humanized))
      && r.calls[3] == Humanize(Final, Input(r.calls[3]))
    ensures var r := GeminiMode(w, userInput); var review := w.generate(Review(userInput, humanized));
      Input(r.calls[3]) == if review.Raised? then humanized else Strip(review.text)
    ensures var r := GeminiMode(w, userInput);
      r.reply == Some(if Answered(w, r.calls[3]).Raised? then Input(r.calls[3]) else Answered(w, r.calls[3]).text)
  {
  }

  // ---------------------------------------------------------------------
  // "refined"
  // ---------------------------------------------------------------------

  /** OpenRouter is asked first and DeepSeek only after it answered; an
      exception from either reaches the outer handler. */
  lemma {:induction false} RefinedAsksInTurn(w: Services, userInput: string)
    ensures var r := RefinedMode(w, userInput); var o := w.ask(OpenRouter, userInput);
      o.Raised? ==> r == Run(Some(ErrorReply(o.error)), [Ask(OpenRouter, userInput)])
    ensures var r := RefinedMode(w, userInput); var d := w.ask(DeepSeek, userInput);
      w.ask(OpenRouter, userInput).Ok? ==>
        (|r.calls| >= 2 && r.calls[1] == Ask(DeepSeek, userInput)
         && (d.Raised? ==> r == Run(Some(ErrorReply(d.error)), [Ask(OpenRouter, userInput), Ask(DeepSeek, userInput)])))
  {
  }

  /** The merge prompt is sent exactly when at least one backend's response
      is kept; when neither is, the fixed message is the reply. */
  lemma {:induction false} RefinedNeedsOneReply(w: Services, userInput: string, openRouter: string, deepSeek: string)
    requires w.ask(OpenRouter, userInput) == Ok(openRouter) && w.ask(DeepSeek, userInput) == Ok(deepSeek)
    ensures var r := RefinedMode(w, userInput);
      |r.calls| > 2 <==> Kept(openRouter) != [] || Kept(deepSeek) != []
    ensures var r := RefinedMode(w, userInput);
      |r.calls| == 2 ==> r.reply == Some(NoModelReplied)
    ensures var r := RefinedMode(w, userInput);
      |r.calls| > 2 ==> r.calls[2] == Generate(Merge(userInput, MergeContext(Kept(openRouter), Kept(deepSeek))))
  {
  }

  /** The merge stage stops at its first exception and then answers with the
      one fixed message; otherwise its reply is the fixed message for a blank
      merge or what the final humanize returned. */
  lemma {:induction false} MergeStageFailsClosed(w: Services, userInput: string, context: string)
    ensures var r := MergeStage(w, userInput, context);
      StopsAtFirstRaise(w, r.calls)
      && (Answered(w, Last(r.calls)).Raised? ==> r.reply == Some(MergeFailed))
      && (Answered(w, Last(r.calls)).Ok? ==>
            (|r.calls| == 1 && r.reply == Some(MergeSilent))
            || (|r.calls| == 4 && Last(r.calls) == Humanize(Final, Input(Last(r.calls)))
                && r.reply == Some(Answered(w, Last(r.calls)).text)))
  {
    match w.generate(Merge(userInput, context))
    case Raised(_) =>
    case Ok(raw) =>
      if Strip(raw) != [] {
        match w.humanize(First, Strip(raw))
        case Raised(_) =>
        case Ok(humanized) =>
          match w.generate(Review(userInput, humanized))
          case Raised(_) =>
          case Ok(text) =>
      }
  }

  /** In "refined" mode, once the merge prompt is sent, every later failure
      gives the same fixed message and no exception reaches the outer
      handler. */
  lemma {:induction false} RefinedFailsClosed(w: Services, userInput: string)
    requires |RefinedMode(w, userInput).calls| > 2
    ensures var r := RefinedMode(w, userInput);
      StopsAtFirstRaise(w, r.calls)
      && (Answered(w, Last(r.calls)).Raised? ==> r.reply == Some(MergeFailed))
      && (Answered(w, Last(r.calls)).Ok? ==>
            (|r.calls| == 3 && r.reply == Some(MergeSilent))
            || (|r.calls| == 6 && Last(r.calls) == Humanize(Final, Input(Last(r.calls)))
                && r.reply == Some(Answered(w, Last(r.calls)).text)))
  {
    var r := RefinedMode(w, userInput);
    var openRouter := w.ask(OpenRouter, userInput).text;
    var deepSeek := w.ask(DeepSeek, userInput).text;
    var head := [Ask(OpenRouter, userInput), Ask(DeepSeek, userInput)];
    var tail := MergeStage(w, userInput, MergeContext(Kept(openRouter), Kept(deepSeek)));
    assert r == Run(tail.reply, head + tail.calls);
    assert |r.calls| == |tail.calls| + 2;
    MergeStageFailsClosed(w, userInput, MergeContext(Kept(openRouter), Kept(deepSeek)));
    assert Last(r.calls) == Last(tail.calls);
    forall i | 0 <= i < |r.calls| - 1
      ensures Answered(w, r.calls[i]).Ok?
    {
      if i >= 2 {
        assert r.calls[i] == tail.calls[i - 2];
      }
    }
  }

  /** After a non-blank merge whose humanize succeeded, the review prompt is
      sent with the humanized text, the final humanize gets the stripped
      review, and its result is the reply. */
  lemma {:induction false} MergeStageSteps(w: Services, userInput: string, context: string, raw: string, humanized: string)
    requires w.generate(Merge(userInput, context)) == Ok(raw) && Strip(raw) != []
    requires w.humanize(First, Strip(raw)) == Ok(humanized)
    ensures var r := MergeStage(w, userInput, context);
      |r.calls| >= 3 && r.calls[1] == Humanize(First, Strip(raw))
      && r.calls[2] == Generate(Review(userInput, humanized))
    ensures var r := MergeStage(w, userInput, context); var review := w.generate(Review(userInput, humanized));
      review.Ok? ==> |r.calls| == 4 && r.calls[3] == Humanize(Final, Strip(review.text))
    ensures var r := MergeStage(w, userInput, context); var review := w.generate(Review(userInput, humanized));
      review.Ok? && w.humanize(Final, Strip(review.text)).Ok? ==>
        r.reply == Some(w.humanize(Final, Strip(review.text)).text)
  {
  }

  /** A merge answer that is blank after stripping ends the merge part at
      once with the fixed no-answer message; a non-blank one never does. */
  lemma {:induction false} MergeStageBlank(w: Services, userInput: string, context: string, raw: string)
    requires w.generate(Merge(userInput, context)) == Ok(raw)
    ensures Strip(raw) == [] <==>
      MergeStage(w, userInput, context) == Run(Some(MergeSilent), [Generate(Merge(userInput, context))])
  {
  }

  /** With at least one response kept, a "refined" run is the two asks
      followed by the merge stage on the context of the kept responses, and
      its reply is the merge stage's. */
  lemma {:induction false} RefinedMerges(w: Services, userInput: string, openRouter: string, deepSeek: string)
    requires w.ask(OpenRouter, userInput) == Ok(openRouter) && w.ask(DeepSeek, userInput) == Ok(deepSeek)
    requires Kept(openRouter) != [] || Kept(deepSeek) != []
    ensures var tail := MergeStage(w, userInput, MergeContext(Kept(openRouter), Kept(deepSeek)));
      RefinedMode(w, userInput) == Run(tail.reply, [Ask(OpenRouter, userInput), Ask(DeepSeek, userInput)] + tail.calls)
  {
  }
}
