# Telegram AI bot: reply chunker and reply pipeline, in Dafny

This project models the deterministic core of a Persian-language Telegram bot
(`main.py`). The bot answers a user's message through one of four
strategies, built from Gemini, two OpenRouter-hosted chat backends and a
"humanizer". It then cuts the reply into Telegram-sized messages. Three parts
of `main.py` are modelled.

- **The reply chunker** `split_text_for_telegram` (`chunker.dfy`, module
  `Chunker`, on top of the string primitives in `text.dfy`, module `Text`).
  - The regex split `re.split(r'(?<=[.!؟])\s+', text.strip())` is the
    function `Sentences`. It is a hand-written splitter over Python's
    `str.isspace` character set, which is also what `\s` matches in a `str`
    pattern.
  - The loop is specified by `Chunk`, a fold of one loop iteration `Step`
    over the sentences, followed by the last emit and the `[text]` fallback.
  - `SplitForTelegram` is the imperative method, with the source's `parts`
    appends, `current_part` reassignments and `for` loop. It is proved equal
    to `Chunk`.
  - The inner `while` loop that cuts an over-long sentence is the method
    `CutLongSentence`. It is proved equal to the recursive `HardSplit`.
  - The lemmas about `Chunk` give the guarantees:
    - the result is never empty;
    - blank input gives `[text]`;
    - no visible character is lost, reordered or invented;
    - every part is stripped, and sentences are joined with one space as
      long as the message fits, so a text whose joined sentences fit is sent
      as one message;
    - whitespace changes only where a sentence ends, where a run becomes one
      space or a message break, and at the cuts of an over-long sentence;
    - for non-blank input, every part is non-empty and at most `max_length`
      long, unless it is one whole over-long sentence;
    - two concrete cases.
- **The reply pipeline** `process_message` (`pipeline.dfy`, module
  `Pipeline`).
  - Every outside call is a field of `Services`. Each field gives the
    call's `Outcome` for its arguments: a string, or an exception with its
    `str`. The fields are:
    - Gemini's `generate_content(...).text`;
    - `ask_openrouter` / `ask_deepseek`;
    - `rewrite_ai_response`;
    - the provider's reply inside `check_and_rewrite_*`.
  - A `Run` is the returned value (`None` for an unknown mode) together with
    the log of calls made, in order. This makes "no further call is made"
    statable.
  - The lemmas state, for each strategy:
    - the order of the calls;
    - which failures end the run with a fixed message;
    - which ones fall back to an earlier text;
    - which ones escape to the outer `except` that answers `"خطا: " + str(e)`.
- **The mode picker** in `handle_mode` (`modes.dfy`, module `Modes`). The
  `mode_map` lookup defaults to `"gemini"`, and every mode it can select is
  one that `process_message` serves.

Python's `len`, slicing and `str` indexing count code points. Dafny's
`string` is a sequence of code points too, so lengths agree. `str.rfind`
searches for the ASCII space only, and the model does the same.

## Model

| member | source | states |
|---|---|---|
| Text.Strip | main.py:519 | `str.strip()`: the result is no longer than the input, is empty or starts and ends with a non-whitespace character, and leaves an already-stripped string unchanged |
| Text.TrimStartIsSuffix | main.py:519 | the left strip removes only a leading run of whitespace: its result is a suffix of the input |
| Text.TrimEndIsPrefix | main.py:519 | the right strip removes only a trailing run of whitespace: its result is a prefix of the input |
| Text.StripIsInner | main.py:519 | `str.strip()` returns a contiguous slice of its input, and everything cut off on either side is whitespace |
| Text.RFindSpace | main.py:528 | `rfind(" ", 0, end)`: -1 or an index below `end` holding a space, with no space after it below `end` |
| Chunker.Sentences | main.py:519 | the regex split always yields at least one piece |
| Chunker.SentencesWeave | main.py:519 | interleaving the pieces with the separators the split removed gives back the text exactly, so every piece is the substring between two separators |
| Chunker.GapsAreWholeRuns | main.py:519 | every removed separator is a non-empty whitespace run, taken whole: the next piece does not start with whitespace |
| Chunker.FirstSentenceIsPrefix | main.py:519 | the first piece is a prefix of the text |
| Chunker.SentencesKeepVisible | main.py:519 | the split drops only whitespace: the visible characters of the joined pieces are those of the text, in order |
| Chunker.SentencesAreMaximal | main.py:519 | the split happens at every match: no piece contains a terminator followed by whitespace, and every piece but the last ends in `.`, `!` or `؟` |
| Chunker.SentencesOfStripped | main.py:519 | splitting a stripped non-blank text gives non-empty pieces without leading or trailing whitespace |
| Chunker.SentencesOfUnbroken | main.py:519 | a text with no terminator-then-whitespace is one piece |
| Chunker.CutIndex | main.py:528-530 | the cut is at `max_length`, or at the last ASCII space before `max_length - 1`; it is at `max_length` only when no ASCII space lies before `max_length - 1` |
| Chunker.HardSplit | main.py:527-533 | every piece cut off is at most `max_length` long, what is left is at most `max_length` long, an over-long sentence gives at least one piece, and for a sentence not starting with whitespace every piece is non-empty |
| Chunker.CutKeepsVisible | main.py:531-532 | stripping both halves of a cut loses no visible character |
| Chunker.HardSplitKeepsVisible | main.py:527-533 | the pieces followed by the remainder hold exactly the visible characters of the sentence |
| Chunker.CutLongSentence | main.py:527-533 | the `while` loop appends exactly `HardSplit`'s pieces and leaves exactly its remainder |
| Chunker.SentencesOf | main.py:519 | the list of sentences the loop runs over is never empty, even for an empty text |
| Chunker.SentencesOfKeepVisible | main.py:519 | the sentence list holds exactly the text's visible characters, in order |
| Chunker.Step | main.py:522-535 | one iteration never removes an emitted part, and leaves the current part at most `max_length` long or equal to the sentence |
| Chunker.Fold | main.py:521-535 | the whole loop never removes an emitted part |
| Chunker.StepAppends | main.py:522-535 | one iteration only appends to `parts`, and leaves a current part at most `max_length` long or equal to the sentence |
| Chunker.FoldAppends | main.py:521-535 | the loop only appends to `parts`: the parts emitted earlier are never changed |
| Chunker.Chunk | main.py:515-540 | the function never returns an empty list |
| Chunker.SplitForTelegram | main.py:515-540 | the method returns exactly `Chunk(text, max_length)` |
| Chunker.EmitKeepsVisible | main.py:537-538 | emitting the stripped current part adds exactly its visible characters |
| Chunker.JoinKeepsVisible | main.py:535 | joining with a space adds exactly the sentence's visible characters |
| Chunker.StepKeepsVisible | main.py:521-535 | one iteration adds exactly the sentence's visible characters to the emitted parts plus the current part |
| Chunker.FoldKeepsVisible | main.py:521-535 | the whole loop adds exactly the visible characters of all sentences, in order |
| Chunker.ChunkKeepsVisible | main.py:515-540 | removing all whitespace from the joined parts gives the input with all whitespace removed |
| Chunker.CutWeaves | main.py:528-532 | stripping both halves of a cut of a stripped sentence removes only whitespace at the cut, and leaves a non-empty stripped tail |
| Chunker.HardSplitWeaves | main.py:527-533 | the pieces cut off a stripped sentence and what is left give back the sentence once the whitespace removed at each cut is put back |
| Chunker.FirstStepWeaves | main.py:521-535 | after the first sentence, the emitted parts and the current part are that sentence with only whitespace removed between them |
| Chunker.StepWeaves | main.py:521-535 | each later iteration keeps the parts plus the current part equal to the sentences so far joined by single spaces, up to whitespace between parts, with the current part stripped |
| Chunker.FoldWeaves | main.py:521-535 | the whole loop keeps that invariant |
| Chunker.ChunkWeaves | main.py:515-540 | for non-blank input, the parts with only whitespace put back between them are the sentences of the stripped text joined by single spaces, and every part is stripped |
| Chunker.StepBreaksOnlyWhenFull | main.py:522-535 | with a part being filled, an iteration emits it exactly when the part, a space and the sentence exceed `max_length`, and otherwise joins the sentence with one space |
| Chunker.FoldJoins | main.py:521-535 | while the joined sentences fit, the loop keeps joining them into the current part and emits nothing |
| Chunker.ChunkFitsWhole | main.py:515-540 | a non-blank text whose sentences joined with single spaces fit within `max_length` is sent as exactly one message, that join |
| Chunker.StepReachable | main.py:521-535 | one iteration keeps every emitted part, and the current part, at most `max_length` long or equal to one whole sentence, with no emitted part empty |
| Chunker.FoldReachable | main.py:521-535 | the whole loop keeps that invariant, and after a sentence something has been accumulated |
| Chunker.ChunkShape | main.py:519-540 | for non-blank input every part is non-empty, and at most `max_length` long unless it is one whole sentence of the stripped text |
| Chunker.ChunkBlank | main.py:519-540 | empty or whitespace-only input gives exactly `[text]` |
| Chunker.ChunkShortText | main.py:519-540 | a stripped text of at most `max_length` characters with no sentence break gives `[text]` |
| Chunker.XsIsOneSentence | main.py:519 | a run of `x` is already stripped and is one sentence |
| Chunker.HardSplitXs | main.py:527-532 | a run of `x` longer than the limit is cut at exactly `max_length` |
| Chunker.HardSplitNineThousand | main.py:527-533 | 9000 `x` with limit 4000 are cut into two 4000-character pieces, leaving 1000 |
| Chunker.StepNineThousand | main.py:521-533 | the first iteration on 9000 `x` emits two pieces and keeps 1000 characters |
| Chunker.ChunkNineThousand | main.py:515-540 | 9000 `x` with limit 4000 give parts of 4000, 4000 and 1000 characters |
| Chunker.SentencesOfExample | main.py:519 | `"ab. cdefg"` splits into `"ab."` and `"cdefg"` |
| Chunker.StepsOfExample | main.py:521-535 | with limit 3 the first sentence is kept, and the over-long second one flushes it and is kept whole |
| Chunker.ChunkKeepsLongSentenceWhole | main.py:522-538 | with limit 3, `"ab. cdefg"` gives `"ab."` and the unsplit 5-character `"cdefg"`: an over-long sentence that arrives while a part is being filled is not cut |
| Pipeline.ErrorReply | main.py:387-389 | the outer handler's reply is exactly the 5-character prefix `"خطا: "` followed by the exception text |
| Pipeline.LooksFailed | main.py:293 | the `"❌" in r or not r.strip()` test holds exactly when the answer contains `❌` or has no visible character |
| Pipeline.Kept | main.py:328-331 | a "refined" response is dropped exactly when it is empty or contains `❌`, and is otherwise kept unchanged |
| Pipeline.MergeContext | main.py:336-340 | the merge context is empty exactly when both responses are absent; a present OpenRouter answer opens it under its label followed by a blank line, and a present DeepSeek answer closes it under its label; an absent answer adds nothing, so the length is the sum of the present parts |
| Pipeline.CheckAndRewrite | main.py:128-137 | the verifier returns the draft unchanged when the request fails or no choice comes back, returns exactly the stripped content of the first choice otherwise, and raises only on a malformed choice, with that choice's error text |
| Pipeline.GeminiMode | main.py:232-289 | a "gemini" run always replies and makes one to four calls, starting with the answer prompt |
| Pipeline.SingleBackendMode | main.py:291-319 | an "openrouter" or "deepseek" run always replies and makes one to four calls, starting with the backend |
| Pipeline.MergeStage | main.py:357-385 | the merge part always replies and makes one to four calls, starting with the merge prompt |
| Pipeline.RefinedMode | main.py:321-385 | a "refined" run always replies and makes one to six calls, starting with OpenRouter |
| Pipeline.ProcessMessage | main.py:228-389 | a reply comes back exactly for the four known modes, each mode is served by its own strategy, and an unknown mode returns `None` and calls nothing |
| Pipeline.SingleBackendIsAChain | main.py:291-319 | each call works on the previous call's result, the run stops at the first exception, the calls come as ask, humanize, verify, humanize, and the reply is the last result or the outer handler's message for its exception; the run is cut short only by an exception or by a failed-looking first answer |
| Pipeline.SingleBackendShortCircuit | main.py:292-294 | a response containing `❌` or blank after stripping is returned as it is, and this happens exactly when no humanize or verify call is made |
| Pipeline.SingleBackendComposition | main.py:306-319 | when nothing raises, the reply is humanize(verify(humanize(response))) |
| Pipeline.VerifierFallback | main.py:216-225 | when the verifier's request fails or has no choice, the final humanize works on the first humanize's text |
| Pipeline.GeminiEarlyExits | main.py:243-259 | a raising first generation gives the request-failed message, a blank one the no-answer message, and a raising first humanize the rewrite-failed message, with no further call |
| Pipeline.GeminiFallbacks | main.py:274-289 | after the first humanize all four calls are made; a raising review is replaced by the humanized text, and a raising final humanize by its input |
| Pipeline.RefinedAsksInTurn | main.py:321-323 | OpenRouter is asked first and DeepSeek only after it; an exception from either reaches the outer handler and stops the run |
| Pipeline.RefinedNeedsOneReply | main.py:328-357 | the merge prompt is sent exactly when a response is kept, and it carries the context of the kept responses; with none kept, the fixed no-reply message is returned |
| Pipeline.MergeStageFailsClosed | main.py:357-385 | the merge part stops at its first exception and then answers the fixed failure message; otherwise it answers the blank-merge message after one call, or the result of the final humanize, which is the fourth call |
| Pipeline.MergeStageBlank | main.py:358-360 | the merge part answers the fixed no-answer message after the merge call alone exactly when the merge answer is blank after stripping |
| Pipeline.MergeStageSteps | main.py:357-385 | after a non-blank merge and a successful first humanize, the review prompt carries the humanized text, the final humanize gets the stripped review, and its result is the reply |
| Pipeline.RefinedMerges | main.py:321-385 | with a kept response, a "refined" run is the two asks followed by the merge part on the kept responses' context, with the merge part's reply |
| Pipeline.RefinedFailsClosed | main.py:321-385 | once the merge prompt is sent, no exception reaches the outer handler: every failure gives the fixed merge-failed message, and a success ends with the final humanize as the sixth call |
| Modes.ModeFor | main.py:503-509 | the selected mode is always one of the four; a mode other than `"gemini"` is selected only by its own `set_` button |
| Modes.ModeForButton | main.py:503-509 | each mode's `set_` button selects that mode |
| Modes.SelectedModeIsServed | main.py:503-509 | any selected mode gets a reply from `process_message` and calls at least one service |

## Left out

- `max_length` below 1 is excluded by a precondition: with 0 the cutting loop can run forever.
- The regex engine in general: only the pattern `(?<=[.!؟])\s+` used by the chunker is modelled.
- `rewrite_ai_response`: `rewrite_tools.py` is not part of this model. It is an uninterpreted function of its stage and text that may raise.
- The HTTP side of `ask_openrouter`, `ask_deepseek` and `check_and_rewrite_*` (headers, JSON bodies, status codes) is not modelled. Neither is the Gemini SDK. Only the outcome each call hands back to `process_message` is kept.
- The prompt wording is not modelled; a `Prompt` keeps only the texts it embeds.
- Outside services are modelled as functions of their arguments. Two calls with the same arguments in one run get the same outcome. The two humanize calls are told apart by their stage.
- A JSON `null` message content from OpenRouter (`ask_openrouter` then returns `None`) is not modelled: `ask` always yields a string or raises.
- `print` logging, `asyncio.to_thread` (the calls are modelled in the order they are awaited) and the `animate_loading` / `done_processing` progress animation with its `asyncio.sleep` and `random.choice`: concurrency, clocks and randomness.
- `load_user_mode` / `save_user_mode` (JSON file I/O), `context.chat_data`, the `"main_menu"` branch of `handle_mode`, and all Telegram handlers, keyboards, menus and message sending: glue with no logic of their own beyond the `mode_map` lookup.
- `process_image` and the photo handler: file upload to Gemini, outside the text pipeline.
- The 4096-character limit of Telegram itself: the chunker is modelled with whatever `max_length` it is given.
