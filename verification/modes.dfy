/** The model picker of `handle_mode`: the callback data of the pressed
    button chooses the mode that later messages are answered in. */
module Modes {
  import opened Pipeline

  /** `mode_map.get(data, "gemini")`: the four `set_…` buttons select their
      mode and any other data selects "gemini". */
  function ModeFor(data: string): (mode: string)
    ensures IsMode(mode)
    ensures mode != "gemini" ==> data == "set_" + mode
  {
    if data == "set_gemini" then "gemini"
    else if data == "set_openrouter" then "openrouter"
    else if data == "set_deepseek" then "deepseek"
    else if data == "set_refined" then "refined"
    else "gemini"
  }

  /** Each mode has its button: the lookup inverts "set_" + mode. */
  lemma {:induction false} ModeForButton(mode: string)
    requires IsMode(mode)
    ensures ModeFor("set_" + mode) == mode
  {
  }

  /** Whatever button was pressed, the mode it selects is one that
      `process_message` answers in: the reply is never `None`. */
  lemma {:induction false} SelectedModeIsServed(w: Services, userInput: string, data: string)
    ensures ProcessMessage(w, userInput, ModeFor(data)).reply.Some?
    ensures 1 <= |ProcessMessage(w, userInput, ModeFor(data)).calls|
  {
  }
}
