/** The single-question view root: the question configuration, the answer state and the
    submitted flag it keeps, the handlers that change them, and the choice of screen.
    The host connection is outside the model: whether an app object exists, whether it
    is connected, whether it reported an error and whether a send succeeded arrive as
    parameters. */
module App {
  import opened Wrappers
  import opened Types
  import opened Text
  import Selection
  import opened Response

  /** The arguments of a tool-input notification; the two flags may be missing. */
  datatype ToolArgs = ToolArgs(
    question: string,
    header: Option<string>,
    options: seq<QuestionOption>,
    multiSelect: Option<bool>,
    allowOther: Option<bool>)

  /** The configuration stored for a tool input: a missing `multiSelect` means single
      select, a missing `allowOther` means "Other" is offered. */
  function ConfigFromArgs(args: ToolArgs): (c: QuestionConfig)
    ensures c.question == args.question && c.header == args.header && c.options == args.options
    ensures c.multiSelect <==> args.multiSelect == Some(true)
    ensures c.allowOther <==> args.allowOther != Some(false)
  {
    QuestionConfig(args.question, args.header, args.options,
                   args.multiSelect.GetOr(false), args.allowOther.GetOr(true))
  }

  /** The message body sent to the host for a response. */
  function SubmitText(response: string): (t: string)
    ensures |t| == 15 + |response| && t[..15] == "User selected: " && t[15..] == response
  {
    "User selected: " + response
  }

  /** The screen the root renders. */
  datatype Screen =
    | ErrorScreen
    | LoadingScreen
    | SubmittedScreen(summary: string)
    | EditingScreen(config: QuestionConfig, showOther: bool, submitEnabled: bool)

  /** Which screen shows: an error wins over everything, then loading while not
      connected or without a question, then the submitted summary, else the editor. */
  function ScreenFor(hasError: bool, isConnected: bool, config: Option<QuestionConfig>,
                     selection: SelectionState, submitted: bool): (v: Screen)
    ensures v.ErrorScreen? <==> hasError
    ensures v.LoadingScreen? <==> !hasError && (!isConnected || config.None?)
    ensures v.SubmittedScreen? <==> !hasError && isConnected && config.Some? && submitted
    ensures v.SubmittedScreen? ==> v.summary == ResponseText(config.value.options, selection)
    ensures v.EditingScreen? ==> v.config == config.value && v.showOther == config.value.allowOther
    ensures v.EditingScreen? ==> (v.submitEnabled <==> CanSubmit(selection))
  {
    if hasError then ErrorScreen
    else if !isConnected || config.None? then LoadingScreen
    else if submitted then SubmittedScreen(ResponseText(config.value.options, selection))
    else EditingScreen(config.value, config.value.allowOther, CanSubmit(selection))
  }

  class AskUserApp {
    var config: Option<QuestionConfig>
    var selection: SelectionState
    var submitted: bool

    /** Mounting: no question yet, nothing chosen, not submitted. */
    constructor ()
      ensures config == None && selection == Selection.Initial && !submitted
    {
      config := None;
      selection := Selection.Initial;
      submitted := false;
    }

    /** `config?.multiSelect`: false while no question is loaded. */
    function MultiSelect(): bool
      reads this
    {
      config.Some? && config.value.multiSelect
    }

    /** `config?.options`: no options while no question is loaded. */
    function Options(): seq<QuestionOption>
      reads this
    {
      if config.Some? then config.value.options else []
    }

    /** A tool-input notification replaces the question; the answer state and the
        submitted flag are kept as they are. */
    method OnToolInput(args: ToolArgs)
      modifies this
      ensures config == Some(ConfigFromArgs(args))
      ensures selection == old(selection) && submitted == old(submitted)
    {
      config := Some(ConfigFromArgs(args));
    }

    method HandleSelect(value: string)
      modifies this
      ensures selection == Selection.Select(old(selection), old(MultiSelect()), value)
      ensures config == old(config) && submitted == old(submitted)
    {
      selection := Selection.Select(selection, MultiSelect(), value);
    }

    method HandleOtherToggle()
      modifies this
      ensures selection == Selection.ToggleOther(old(selection), old(MultiSelect()))
      ensures config == old(config) && submitted == old(submitted)
    {
      selection := Selection.ToggleOther(selection, MultiSelect());
    }

    method HandleOtherChange(text: string)
      modifies this
      ensures selection == Selection.ChangeOtherText(old(selection), text)
      ensures config == old(config) && submitted == old(submitted)
    {
      selection := Selection.ChangeOtherText(selection, text);
    }

    /** `handleSubmit`: without an app or a question it does nothing; otherwise it sends
        the response and marks the view submitted only when the send succeeds. The
        message sent is returned, `None` when nothing was sent. */
    method HandleSubmit(hasApp: bool, sendSucceeds: bool) returns (sent: Option<string>)
      modifies this
      ensures sent == if hasApp && config.Some? then Some(SubmitText(ResponseText(Options(), selection))) else None
      ensures submitted == (old(submitted) || (sent.Some? && sendSucceeds))
      ensures config == old(config) && selection == old(selection)
      ensures sent.Some? && sendSucceeds ==>
        ScreenFor(false, true, config, selection, submitted) == SubmittedScreen(ResponseText(Options(), selection))
    {
      if !hasApp || config.None? {
        return None;
      }
      var response := BuildResponse(config.value.options, selection);
      sent := Some(SubmitText(response));
      if sendSucceeds {
        submitted := true;
      }
    }
  }
}
