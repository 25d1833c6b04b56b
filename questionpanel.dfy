/** One question of the multi-question view. A single cursor index runs over the
    options `[0, n)`, the "Other" row at `n` when it is offered, and the Continue button
    at `nextIndex`; the root that moves the cursor and computes `nextIndex` is not part
    of this model, so both arrive as parameters. */
module QuestionPanel {
  import opened Wrappers
  import opened Types
  import opened OptionList

  /** The cursor position of the "Other" row: right after the options, or -1 when the
      question offers no "Other". */
  function OtherIndex(config: QuestionConfig): (k: int)
    ensures config.allowOther ==> k == |config.options|
    ensures !config.allowOther ==> k == -1
  {
    if config.allowOther then |config.options| else -1
  }

  /** The "Other" row is highlighted when the cursor sits just past the options; without
      an "Other" row only the out-of-range index -1 would match, never a real row. */
  function OtherIsFocused(config: QuestionConfig, focusedIndex: Option<int>): (r: bool)
    ensures r <==> focusedIndex == Some(if config.allowOther then |config.options| else -1)
    ensures r && focusedIndex.value >= 0 ==> config.allowOther
  {
    focusedIndex.Some? && focusedIndex.value == OtherIndex(config)
  }

  /** The next button is highlighted exactly when the cursor is on its index; with no
      cursor nothing is highlighted. */
  function NextIsFocused(focusedIndex: Option<int>, nextIndex: int): (r: bool)
    ensures r <==> focusedIndex == Some(nextIndex)
    ensures focusedIndex.None? ==> !r
  {
    focusedIndex.Some? && focusedIndex.value == nextIndex
  }

  /** The cursor as the option list sees it: forwarded only while it is below the
      number of options. */
  function ListFocus(config: QuestionConfig, focusedIndex: Option<int>): (r: Option<int>)
    ensures r.Some? <==> focusedIndex.Some? && focusedIndex.value < |config.options|
    ensures r.Some? ==> r == focusedIndex
  {
    if focusedIndex.Some? && focusedIndex.value < |config.options| then focusedIndex else None
  }

  /** The caption of the next button. */
  function NextLabel(isLastQuestion: Option<bool>): (caption: string)
    ensures caption == "Review & Submit" <==> isLastQuestion == Some(true)
    ensures caption != "Review & Submit" ==> caption == "Continue"
  {
    if isLastQuestion == Some(true) then "Review & Submit" else "Continue"
  }

  /** The "Other" row: passed the selection's flag and text, and whether the cursor is on it. */
  datatype OtherRow = OtherRow(isSelected: bool, text: string, multiSelect: bool, focused: bool)

  datatype PanelView = PanelView(
    rows: seq<OptionRow>,
    other: Option<OtherRow>,
    nextFocused: bool,
    nextLabel: string)

  function Render(config: QuestionConfig, selection: SelectionState, focusedIndex: Option<int>,
                  nextIndex: int, isLastQuestion: Option<bool>): (v: PanelView)
    ensures v.rows == Rows(config.options, selection.selected, ListFocus(config, focusedIndex))
    ensures v.other.Some? <==> config.allowOther
    ensures v.other.Some? ==> v.other.value == OtherRow(selection.isOtherSelected, selection.otherText,
                                                        config.multiSelect, OtherIsFocused(config, focusedIndex))
    ensures v.nextFocused == NextIsFocused(focusedIndex, nextIndex)
    ensures v.nextLabel == NextLabel(isLastQuestion)
  {
    PanelView(
      Rows(config.options, selection.selected, ListFocus(config, focusedIndex)),
      if config.allowOther
        then Some(OtherRow(selection.isOtherSelected, selection.otherText, config.multiSelect,
                           OtherIsFocused(config, focusedIndex)))
        else None,
      NextIsFocused(focusedIndex, nextIndex),
      NextLabel(isLastQuestion))
  }

  /** A click on the panel, and the callback it reaches. */
  datatype Click = OptionClicked(index: nat) | OtherClicked | NextClicked
  datatype Callback = OnSelect(value: string) | OnOtherToggle | OnNext

  /** The callback a click reaches; `None` for a row that is not rendered. */
  function Dispatch(config: QuestionConfig, click: Click): (r: Option<Callback>)
    ensures click.NextClicked? ==> r == Some(OnNext)
    ensures click.OtherClicked? ==> (r.Some? <==> config.allowOther) && (r.Some? ==> r.value == OnOtherToggle)
    ensures click.OptionClicked? ==> (r.Some? <==> click.index < |config.options|)
    ensures click.OptionClicked? && r.Some? ==> r.value == OnSelect(config.options[click.index].value)
  {
    match click
    case OptionClicked(i) => if i < |config.options| then Some(OnSelect(config.options[i].value)) else None
    case OtherClicked => if config.allowOther then Some(OnOtherToggle) else None
    case NextClicked => Some(OnNext)
  }

  /** The cursor lands on at most one target. With the next button placed after the
      option and "Other" positions, an index in `[0, n)` marks exactly its option row,
      `n` marks the "Other" row when offered, `nextIndex` marks the next button, and no
      two of these are marked at once. */
  lemma CursorMarksOneTarget(config: QuestionConfig, selection: SelectionState, f: int,
                             nextIndex: int, isLastQuestion: Option<bool>)
    requires nextIndex >= |config.options| + (if config.allowOther then 1 else 0)
    ensures var v := Render(config, selection, Some(f), nextIndex, isLastQuestion);
      var rowFocused := exists i :: 0 <= i < |v.rows| && v.rows[i].focused;
      var otherFocused := v.other.Some? && v.other.value.focused;
      && (rowFocused <==> 0 <= f < |config.options|)
      && (rowFocused ==> v.rows[f].focused)
      && (otherFocused <==> config.allowOther && f == |config.options|)
      && (v.nextFocused <==> f == nextIndex)
      && !(rowFocused && otherFocused) && !(rowFocused && v.nextFocused) && !(otherFocused && v.nextFocused)
  {
  }

  /** Without a cursor nothing on the panel is marked. */
  lemma NoCursorNoMarks(config: QuestionConfig, selection: SelectionState, nextIndex: int,
                        isLastQuestion: Option<bool>)
    ensures var v := Render(config, selection, None, nextIndex, isLastQuestion);
      (forall i :: 0 <= i < |v.rows| ==> !v.rows[i].focused)
      && !(v.other.Some? && v.other.value.focused) && !v.nextFocused
  {
  }
}
