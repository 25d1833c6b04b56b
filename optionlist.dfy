/** The list of answer options: one row per option, in the given order, each knowing
    whether it is selected and whether the keyboard cursor is on it. */
module OptionList {
  import opened Wrappers
  import opened Types

  /** One rendered option. */
  datatype OptionRow = OptionRow(option: QuestionOption, isSelected: bool, focused: bool)

  /** The rows for `options`; `focusedIndex` is the cursor position, `None` when the
      cursor is not on an option. */
  function Rows(options: seq<QuestionOption>, selected: seq<string>, focusedIndex: Option<int>): (rows: seq<OptionRow>)
    ensures |rows| == |options|
    ensures forall i :: 0 <= i < |rows| ==> rows[i].option == options[i]
    ensures forall i :: 0 <= i < |rows| ==> (rows[i].isSelected <==> options[i].value in selected)
    ensures forall i :: 0 <= i < |rows| ==> (rows[i].focused <==> focusedIndex == Some(i))
  {
    seq(|options|, i requires 0 <= i < |options| =>
      OptionRow(options[i], options[i].value in selected, focusedIndex == Some(i)))
  }

  /** At most one row carries the cursor, and none when there is no cursor index. */
  lemma AtMostOneFocused(options: seq<QuestionOption>, selected: seq<string>, focusedIndex: Option<int>)
    ensures var rows := Rows(options, selected, focusedIndex);
      forall i, j :: 0 <= i < |rows| && 0 <= j < |rows| && rows[i].focused && rows[j].focused ==> i == j
    ensures focusedIndex.None? ==> forall i :: 0 <= i < |options| ==> !Rows(options, selected, focusedIndex)[i].focused
  {
  }

  /** With distinct option values, a selection of at most one value (the single-select
      case) marks at most one row: the list behaves like radio buttons. */
  lemma SingleSelectionMarksOneRow(options: seq<QuestionOption>, selected: seq<string>, focusedIndex: Option<int>)
    requires DistinctValues(options) && |selected| <= 1
    ensures var rows := Rows(options, selected, focusedIndex);
      forall i, j :: 0 <= i < |rows| && 0 <= j < |rows| && rows[i].isSelected && rows[j].isSelected ==> i == j
  {
  }

  /** The selected rows are exactly the options whose values are in the selection. */
  lemma SelectedRowsMatchSelection(options: seq<QuestionOption>, selected: seq<string>, focusedIndex: Option<int>, v: string)
    ensures var rows := Rows(options, selected, focusedIndex);
      (exists i :: 0 <= i < |rows| && rows[i].isSelected && rows[i].option.value == v)
      <==> v in selected && exists i :: 0 <= i < |options| && options[i].value == v
  {
  }
}
