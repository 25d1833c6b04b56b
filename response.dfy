/** The answer text sent to the host and the rule that enables the submit button. */
module Response {
  import opened Wrappers
  import opened Types
  import opened Text
  import Selection

  /** The index of the first option carrying `value`, or -1 when none does. */
  function IndexOfValue(options: seq<QuestionOption>, value: string): (k: int)
    ensures -1 <= k < |options|
    ensures k == -1 <==> forall i :: 0 <= i < |options| ==> options[i].value != value
    ensures 0 <= k ==> options[k].value == value && forall j :: 0 <= j < k ==> options[j].value != value
  {
    if options == [] then -1
    else if options[0].value == value then 0
    else
      var k := IndexOfValue(options[1..], value);
      if k == -1 then -1 else k + 1
  }

  /** `options.find(o => o.value === value)`: the first option carrying `value`. */
  function FindOption(options: seq<QuestionOption>, value: string): (r: Option<QuestionOption>)
    ensures r.None? <==> forall i :: 0 <= i < |options| ==> options[i].value != value
    ensures r.Some? ==> r.value.value == value && r.value in options
    ensures r.Some? ==> r.value == options[IndexOfValue(options, value)]
  {
    var k := IndexOfValue(options, value);
    if k == -1 then None else Some(options[k])
  }

  /** Every value names one of the options. */
  predicate AllKnown(options: seq<QuestionOption>, values: seq<string>) {
    forall k :: 0 <= k < |values| ==> FindOption(options, values[k]).Some?
  }

  /** What visiting `value` adds to the parts: its option's label, or nothing. */
  function LabelOf(options: seq<QuestionOption>, value: string): seq<string> {
    match FindOption(options, value)
    case Some(o) => [o.labelText]
    case None => []
  }

  /** The labels `forEach` pushes while visiting `values` in order. */
  function Labels(options: seq<QuestionOption>, values: seq<string>): seq<string>
    decreases |values|
  {
    if values == [] then []
    else Labels(options, values[..|values| - 1]) + LabelOf(options, values[|values| - 1])
  }

  /** The "Other" part: present only when "Other" is on and its trimmed text is not empty. */
  function OtherPart(s: SelectionState): seq<string> {
    var t := Trim(s.otherText);
    if s.isOtherSelected && |t| > 0 then ["Other: " + t] else []
  }

  function Parts(options: seq<QuestionOption>, s: SelectionState): seq<string> {
    Labels(options, s.selected) + OtherPart(s)
  }

  /** The text `buildResponse` returns: empty for no parts, otherwise starting with the
      first label (or the "Other" part when no label) and ending with the "Other" part
      when there is one. */
  function ResponseText(options: seq<QuestionOption>, s: SelectionState): (text: string)
    ensures Parts(options, s) == [] ==> text == ""
    ensures Parts(options, s) != [] ==> IsPrefix(Parts(options, s)[0], text)
    ensures OtherPart(s) != [] ==> IsSuffix(OtherPart(s)[0], text)
  {
    Join(Parts(options, s), ", ")
  }

  /** `canSubmit`: some option is selected, or "Other" is on and its text has a
      character that is not white space. */
  function CanSubmit(s: SelectionState): (ok: bool)
    ensures ok <==> |s.selected| > 0 || (s.isOtherSelected && !AllWhitespace(s.otherText))
  {
    TrimEmptyIff(s.otherText);
    |s.selected| > 0 || (s.isOtherSelected && |Trim(s.otherText)| > 0)
  }

  /** `buildResponse`: push the label of each selected value in insertion order,
      skipping values no option carries, then the "Other" part, and join with ", ". */
  method BuildResponse(options: seq<QuestionOption>, s: SelectionState) returns (text: string)
    ensures text == ResponseText(options, s)
  {
    var parts: seq<string> := [];
    var i := 0;
    while i < |s.selected|
      invariant 0 <= i <= |s.selected|
      invariant parts == Labels(options, s.selected[..i])
    {
      var option := FindOption(options, s.selected[i]);
      if option.Some? {
        parts := parts + [option.value.labelText];
      }
      assert s.selected[..i + 1][..i] == s.selected[..i];
      i := i + 1;
    }
    assert s.selected[..i] == s.selected;
    assert parts == Labels(options, s.selected);
    var trimmed := Trim(s.otherText);
    if s.isOtherSelected && |trimmed| > 0 {
      parts := parts + ["Other: " + trimmed];
    }
    assert parts == Parts(options, s);
    text := Join(parts, ", ");
  }

  /** When every selected value names an option, the labels are the selected values'
      labels, one each, in insertion order. */
  lemma {:induction false} LabelsAt(options: seq<QuestionOption>, values: seq<string>)
    requires AllKnown(options, values)
    ensures |Labels(options, values)| == |values|
    ensures forall k :: 0 <= k < |values| ==>
      Labels(options, values)[k] == FindOption(options, values[k]).value.labelText
    decreases |values|
  {
    if values != [] {
      var init, last := values[..|values| - 1], values[|values| - 1];
      assert AllKnown(options, init) by {
        forall k | 0 <= k < |init| ensures FindOption(options, init[k]).Some? {
          assert init[k] == values[k];
        }
      }
      LabelsAt(options, init);
      assert FindOption(options, last).Some?;
      var labels := Labels(options, values);
      assert labels == Labels(options, init) + [FindOption(options, last).value.labelText];
      forall k | 0 <= k < |values|
        ensures labels[k] == FindOption(options, values[k]).value.labelText
      {
        if k < |init| {
          assert init[k] == values[k];
        }
      }
    }
  }

  /** A selection whose values all name no option contributes no labels. */
  lemma {:induction false} LabelsOfUnknown(options: seq<QuestionOption>, values: seq<string>)
    requires forall k :: 0 <= k < |values| ==> FindOption(options, values[k]).None?
    ensures Labels(options, values) == []
    decreases |values|
  {
    if values != [] {
      LabelsOfUnknown(options, values[..|values| - 1]);
    }
  }

  /** The labels of two runs of values visited one after the other are the labels of
      the first run followed by those of the second. */
  lemma {:induction false} LabelsAppend(options: seq<QuestionOption>, a: seq<string>, b: seq<string>)
    ensures Labels(options, a + b) == Labels(options, a) + Labels(options, b)
    decreases |b|
  {
    if b == [] {
      assert a + b == a;
    } else {
      var init := b[..|b| - 1];
      assert (a + b)[..|a + b| - 1] == a + init;
      LabelsAppend(options, a, init);
    }
  }

  /** A single value contributes its own label, if any. */
  lemma LabelsOfOne(options: seq<QuestionOption>, x: string)
    ensures Labels(options, [x]) == LabelOf(options, x)
  {
    assert [x][..0] == [];
  }

  /** In a mixed selection, a value that names no option changes nothing: the labels are
      those of the selection without it. */
  lemma {:induction false} LabelsRemoveUnknown(options: seq<QuestionOption>, values: seq<string>, v: string)
    requires FindOption(options, v).None?
    ensures Labels(options, Selection.Remove(values, v)) == Labels(options, values)
    decreases |values|
  {
    if values != [] {
      var x, rest := values[0], values[1..];
      assert values == [x] + rest;
      LabelsRemoveUnknown(options, rest, v);
      LabelsOfOne(options, x);
      LabelsAppend(options, [x], rest);
      if x != v {
        calc {
          Labels(options, Selection.Remove(values, v));
          { assert Selection.Remove(values, v) == [x] + Selection.Remove(rest, v); }
          Labels(options, [x] + Selection.Remove(rest, v));
          { LabelsAppend(options, [x], Selection.Remove(rest, v)); }
          LabelOf(options, x) + Labels(options, rest);
        }
      } else {
        calc {
          Labels(options, Selection.Remove(values, v));
          { assert Selection.Remove(values, v) == Selection.Remove(rest, v); }
          Labels(options, rest);
          { assert LabelOf(options, x) == []; }
          LabelOf(options, x) + Labels(options, rest);
        }
      }
    }
  }

  /** When the selected values all name options, the submit button is enabled exactly
      when the response has something in it. */
  lemma CanSubmitIffParts(options: seq<QuestionOption>, s: SelectionState)
    requires AllKnown(options, s.selected)
    ensures CanSubmit(s) <==> Parts(options, s) != []
  {
  }

  /** The untouched state yields the empty response. */
  lemma EmptyStateResponse(options: seq<QuestionOption>)
    ensures ResponseText(options, Selection.Initial) == ""
  {
  }

  /** The response for the selection `["d", "c"]` over options Cats ("c") and Dogs ("d"). */
  lemma DogsThenCatsText()
    ensures ResponseText([QuestionOption("Cats", "c", None), QuestionOption("Dogs", "d", None)],
                         SelectionState(["d", "c"], "", false)) == "Dogs, Cats"
  {
    var options := [QuestionOption("Cats", "c", None), QuestionOption("Dogs", "d", None)];
    assert IndexOfValue(options, "d") == 1 by {
      assert options[0].value != "d" && options[1].value == "d";
    }
    assert IndexOfValue(options, "c") == 0 by {
      assert options[0].value == "c";
    }
    assert Labels(options, ["d"]) == ["Dogs"] by {
      assert ["d"][..0] == [];
    }
    assert ["d", "c"][..1] == ["d"];
    assert Parts(options, SelectionState(["d", "c"], "", false)) == ["Dogs", "Cats"];
  }

  /** Options Cats and Dogs on a multi-select question, clicked Dogs first and then Cats,
      are selected in click order and reported as "Dogs, Cats", not in option order. */
  lemma ResponseFollowsClickOrder()
    ensures var s := Selection.Run(Selection.Initial, true, Selection.Picks(["d", "c"]));
      s.selected == ["d", "c"]
      && ResponseText([QuestionOption("Cats", "c", None), QuestionOption("Dogs", "d", None)], s) == "Dogs, Cats"
  {
    Selection.PicksInClickOrder(Selection.Initial, ["d", "c"]);
    DogsThenCatsText();
  }
}
