/** The three answer transitions of the single-question view. Each is the updater the
    view hands to `setSelection`: a pure function of the previous state (it copies
    `prev.selected` into a fresh `Set` before changing it). `multiSelect` is the
    question's flag; with no question loaded it reads as false. */
module Selection {
  import opened Types

  /** The state before any interaction. */
  const Initial := SelectionState([], "", false)

  /** `Set.delete`: the members other than `v`, in their insertion order. */
  function Remove(s: seq<string>, v: string): (r: seq<string>)
    ensures forall x :: x in r <==> x in s && x != v
    ensures v !in s ==> r == s
    ensures NoDuplicates(s) ==> NoDuplicates(r)
  {
    if s == [] then []
    else if s[0] == v then Remove(s[1..], v)
    else
      var rest := Remove(s[1..], v);
      assert NoDuplicates(s) ==> s[0] !in s[1..];
      [s[0]] + rest
  }

  /** On a set, deleting `v` cuts its one occurrence out and leaves the other members
      in their insertion order. */
  lemma {:induction false} RemoveCutsOut(s: seq<string>, v: string, k: nat)
    requires NoDuplicates(s) && k < |s| && s[k] == v
    ensures Remove(s, v) == s[..k] + s[k + 1..]
  {
    var tail := s[1..];
    assert NoDuplicates(tail) by {
      forall i, j | 0 <= i < j < |tail|
        ensures tail[i] != tail[j]
      {
        assert tail[i] == s[i + 1] && tail[j] == s[j + 1];
      }
    }
    if k == 0 {
      assert v !in tail by {
        forall i | 0 <= i < |tail|
          ensures tail[i] != v
        {
          assert tail[i] == s[i + 1];
        }
      }
      assert Remove(s, v) == Remove(tail, v);
    } else {
      assert s[0] != v;
      assert Remove(s, v) == [s[0]] + Remove(tail, v);
      assert tail[k - 1] == v;
      RemoveCutsOut(tail, v, k - 1);
      assert s[..k] == [s[0]] + tail[..k - 1];
      assert s[k + 1..] == tail[k..];
    }
  }

  /** Clicking an option. Multi-select toggles the value's membership; single-select
      makes it the only selection and switches "Other" off. */
  function Select(s: SelectionState, multiSelect: bool, value: string): (r: SelectionState)
    ensures r.otherText == s.otherText
    ensures multiSelect ==> r.isOtherSelected == s.isOtherSelected
    ensures multiSelect ==> forall x :: x in r.selected <==>
      (if x == value then value !in s.selected else x in s.selected)
    ensures multiSelect && value !in s.selected ==> r.selected == s.selected + [value]
    ensures multiSelect && value in s.selected ==> r.selected == Remove(s.selected, value)
    ensures !multiSelect ==> r.selected == [value] && !r.isOtherSelected
    ensures NoDuplicates(s.selected) ==> NoDuplicates(r.selected)
  {
    var selected :=
      if !multiSelect then [value]
      else if value in s.selected then Remove(s.selected, value)
      else s.selected + [value];
    s.(selected := selected, isOtherSelected := if multiSelect then s.isOtherSelected else false)
  }

  /** Clicking "Other". It always flips the flag and keeps the text; in single-select
      turning it on clears the options, turning it off keeps them as they were. */
  function ToggleOther(s: SelectionState, multiSelect: bool): (r: SelectionState)
    ensures r.isOtherSelected == !s.isOtherSelected
    ensures r.otherText == s.otherText
    ensures multiSelect ==> r.selected == s.selected
    ensures !multiSelect && r.isOtherSelected ==> r.selected == []
    ensures !multiSelect && !r.isOtherSelected ==> r.selected == s.selected
  {
    var on := !s.isOtherSelected;
    if multiSelect then s.(isOtherSelected := on)
    else SelectionState(if on then [] else s.selected, s.otherText, on)
  }

  /** Typing in the "Other" field: the text is stored as typed, untrimmed. */
  function ChangeOtherText(s: SelectionState, text: string): (r: SelectionState)
    ensures r.otherText == text
    ensures r.selected == s.selected && r.isOtherSelected == s.isOtherSelected
  {
    s.(otherText := text)
  }

  /** Dropping a value that was appended last gives back the set as it was. */
  lemma {:induction false} RemoveAppended(s: seq<string>, v: string)
    requires v !in s
    ensures Remove(s + [v], v) == s
  {
    if s != [] {
      assert (s + [v])[1..] == s[1..] + [v];
      RemoveAppended(s[1..], v);
    }
  }

  /** Multi-select: clicking the same option twice restores the selected set and
      leaves the rest of the state alone. */
  lemma SelectTwiceRestoresSet(s: SelectionState, value: string)
    ensures var r := Select(Select(s, true, value), true, value);
      (forall x :: x in r.selected <==> x in s.selected)
      && r.otherText == s.otherText && r.isOtherSelected == s.isOtherSelected
  {
  }

  /** Multi-select: clicking an unselected option twice restores the state exactly,
      insertion order included. */
  lemma SelectTwiceRestoresState(s: SelectionState, value: string)
    requires value !in s.selected
    ensures Select(Select(s, true, value), true, value) == s
  {
    RemoveAppended(s.selected, value);
  }

  /** Multi-select: clicking an already selected option twice removes it and appends it
      again, so it moves to the end of the insertion order that the response follows. */
  lemma SelectTwiceMovesToEnd(s: SelectionState, value: string)
    requires NoDuplicates(s.selected) && value in s.selected
    ensures Select(Select(s, true, value), true, value).selected == Remove(s.selected, value) + [value]
  {
  }

  /** Toggling "Other" twice: in multi-select nothing changes; in single-select the
      option selection ends up empty, whatever it was. */
  lemma ToggleOtherTwice(s: SelectionState, multiSelect: bool)
    ensures multiSelect ==> ToggleOther(ToggleOther(s, true), true) == s
    ensures !multiSelect ==> ToggleOther(ToggleOther(s, false), false) == s.(selected := [])
  {
  }

  /** One user interaction on the question. */
  datatype Event = Pick(value: string) | FlipOther | EditOther(text: string)

  function Apply(s: SelectionState, multiSelect: bool, e: Event): SelectionState
  {
    match e
    case Pick(v) => Select(s, multiSelect, v)
    case FlipOther => ToggleOther(s, multiSelect)
    case EditOther(t) => ChangeOtherText(s, t)
  }

  /** The state after the interactions `es`, in order. */
  function Run(s: SelectionState, multiSelect: bool, es: seq<Event>): SelectionState
    decreases |es|
  {
    if es == [] then s else Run(Apply(s, multiSelect, es[0]), multiSelect, es[1..])
  }

  /** Clicking each of `values`, in order. */
  function Picks(values: seq<string>): (es: seq<Event>)
    ensures |es| == |values|
    ensures forall i :: 0 <= i < |values| ==> es[i] == Pick(values[i])
  {
    seq(|values|, i requires 0 <= i < |values| => Pick(values[i]))
  }

  /** Multi-select: clicking options that are not yet selected, each once, selects them
      after the current ones in the order they were clicked; "Other" is untouched. */
  lemma {:induction false} PicksInClickOrder(s: SelectionState, values: seq<string>)
    requires NoDuplicates(s.selected + values)
    ensures Run(s, true, Picks(values)) == s.(selected := s.selected + values)
    decreases |values|
  {
    if values != [] {
      var v := values[0];
      assert (s.selected + values)[|s.selected|] == v;
      assert v !in s.selected by {
        forall i | 0 <= i < |s.selected|
          ensures s.selected[i] != v
        {
          assert s.selected[i] == (s.selected + values)[i];
        }
      }
      var next := s.(selected := s.selected + [v]);
      assert Apply(s, true, Picks(values)[0]) == next;
      assert Picks(values)[1..] == Picks(values[1..]);
      assert next.selected + values[1..] == s.selected + values;
      PicksInClickOrder(next, values[1..]);
    }
  }

  /** The single-select invariant: at most one option, and none while "Other" is on. */
  predicate SingleSelectValid(s: SelectionState) {
    |s.selected| <= 1 && (s.isOtherSelected ==> s.selected == [])
  }

  lemma {:induction false} RunKeepsSingleSelectValid(s: SelectionState, es: seq<Event>)
    requires SingleSelectValid(s)
    ensures SingleSelectValid(Run(s, false, es))
    decreases |es|
  {
    if es != [] {
      RunKeepsSingleSelectValid(Apply(s, false, es[0]), es[1..]);
    }
  }

  /** From the initial state, any interactions on a single-select question keep at most
      one option selected, and never an option together with "Other". */
  lemma SingleSelectFromInitial(es: seq<Event>)
    ensures var r := Run(Initial, false, es);
      |r.selected| <= 1 && (r.isOtherSelected ==> r.selected == [])
  {
    RunKeepsSingleSelectValid(Initial, es);
  }

  /** Any interactions keep `selected` free of duplicates, as a `Set` is. */
  lemma {:induction false} RunKeepsNoDuplicates(s: SelectionState, multiSelect: bool, es: seq<Event>)
    requires NoDuplicates(s.selected)
    ensures NoDuplicates(Run(s, multiSelect, es).selected)
    decreases |es|
  {
    if es != [] {
      RunKeepsNoDuplicates(Apply(s, multiSelect, es[0]), multiSelect, es[1..]);
    }
  }

  /** Only typing changes the "Other" text: clicks on options and on "Other" keep it,
      so switching "Other" off and on again brings the old text back. */
  lemma {:induction false} RunKeepsOtherText(s: SelectionState, multiSelect: bool, es: seq<Event>)
    requires forall i :: 0 <= i < |es| ==> !es[i].EditOther?
    ensures Run(s, multiSelect, es).otherText == s.otherText
    decreases |es|
  {
    if es != [] {
      RunKeepsOtherText(Apply(s, multiSelect, es[0]), multiSelect, es[1..]);
    }
  }
}
