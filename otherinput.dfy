/** The "Other" row: a toggle button and, while "Other" is on, a text field. The
    component remembers the `isSelected` of its previous render so that it focuses the
    field once, on the render where "Other" turns on. */
module OtherInput {
  import opened Wrappers

  /** The text field, when shown: its value and whether this render focuses it. */
  datatype Field = Field(value: string, focusNow: bool)

  datatype OtherView = OtherView(isSelected: bool, focused: bool, justToggled: bool, field: Option<Field>)

  /** The edge test: on now, off on the previous render. */
  /** "Other" has just been switched on: the value now is on and differs from the
      remembered one. Switching off, or staying on, is no toggle. */
  function RisingEdge(previous: bool, isSelected: bool): (r: bool)
    ensures r <==> isSelected && previous != isSelected
  {
    isSelected && !previous
  }

  class OtherInputState {
    /** `prevIsSelectedRef.current`. */
    var prevIsSelected: bool

    /** Mounting: the remembered value starts as the first render's `isSelected`. */
    constructor (isSelected: bool)
      ensures prevIsSelected == isSelected
    {
      prevIsSelected := isSelected;
    }

    /** One render: report whether "Other" just turned on, remember the current value,
        and show the field (focused on the toggling render only) while "Other" is on. */
    method Render(isSelected: bool, value: string, focused: bool) returns (view: OtherView)
      modifies this
      ensures view.justToggled <==> isSelected && !old(prevIsSelected)
      ensures prevIsSelected == isSelected
      ensures view.isSelected == isSelected && view.focused == focused
      ensures view.field.Some? <==> isSelected
      ensures view.field.Some? ==> view.field.value == Field(value, view.justToggled)
    {
      var justToggled := RisingEdge(prevIsSelected, isSelected);
      prevIsSelected := isSelected;
      view := OtherView(isSelected, focused, justToggled,
                        if isSelected then Some(Field(value, justToggled)) else None);
    }
  }

  /** The `justToggled` flags of consecutive renders with the values `renders`, the
      remembered value starting as `initial`: render `i` reports a toggle exactly when it
      is on and the render before it (or the mount value, for the first) was off. */
  function Toggles(initial: bool, renders: seq<bool>): (flags: seq<bool>)
    ensures |flags| == |renders|
    ensures |flags| > 0 ==> (flags[0] <==> renders[0] && !initial)
    ensures forall i {:trigger flags[i]} :: 0 < i < |flags| ==> (flags[i] <==> renders[i] && !renders[i - 1])
    decreases |renders|
  {
    if renders == [] then []
    else
      var rest := Toggles(renders[0], renders[1..]);
      var flags := [RisingEdge(initial, renders[0])] + rest;
      forall i | 1 <= i < |flags|
        ensures flags[i] <==> renders[i] && !renders[i - 1]
      {
        assert flags[i] == rest[i - 1] && renders[i] == renders[1..][i - 1];
        if i > 1 {
          assert renders[i - 1] == renders[1..][i - 2];
        }
      }
      flags
  }

  /** The first render after mounting never reports a toggle. */
  lemma FirstRenderQuiet(renders: seq<bool>)
    requires renders != []
    ensures !Toggles(renders[0], renders)[0]
  {
  }

  /** Two consecutive renders never both report a toggle, so the field is focused at
      most once per off-to-on change. */
  lemma NoConsecutiveToggles(initial: bool, renders: seq<bool>, i: nat)
    requires i + 1 < |renders|
    ensures !(Toggles(initial, renders)[i] && Toggles(initial, renders)[i + 1])
  {
    var flags := Toggles(initial, renders);
    assert flags[i] ==> renders[i] by {
      if i > 0 {
        assert flags[i] <==> renders[i] && !renders[i - 1];
      }
    }
    assert flags[i + 1] <==> renders[i + 1] && !renders[i];
  }

  /** What a key pressed in the text field does. */
  datatype KeyAction = Blur | PassThrough

  /** Escape and Tab leave the field; every other key, arrows included, edits the text. */
  function OnKeyDown(key: string): (a: KeyAction)
    ensures a == Blur <==> key == "Escape" || key == "Tab"
  {
    if key == "Escape" then Blur
    else if key == "Tab" then Blur
    else PassThrough
  }

  /** An interaction with the row, and the effect it has. */
  datatype Event = ButtonClicked | TextTyped(text: string) | KeyPressed(key: string)
  datatype Effect = CallToggle | CallChange(text: string) | BlurField | NoEffect

  /** A click on the button calls `onToggle`; typing (only possible while the field is
      shown) calls `onChange` with the text as typed; keys in the field follow
      `OnKeyDown`. */
  function Handle(isSelected: bool, e: Event): (r: Effect)
    ensures e.ButtonClicked? ==> r == CallToggle
    ensures e.TextTyped? ==> r == if isSelected then CallChange(e.text) else NoEffect
    ensures e.KeyPressed? ==> (r == BlurField <==> isSelected && OnKeyDown(e.key) == Blur)
    ensures e.KeyPressed? && r != BlurField ==> r == NoEffect
  {
    match e
    case ButtonClicked => CallToggle
    case TextTyped(t) => if isSelected then CallChange(t) else NoEffect
    case KeyPressed(k) => if isSelected && OnKeyDown(k) == Blur then BlurField else NoEffect
  }
}
