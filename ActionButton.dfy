/**
 * The one-shot button of src/components/ActionButton.tsx. Its `clicked`
 * state starts false; the first click while the button is enabled sets it
 * before calling `onClick`, and nothing ever resets it, so `onClick` runs
 * at most once in the component's lifetime. The label, the disabled state,
 * the cursor and the background follow from `clicked` and `disabled`.
 *
 * The `onClick` callback is modelled by the count of its invocations.
 */
module ActionButton {
  import opened Wrappers

  /** The prop defaults. */
  const DefaultClickedText := "Done \U{2713}"
  const DefaultBackgroundColor := "#ffffff"
  const DefaultClickedBackgroundColor := "#d8f3dc"

  class ActionButton {
    const text: string
    const clickedText: string
    const backgroundColor: string
    const clickedBackgroundColor: string
    /** Whether an `onClick` prop was given at all. */
    const hasOnClick: bool
    /** The `disabled` prop, which the parent may change between renders. */
    var disabled: bool
    var clicked: bool
    /** How many times `onClick` has been called. */
    var invocations: nat

    /** `onClick` has run exactly once if the latch is set and there is a
        callback, and never otherwise. */
    ghost predicate Valid()
      reads this
    {
      invocations == if clicked && hasOnClick then 1 else 0
    }

    /** The button with its props; an absent optional prop takes its
        default. */
    constructor (text: string, clickedText: Option<string>, backgroundColor: Option<string>,
                 clickedBackgroundColor: Option<string>, disabled: Option<bool>, hasOnClick: bool)
      ensures Valid()
      ensures this.text == text && this.clickedText == clickedText.GetOr(DefaultClickedText)
      ensures this.backgroundColor == backgroundColor.GetOr(DefaultBackgroundColor)
      ensures this.clickedBackgroundColor == clickedBackgroundColor.GetOr(DefaultClickedBackgroundColor)
      ensures this.disabled == disabled.GetOr(false) && this.hasOnClick == hasOnClick
      ensures !clicked && invocations == 0
    {
      this.text := text;
      this.clickedText := clickedText.GetOr(DefaultClickedText);
      this.backgroundColor := backgroundColor.GetOr(DefaultBackgroundColor);
      this.clickedBackgroundColor := clickedBackgroundColor.GetOr(DefaultClickedBackgroundColor);
      this.disabled := disabled.GetOr(false);
      this.hasOnClick := hasOnClick;
      clicked := false;
      invocations := 0;
    }

    /** The `disabled` attribute of the rendered button. */
    function IsDisabled(): bool
      reads this
    {
      disabled || clicked
    }

    /** The text the button shows. */
    function Label(): string
      reads this
    {
      if clicked then clickedText else text
    }

    /** The background colour. */
    function Background(): string
      reads this
    {
      if clicked then clickedBackgroundColor else backgroundColor
    }

    /** The cursor: a pointer only while the button can still be used. */
    function Cursor(): (cursor: string)
      reads this
      ensures cursor == "pointer" <==> !IsDisabled()
    {
      if clicked || disabled then "default" else "pointer"
    }

    /** The parent re-rendered the button with a new `disabled` prop; the
        latch keeps its state. */
    method SetDisabled(value: bool)
      requires Valid()
      modifies this
      ensures Valid()
      ensures disabled == value && clicked == old(clicked) && invocations == old(invocations)
    {
      disabled := value;
    }

    /** `handleClick`: a click while clicked or disabled does nothing;
        otherwise the latch is set and then `onClick`, when given, is
        called. `fired` tells whether the click got through. */
    method HandleClick() returns (fired: bool)
      requires Valid()
      modifies this
      ensures Valid()
      ensures fired <==> !old(clicked) && !disabled
      ensures fired <==> !old(IsDisabled())
      ensures clicked == (old(clicked) || fired) && disabled == old(disabled)
      ensures invocations == old(invocations) + (if fired && hasOnClick then 1 else 0)
      ensures fired ==> IsDisabled() && Label() == clickedText && Background() == clickedBackgroundColor
      ensures !fired ==> invocations == old(invocations) && Label() == old(Label()) && Background() == old(Background())
      ensures invocations <= 1
    {
      if clicked || disabled {
        return false;
      }
      clicked := true;
      if hasOnClick {
        invocations := invocations + 1;
      }
      return true;
    }
  }

  /** Any sequence of clicks, with the parent toggling `disabled` in
      between as `toggles` says, calls `onClick` at most once, and once a
      click got through the button stays clicked. */
  method ClickRepeatedly(b: ActionButton, toggles: seq<Option<bool>>) returns (fires: nat)
    requires b.Valid()
    modifies b
    ensures b.Valid()
    ensures b.invocations <= 1 && fires <= 1
    ensures fires == 1 ==> !old(b.clicked) && b.clicked
    ensures old(b.clicked) ==> fires == 0 && b.clicked && b.invocations == old(b.invocations)
  {
    fires := 0;
    var i := 0;
    while i < |toggles|
      invariant 0 <= i <= |toggles|
      invariant b.Valid() && fires <= 1
      invariant old(b.clicked) ==> b.clicked
      invariant fires == 1 ==> b.clicked && !old(b.clicked)
      invariant b.clicked && fires == 0 ==> old(b.clicked)
      invariant old(b.clicked) ==> fires == 0 && b.invocations == old(b.invocations)
    {
      if toggles[i].Some? {
        b.SetDisabled(toggles[i].value);
      }
      var fired := b.HandleClick();
      if fired {
        fires := fires + 1;
      }
      i := i + 1;
    }
  }
}
