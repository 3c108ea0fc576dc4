/**
 * The mounted page (index.tsx): a component whose handlers update its state
 * fields through setters. Each method is one handler together with the
 * effect its update triggers, and is specified by the matching transition
 * of module Flow.
 */
module IndexApp {
  import opened ValentineTypes
  import opened JsString
  import opened Evasion
  import opened Summary
  import opened Flow

  /** The copy button's resting label and its label right after a copy. */
  const CopyLabel := "Copy Response for Cay \U{1F4CB}"
  const CopiedLabel := "Copied! Send it now! \U{2705}"

  class App {
    var step: Step
    var data: ValentineData
    var okButtonPos: ButtonPosition
    var isEscaping: bool
    var buttonText: string

    /** The flow part of the component's state. */
    function State(): FlowState
      reads this
    {
      FlowState(step, data, okButtonPos, isEscaping)
    }

    predicate Valid()
      reads this
    {
      Inv(State())
    }

    constructor ()
      ensures State() == Initial && buttonText == CopyLabel
      ensures Valid()
    {
      step := Proposal;
      data := ValentineData("", "");
      okButtonPos := Origin;
      isEscaping := false;
      buttonText := CopyLabel;
    }

    /** The effect that depends on the selected answer. */
    method OnSelectionChanged()
      modifies this
      ensures State() == SelectionEffect(old(State())) && buttonText == old(buttonText)
    {
      if data.willBeValentine == No {
        isEscaping := true;
      } else {
        isEscaping := false;
        okButtonPos := Origin;
      }
    }

    /** The drop-down's `onChange`; the effect follows when the value differs. */
    method ChangeSelection(value: string)
      modifies this
      ensures State() == SetSelection(old(State()), value) && buttonText == old(buttonText)
    {
      var changed := value != data.willBeValentine;
      data := data.(willBeValentine := value);
      if changed {
        OnSelectionChanged();
      }
    }

    /** `handleTeleport`, fired by pointer enter, touch start and clicks on
        "Ew, no!". `container` is the ref's rectangle, `rx` and `ry` the two
        `Math.random()` draws. */
    method HandleTeleport(container: Option<Rect>, rx: real, ry: real)
      modifies this
      ensures State() == Teleport(old(State()), container, rx, ry) && buttonText == old(buttonText)
    {
      if !isEscaping {
        return;
      }
      if container.Some? {
        var rect := container.value;
        var maxX := MaxX(rect);
        var maxY := MaxY(rect);
        var newX := Scatter(rx, maxX);
        var newY := Scatter(ry, maxY);
        okButtonPos := ButtonPosition(newX, newY);
      }
    }

    /** `handleProposalSubmit`, the OK button's `onClick`. */
    method HandleProposalSubmit(container: Option<Rect>, rx: real, ry: real)
      modifies this
      ensures State() == ProposalSubmit(old(State()), container, rx, ry)
      ensures buttonText == old(buttonText)
    {
      if data.willBeValentine == No {
        HandleTeleport(container, rx, ry);
        return;
      }
      if data.willBeValentine == Yes {
        step := Why;
      }
    }

    /** The text area's `onChange`. */
    method ChangeReason(text: string)
      modifies this
      ensures State() == SetReason(old(State()), text) && buttonText == old(buttonText)
    {
      data := data.(reason := text);
    }

    /** `handleWhySubmit`; its button is disabled while the reason trims to "". */
    method HandleWhySubmit()
      requires Trim(data.reason) != ""
      modifies this
      ensures State() == WhySubmit(old(State())) && buttonText == old(buttonText)
    {
      step := Summary;
    }

    /** `copyToClipboard`: returns the text written to the clipboard and
        switches the button label; the flow state is untouched. */
    method CopyToClipboard() returns (text: string)
      modifies this
      ensures text == SummaryText(data.reason)
      ensures buttonText == CopiedLabel && State() == old(State())
    {
      text := SummaryText(data.reason);
      buttonText := CopiedLabel;
    }

    /** The "Start Over?" button's `onClick`. */
    method StartOver()
      modifies this
      ensures State() == Flow.StartOver(old(State())) && buttonText == old(buttonText)
    {
      var changed := data.willBeValentine != "";
      data := ValentineData("", "");
      step := Proposal;
      if changed {
        OnSelectionChanged();
      }
    }

    /** Delivers one user action to the handler of the control it comes
        from; the component's invariant is kept. */
    method Dispatch(e: Event)
      requires Valid() && Enabled(State(), e)
      modifies this
      ensures Valid() && State() == Apply(old(State()), e)
      ensures buttonText == if e.ClickCopy? then CopiedLabel else old(buttonText)
    {
      ApplyKeepsInv(State(), e);
      match e
      case ChooseAnswer(v) => ChangeSelection(v);
      case PointerNear(c, rx, ry) => HandleTeleport(c, rx, ry);
      case ClickOk(c, rx, ry) => HandleProposalSubmit(c, rx, ry);
      case TypeReason(t) => ChangeReason(t);
      case ClickSubmit => HandleWhySubmit();
      case ClickCopy => var text := CopyToClipboard();
      case ClickStartOver => StartOver();
    }
  }
}
