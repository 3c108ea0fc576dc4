/**
 * The step flow of the proposal page and the state of its evasive OK
 * button, as pure transitions on a record of the page's React state.
 * Each handler, together with the effect its state change triggers,
 * is one atomic transition.
 */
module Flow {
  import opened ValentineTypes
  import opened JsString
  import opened Evasion

  /** The two answers offered by the drop-down. */
  const Yes := "YES!"
  const No := "Ew, no!"

  /** The page's state: current screen, answers, button offset, and whether
      the OK button is running away. */
  datatype FlowState = FlowState(
    step: Step,
    data: ValentineData,
    okButtonPos: ButtonPosition,
    isEscaping: bool)

  /** The state the page is mounted with. */
  const Initial := FlowState(Proposal, ValentineData("", ""), Origin, false)

  /** The button escapes exactly while "Ew, no!" is selected, and stays at
      its natural place whenever it is not escaping. */
  predicate Coherent(s: FlowState) {
    && (s.isEscaping <==> s.data.willBeValentine == No)
    && (!s.isEscaping ==> s.okButtonPos == Origin)
  }

  /** The effect run when the selection changes: "Ew, no!" starts the
      escape; any other value stops it and puts the button back. */
  function SelectionEffect(s: FlowState): (r: FlowState)
    ensures r.step == s.step && r.data == s.data
    ensures Coherent(r)
    ensures r.isEscaping ==> r.okButtonPos == s.okButtonPos
  {
    if s.data.willBeValentine == No then s.(isEscaping := true)
    else s.(isEscaping := false, okButtonPos := Origin)
  }

  /** `setData(d)`: replaces the answers; the effect runs only when the
      selected value differs from the previous one. */
  function SetData(s: FlowState, d: ValentineData): (r: FlowState)
    ensures r.step == s.step && r.data == d
    ensures Coherent(s) ==> Coherent(r)
    ensures Coherent(s) && d.willBeValentine != s.data.willBeValentine ==> r.okButtonPos == Origin
    ensures d.willBeValentine == s.data.willBeValentine ==>
      r.isEscaping == s.isEscaping && r.okButtonPos == s.okButtonPos
  {
    var t := s.(data := d);
    if d.willBeValentine != s.data.willBeValentine then SelectionEffect(t) else t
  }

  /** The drop-down's change handler: stores the chosen value as it is. */
  function SetSelection(s: FlowState, value: string): (r: FlowState)
    ensures r.step == s.step && r.data == ValentineData(value, s.data.reason)
    ensures Coherent(s) ==> Coherent(r)
    ensures Coherent(s) && value != s.data.willBeValentine ==> r.okButtonPos == Origin
    ensures value == s.data.willBeValentine ==>
      r.isEscaping == s.isEscaping && r.okButtonPos == s.okButtonPos
  {
    SetData(s, s.data.(willBeValentine := value))
  }

  /** The text area's change handler: stores the reason verbatim, untrimmed,
      and changes nothing else. */
  function SetReason(s: FlowState, text: string): (r: FlowState)
    ensures r.data.reason == text && r.data.willBeValentine == s.data.willBeValentine
    ensures r.step == s.step && r.isEscaping == s.isEscaping && r.okButtonPos == s.okButtonPos
  {
    SetData(s, s.data.(reason := text))
  }

  /** `handleTeleport`: while escaping and with the container mounted, moves
      the button to the offset picked by one random draw per axis. */
  function Teleport(s: FlowState, container: Option<Rect>, rx: real, ry: real): (r: FlowState)
    ensures r.step == s.step && r.data == s.data && r.isEscaping == s.isEscaping
    ensures !s.isEscaping || container.None? ==> r == s
  {
    if !s.isEscaping then s
    else match container
      case None => s
      case Some(rect) =>
        s.(okButtonPos := ButtonPosition(Scatter(rx, MaxX(rect)), Scatter(ry, MaxY(rect))))
  }

  /** `handleProposalSubmit`: "Ew, no!" teleports instead of advancing,
      "YES!" moves on to the reason screen, anything else does nothing. */
  function ProposalSubmit(s: FlowState, container: Option<Rect>, rx: real, ry: real): (r: FlowState)
    ensures r.data == s.data && r.isEscaping == s.isEscaping
    ensures r.step == (if s.data.willBeValentine == Yes then Why else s.step)
    ensures r.okButtonPos != s.okButtonPos ==> s.data.willBeValentine == No
    ensures s.data.willBeValentine == No ==> r == Teleport(s, container, rx, ry)
  {
    if s.data.willBeValentine == No then Teleport(s, container, rx, ry)
    else if s.data.willBeValentine == Yes then s.(step := Why)
    else s
  }

  /** `handleWhySubmit`, reachable only while its button is enabled, that is
      while the reason trims to a non-empty string. */
  function WhySubmit(s: FlowState): (r: FlowState)
    requires Trim(s.data.reason) != ""
    ensures r.step == Summary && !IsBlank(r.data.reason)
    ensures r.data == s.data && r.isEscaping == s.isEscaping && r.okButtonPos == s.okButtonPos
  {
    TrimEmptyIffBlank(s.data.reason);
    s.(step := Summary)
  }

  /** The "Start Over?" handler: clears both answers and returns to the
      first screen; from a coherent state this is the initial state. */
  function StartOver(s: FlowState): (r: FlowState)
    ensures r.step == Proposal && r.data == ValentineData("", "")
    ensures Coherent(s) ==> r == Initial
  {
    SetData(s, ValentineData("", "")).(step := Proposal)
  }

  /** Starting over twice is the same as starting over once. */
  lemma StartOverIdempotent(s: FlowState)
    ensures StartOver(StartOver(s)) == StartOver(s)
  {
  }

  /** A user action, with what the environment supplies along with it: the
      container's rectangle (missing before mounting) and `Math.random()`
      draws for the horizontal and vertical axes. */
  datatype Event =
    | ChooseAnswer(value: string)
    | PointerNear(container: Option<Rect>, rx: real, ry: real)
    | ClickOk(container: Option<Rect>, rx: real, ry: real)
    | TypeReason(text: string)
    | ClickSubmit
    | ClickCopy
    | ClickStartOver

  predicate ValidDraw(r: real) { 0.0 <= r < 1.0 }

  /** The control the event comes from is on screen and not disabled, and
      the random draws are in `Math.random()`'s range. The submit button is
      enabled on WHY exactly when the reason has a visible character. */
  predicate Enabled(s: FlowState, e: Event)
    ensures e.ClickSubmit? ==> (Enabled(s, e) <==> s.step == Why && !IsBlank(s.data.reason))
  {
    TrimEmptyIffBlank(s.data.reason);
    match e
    case ChooseAnswer(_) => s.step == Proposal
    case PointerNear(_, rx, ry) => s.step == Proposal && ValidDraw(rx) && ValidDraw(ry)
    case ClickOk(_, rx, ry) =>
      s.step == Proposal && s.data.willBeValentine != "" && ValidDraw(rx) && ValidDraw(ry)
    case TypeReason(_) => s.step == Why
    case ClickSubmit => s.step == Why && Trim(s.data.reason) != ""
    case ClickCopy => s.step == Summary
    case ClickStartOver => s.step == Summary
  }

  /** The transition an enabled event performs. Copying changes no flow
      state. */
  function Apply(s: FlowState, e: Event): (r: FlowState)
    requires Enabled(s, e)
    ensures e.ClickCopy? ==> r == s
  {
    match e
    case ChooseAnswer(v) => SetSelection(s, v)
    case PointerNear(c, rx, ry) => Teleport(s, c, rx, ry)
    case ClickOk(c, rx, ry) => ProposalSubmit(s, c, rx, ry)
    case TypeReason(t) => SetReason(s, t)
    case ClickSubmit => WhySubmit(s)
    case ClickCopy => s
    case ClickStartOver => StartOver(s)
  }

  /** A session: events are delivered in order; an event from a control
      that is hidden or disabled has no effect. Copying the summary any
      number of times leaves the flow state as it was. */
  function Run(s: FlowState, events: seq<Event>): (r: FlowState)
    ensures (forall i :: 0 <= i < |events| ==> events[i].ClickCopy?) ==> r == s
    decreases |events|
  {
    if events == [] then s
    else Run(if Enabled(s, events[0]) then Apply(s, events[0]) else s, events[1..])
  }

  /** A session split in two runs as its first part followed by its
      second: events take effect one after another, in delivery order. */
  lemma {:induction false} RunAppend(s: FlowState, first: seq<Event>, second: seq<Event>)
    ensures Run(s, first + second) == Run(Run(s, first), second)
    decreases |first|
  {
    if first != [] {
      var next := if Enabled(s, first[0]) then Apply(s, first[0]) else s;
      assert (first + second)[0] == first[0];
      assert (first + second)[1..] == first[1..] + second;
      RunAppend(next, first[1..], second);
    } else {
      assert first + second == second;
    }
  }

  /** What holds of every state a session can reach: the button state is
      coherent with the selection; on the first screen no reason has been
      typed; the later screens are only reached having chosen "YES!"; and
      the summary only with a reason that is not all white space. */
  predicate Inv(s: FlowState) {
    && Coherent(s)
    && (s.step == Proposal ==> s.data.reason == "")
    && (s.step != Proposal ==> s.data.willBeValentine == Yes)
    && (s.step == Summary ==> Trim(s.data.reason) != "")
  }

  /** Every enabled event keeps the invariant. */
  lemma ApplyKeepsInv(s: FlowState, e: Event)
    requires Inv(s) && Enabled(s, e)
    ensures Inv(Apply(s, e))
  {
  }

  /** Every session keeps the invariant. */
  lemma {:induction false} RunKeepsInv(s: FlowState, events: seq<Event>)
    requires Inv(s)
    ensures Inv(Run(s, events))
    decreases |events|
  {
    if events != [] {
      var next := if Enabled(s, events[0]) then Apply(s, events[0]) else s;
      if Enabled(s, events[0]) { ApplyKeepsInv(s, events[0]); }
      RunKeepsInv(next, events[1..]);
    }
  }

  /** Every state reachable from the mounted page satisfies the invariant;
      in particular the reason screen is reached only having said "YES!",
      and the summary only with a reason that has a visible character. */
  lemma Reachable(events: seq<Event>)
    ensures Inv(Run(Initial, events))
    ensures Run(Initial, events).step != Proposal ==> Run(Initial, events).data.willBeValentine == Yes
    ensures Run(Initial, events).step == Summary ==> !IsBlank(Run(Initial, events).data.reason)
  {
    RunKeepsInv(Initial, events);
    TrimEmptyIffBlank(Run(Initial, events).data.reason);
  }

  /** The screen changes only along the proposal graph: to the reason screen
      only by confirming "YES!", to the summary only by submitting a reason
      that trims to non-empty, back to the start only by starting over;
      and confirming "Ew, no!" never changes the screen but teleports once. */
  lemma StepChanges(s: FlowState, e: Event)
    requires Enabled(s, e)
    ensures Apply(s, e).step != s.step && Apply(s, e).step == Why ==>
      e.ClickOk? && s.data.willBeValentine == Yes
    ensures Apply(s, e).step != s.step && Apply(s, e).step == Summary ==>
      e.ClickSubmit? && Trim(s.data.reason) != ""
    ensures Apply(s, e).step != s.step && Apply(s, e).step == Proposal ==> e.ClickStartOver?
    ensures e.ClickOk? && s.data.willBeValentine == No ==>
      Apply(s, e) == Teleport(s, e.container, e.rx, e.ry) && Apply(s, e).step == s.step
  {
  }

  /** From a coherent state, a teleport with valid draws leaves the button
      within |width/2 - 60| horizontally and |height/2 - 40| vertically of
      its natural place. */
  lemma TeleportBounded(s: FlowState, rect: Rect, rx: real, ry: real)
    requires Coherent(s) && ValidDraw(rx) && ValidDraw(ry)
    ensures Abs(Teleport(s, Some(rect), rx, ry).okButtonPos.x) <= Abs(MaxX(rect))
    ensures Abs(Teleport(s, Some(rect), rx, ry).okButtonPos.y) <= Abs(MaxY(rect))
  {
    ScatterBounded(rx, MaxX(rect));
    ScatterBounded(ry, MaxY(rect));
  }

  /** While escaping, every offset strictly inside the bounds is the result
      of some pair of valid draws. */
  lemma TeleportReaches(s: FlowState, rect: Rect, x: real, y: real)
    requires s.isEscaping
    requires Abs(x) < Abs(MaxX(rect)) && Abs(y) < Abs(MaxY(rect))
    ensures ValidDraw(DrawFor(x, MaxX(rect))) && ValidDraw(DrawFor(y, MaxY(rect)))
    ensures Teleport(s, Some(rect), DrawFor(x, MaxX(rect)), DrawFor(y, MaxY(rect))).okButtonPos
      == ButtonPosition(x, y)
  {
    ScatterCoversInterior(x, MaxX(rect));
    ScatterCoversInterior(y, MaxY(rect));
  }
}
