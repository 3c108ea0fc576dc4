# Valentine proposal page: step flow and evasive button

This project models the logic of a single-page "proposal" app. The page shows three
screens in turn:

- a proposal screen with a drop-down ("YES!" or "Ew, no!") and an OK button;
- a "Why?" screen with a text area and a submit button;
- a summary screen with a copy button and a "Start Over?" link.

Choosing "Ew, no!" makes the OK button evasive. Pointing at it, touching it or clicking it
teleports it to a random offset inside its container, and the flow never advances.

The same logic appears twice in the repository. `index.tsx` is the mounted page.
`App.tsx` is an earlier copy without the copy-button label and with an alert. Both are
modelled.

- `ValentineTypes` (types.dfy): the screen enum, the answers record, the button offset.
- `JsString` (jsstring.dfy): `String.prototype.trim` over ECMAScript white space and
  line terminators, as used by the submit button's guard.
- `Evasion` (evasion.dfy): the teleport arithmetic `(r - 0.5) * 2 * (size/2 - margin)` on
  reals. Its partner `DrawFor` gives, for any target offset, the draw that produces it, when the
  axis range is not zero.
- `Summary` (summary.dfy): the clipboard text. Its partners are a line splitter and a
  reader `ReasonOf` that recovers the reason from the text.
- `Flow` (flow.dfy): every handler plus the effect it triggers, as one pure transition on
  the page state. Also here: an event model (which controls are on screen and enabled), a
  session `Run` over a sequence of events, and the invariant every reachable state keeps.
- `IndexApp` (index_app.dfy) and `LegacyApp` (legacy_app.dfy): one class per source file.
  The fields mirror the React state. Each handler is a method whose postcondition ties the
  new state to the `Flow` transition of the old state. `Dispatch` shows that delivering an
  enabled event keeps the invariant.

`Math.random()` is a parameter `r` with `0 <= r < 1`. The container's bounding rectangle
is an `Option<Rect>`; it is `None` when the ref is not mounted. The React effect on the
selected answer runs atomically with the `setData` call that changes it. It runs only when
the value actually changes, because React compares the dependency with `Object.is`.

The model follows the code on three points where it is easy to assume otherwise:

- Choosing "Ew, no!" does not itself reset the offset to (0,0). The code relies on the
  offset already being (0,0) whenever the button is not escaping. `Flow.Coherent` states
  that fact and every transition keeps it.
- Selection values other than the three options are stored as they are, not normalised.
  Only "YES!" advances and only "Ew, no!" escapes.
- The submit button's `disabled={!reason.trim()}` guard is a precondition of `WhySubmit`.
  The OK button's `disabled={!willBeValentine}` guard lives in `Flow.Enabled`, because
  `handleProposalSubmit` itself handles the empty selection as "do nothing".

## Model

| member | source | states |
|---|---|---|
| `JsString.IsWhitespace` | index.tsx:199 | the ECMAScript WhiteSpace and LineTerminator set used by `trim`: space, tab, LF and CR are in it, and no visible ASCII character is |
| `JsString.TrimStart` | index.tsx:199 | result is a suffix of the input that starts with a non-white-space character, and every dropped character is white space |
| `JsString.TrimEnd` | index.tsx:199 | result is a prefix of the input that ends with a non-white-space character, and every dropped character is white space |
| `JsString.Trim` | index.tsx:199 | the trimmed reason is no longer than the reason, and it neither starts nor ends with white space |
| `JsString.TrimKeepsMiddle` | index.tsx:199 | the trimmed reason is a contiguous slice of the reason with only white space before and after it |
| `JsString.TrimEmptyIffBlank` | index.tsx:199 | `!reason.trim()` holds exactly when every character of the reason is white space, in both directions |
| `Evasion.MaxX` | index.tsx:102 | the horizontal range is non-negative exactly when the container is at least 120 wide |
| `Evasion.MaxY` | index.tsx:103 | the vertical range is non-negative exactly when the container is at least 80 high |
| `Evasion.Scatter` | index.tsx:105-106 | a draw in [0,1) gives an offset within \|max\|, and the middle draw 0.5 gives offset 0 |
| `Evasion.ScatterBounded` | index.tsx:102-106 | for a draw in [0,1) each axis offset lies within \|max\|; for max > 0 it lies in [-max, max) |
| `Evasion.DrawFor` | index.tsx:105-106 | inverse of the teleport formula: the returned draw maps to the requested offset |
| `Evasion.ScatterCoversInterior` | index.tsx:105-106 | every offset strictly inside (-\|max\|, \|max\|) comes from a draw in [0,1), so no part of the range is unreachable |
| `Summary.SummaryText` | index.tsx:128 | the text has fixed length header + reason and ends with the reason verbatim |
| `Summary.SummaryLines` | index.tsx:128 | the first line is exactly "Cisca said: Yes!" and the rest is "Because: " + reason; with no line feed in the reason it is exactly two lines |
| `Summary.SummaryRoundTrip` | index.tsx:128 | reading the reason back from the text gives the reason, and any text that reads back to a reason is that reason's summary |
| `Flow.SelectionEffect` | index.tsx:85-92 | after the effect the button escapes iff "Ew, no!" is selected and is at (0,0) when not escaping; screen and answers untouched |
| `Flow.SetData` | index.tsx:75-92 | stores the answers, keeps the screen, preserves coherence, puts a coherent button back at (0,0) whenever the selection changes (also when it starts escaping), and leaves the button alone when the selection did not change |
| `Flow.SetSelection` | index.tsx:155 | stores the chosen value unvalidated, keeps the reason and the screen, leaves a coherent state coherent, from a coherent state a changed selection leaves the button at (0,0), and re-choosing the current value leaves the escape flag and the offset as they are |
| `Flow.SetReason` | index.tsx:192 | stores the reason verbatim (untrimmed) and changes nothing else |
| `Flow.Teleport` | index.tsx:94-110 | never changes screen, answers or escaping flag; a no-op when not escaping or when the container ref is missing |
| `Flow.ProposalSubmit` | index.tsx:112-121 | screen becomes WHY iff "YES!" is selected, otherwise unchanged; "Ew, no!" performs exactly one teleport; the offset changes only for "Ew, no!" |
| `Flow.WhySubmit` | index.tsx:123-125 | enabled only with a reason that trims to non-empty; moves to SUMMARY with a non-blank reason and changes nothing else |
| `Flow.StartOver` | index.tsx:241-244 | from any state yields PROPOSAL with both answers empty; from a coherent state it yields exactly the initial state |
| `Flow.StartOverIdempotent` | index.tsx:241-244 | starting over twice equals starting over once |
| `Flow.Enabled` | index.tsx:199 | on WHY, the submit button is enabled exactly when the reason holds a character that is not white space; the screen table and the OK button's `!willBeValentine` guard (line 176) are its definition |
| `Flow.Apply` | index.tsx:127-134 | copying the summary changes no flow state |
| `Flow.Run` | index.tsx:153-244 | a session made only of copies leaves the flow state unchanged |
| `Flow.RunAppend` | index.tsx:153-244 | a session split in two is its first part followed by its second |
| `Flow.ApplyKeepsInv` | index.tsx:144-251 | every enabled action keeps the reachable-state invariant |
| `Flow.RunKeepsInv` | index.tsx:144-251 | every sequence of actions keeps the reachable-state invariant |
| `Flow.Reachable` | index.tsx:74-92 | every state reachable from mounting is coherent; WHY and SUMMARY are reached only with "YES!"; SUMMARY only with a non-blank reason |
| `Flow.StepChanges` | index.tsx:112-125 | the screen changes only by "YES!" confirm to WHY, by non-blank submit to SUMMARY, or by start-over to PROPOSAL; confirming "Ew, no!" teleports and keeps the screen |
| `Flow.TeleportBounded` | index.tsx:94-110 | from a coherent state, with valid draws, the offset stays within \|width/2 - 60\| and \|height/2 - 40\| |
| `Flow.TeleportReaches` | index.tsx:102-108 | while escaping, every offset strictly inside those bounds is produced by some pair of valid draws |
| `IndexApp.App.constructor` | index.tsx:74-81 | mounts on the proposal screen with empty answers, the button at rest and the copy label shown |
| `IndexApp.App.OnSelectionChanged` | index.tsx:85-92 | the effect updates the fields as `Flow.SelectionEffect`; the label is untouched |
| `IndexApp.App.ChangeSelection` | index.tsx:155 | the drop-down handler updates the fields as `Flow.SetSelection` |
| `IndexApp.App.HandleTeleport` | index.tsx:94-110 | the teleport handler updates the fields as `Flow.Teleport` |
| `IndexApp.App.HandleProposalSubmit` | index.tsx:112-121 | the OK handler updates the fields as `Flow.ProposalSubmit` |
| `IndexApp.App.ChangeReason` | index.tsx:192 | the text-area handler updates the fields as `Flow.SetReason` |
| `IndexApp.App.HandleWhySubmit` | index.tsx:123-125 | callable only when the reason trims to non-empty; updates the fields as `Flow.WhySubmit` |
| `IndexApp.App.CopyToClipboard` | index.tsx:127-134 | returns the summary text, sets the label to "Copied! Send it now! ✅", and leaves the flow state unchanged |
| `IndexApp.App.StartOver` | index.tsx:241-244 | the start-over handler updates the fields as `Flow.StartOver` |
| `IndexApp.App.Dispatch` | index.tsx:153-244 | an enabled event reaches its handler, the state follows `Flow.Apply`, and the invariant is kept |
| `LegacyApp.App.constructor` | App.tsx:6-13 | mounts on the proposal screen with empty answers and the button at rest |
| `LegacyApp.App.OnSelectionChanged` | App.tsx:16-23 | the effect updates the fields as `Flow.SelectionEffect` |
| `LegacyApp.App.ChangeSelection` | App.tsx:80 | the drop-down handler updates the fields as `Flow.SetSelection` |
| `LegacyApp.App.HandleTeleport` | App.tsx:25-41 | the teleport handler updates the fields as `Flow.Teleport`; the unused `padding` plays no part |
| `LegacyApp.App.HandleProposalSubmit` | App.tsx:43-52 | the OK handler updates the fields as `Flow.ProposalSubmit` |
| `LegacyApp.App.ChangeReason` | App.tsx:114 | the text-area handler updates the fields as `Flow.SetReason` |
| `LegacyApp.App.HandleWhySubmit` | App.tsx:54-56 | callable only when the reason trims to non-empty (guard at App.tsx line 121); updates the fields as `Flow.WhySubmit` |
| `LegacyApp.App.CopyToClipboard` | App.tsx:58-62 | returns exactly the summary text and changes no state |
| `LegacyApp.App.StartOver` | App.tsx:158-161 | the start-over handler updates the fields as `Flow.StartOver` |
| `LegacyApp.App.Dispatch` | App.tsx:78-161 | an enabled event reaches its handler, the state follows `Flow.Apply`, and the invariant is kept |

## Left out

- `FloatingHearts` (index.tsx:24-69): decorative particles built from random floats.
- JSX markup, Tailwind classes and inline style and transition strings: presentation only.
  What they decide about behaviour is kept in `Flow.Enabled`: which screen shows which
  control, and the two `disabled` guards.
- `navigator.clipboard.writeText` and `alert`: platform I/O. `CopyToClipboard` returns the
  text it would write.
- The 3000 ms `setTimeout` that puts the copy label back (index.tsx:133): a timer. Stale
  firings after another copy or a start-over are not modelled.
- `Math.random` and `getBoundingClientRect`: taken as parameters. Offsets are reals, so
  IEEE double rounding is not modelled.
- React's render and effect scheduling, batching, StrictMode's double effect run, and
  `e.preventDefault()`: each handler plus its effect is one atomic step. The mount-time
  effect run is omitted because it leaves the initial state unchanged.
- The root mount and its missing-element error (index.tsx:262-272).
- Pointer-enter versus touch-start: both are the single event `PointerNear`. App.tsx wires
  only pointer-enter.
- Strings are sequences of Unicode scalar values, not UTF-16 code units. For `trim` this
  makes no difference, because no surrogate is white space.
