/**
 * The record types shared by both versions of the proposal page:
 * the screen the page is on, the answers typed in so far, and the
 * offset of the evasive OK button.
 */
module ValentineTypes {

  /** The three screens of the flow. */
  datatype Step = Proposal | Why | Summary

  /** The user's answers: the selected option and the free-text reason. */
  datatype ValentineData = ValentineData(willBeValentine: string, reason: string)

  /** Offset of the OK button from its natural place, in layout units. */
  datatype ButtonPosition = ButtonPosition(x: real, y: real)

  const Origin := ButtonPosition(0.0, 0.0)

  /** A value that may be missing, such as a React ref before mounting. */
  datatype Option<T> = None | Some(value: T)
}
