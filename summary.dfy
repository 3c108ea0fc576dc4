/**
 * The plain-text message the summary screen copies to the clipboard:
 * an acknowledgement line, then "Because: " and the reason verbatim.
 */
module Summary {
  import opened ValentineTypes

  const Acknowledgement := "Cisca said: Yes!"
  const ReasonLabel := "Because: "

  /** The exported message for `reason`; the reason is not escaped. */
  function SummaryText(reason: string): (text: string)
    ensures |text| == |Acknowledgement| + 1 + |ReasonLabel| + |reason|
    ensures text[|text| - |reason|..] == reason
  {
    Acknowledgement + "\n" + ReasonLabel + reason
  }

  /** Splits `s` at its first line feed into the first line and the rest;
      without a line feed, the whole of `s` is the first line. */
  function SplitFirstLine(s: string): (p: (string, string))
    ensures '\n' !in p.0
    ensures if '\n' in s then s == p.0 + "\n" + p.1 else p == (s, "")
  {
    if s == [] then ("", "")
    else if s[0] == '\n' then ("", s[1..])
    else
      var q := SplitFirstLine(s[1..]);
      assert s == [s[0]] + s[1..];
      ([s[0]] + q.0, q.1)
  }

  /** A line with no line feed, a line feed and any rest split back apart. */
  lemma {:induction false} SplitAfterLine(line: string, rest: string)
    requires '\n' !in line
    ensures SplitFirstLine(line + "\n" + rest) == (line, rest)
  {
    var s := line + "\n" + rest;
    if line != [] {
      assert s[0] == line[0] && s[0] != '\n';
      assert s[1..] == line[1..] + "\n" + rest;
      SplitAfterLine(line[1..], rest);
      assert [line[0]] + line[1..] == line;
    } else {
      assert s[1..] == rest;
    }
  }

  /** The first line of the message is exactly the acknowledgement and the
      remainder is "Because: " followed by the reason; a reason without a
      line feed makes the message exactly two lines. */
  lemma SummaryLines(reason: string)
    ensures SplitFirstLine(SummaryText(reason)) == (Acknowledgement, ReasonLabel + reason)
    ensures '\n' !in reason ==>
      SplitFirstLine(SplitFirstLine(SummaryText(reason)).1) == (ReasonLabel + reason, "")
  {
    assert SummaryText(reason) == Acknowledgement + "\n" + (ReasonLabel + reason);
    SplitAfterLine(Acknowledgement, ReasonLabel + reason);
  }

  /** Reads the reason back out of a message, if it has the fixed header. */
  function ReasonOf(text: string): (r: Option<string>)
    ensures r.Some? ==> |r.value| <= |text|
  {
    var header := Acknowledgement + "\n" + ReasonLabel;
    if |header| <= |text| && text[..|header|] == header then Some(text[|header|..]) else None
  }

  /** The message determines the reason and vice versa: reading back a built
      message gives the reason, and every message read back was built so. */
  lemma SummaryRoundTrip(reason: string, text: string)
    ensures ReasonOf(SummaryText(reason)) == Some(reason)
    ensures ReasonOf(text) == Some(reason) ==> text == SummaryText(reason)
  {
    var header := Acknowledgement + "\n" + ReasonLabel;
    assert SummaryText(reason) == header + reason;
    assert (header + reason)[..|header|] == header;
    if ReasonOf(text) == Some(reason) {
      assert text == text[..|header|] + text[|header|..];
    }
  }
}
