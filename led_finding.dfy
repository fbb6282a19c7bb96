/**
 * The LED-id query of sasutils/ses.py reads the last status byte of the vendor
 * specific element with `int(_, 16)`, but its pattern captures `[0-9]+`: a byte
 * with a hexadecimal letter loses that letter and everything after it. This module
 * exhibits the difference on every such byte and gives the corrected reading, a
 * capture of hexadecimal digits, with what it computes proved.
 */
module LedFinding {
  import opened Wrappers
  import opened Text
  import opened ScalarPatterns
  import opened Streams
  import opened Process
  import opened Queries

  /** A status line: leading whitespace, the label, a run of `Field`, then anything not
      in `Field`; the capture is exactly the run. */
  lemma LedFieldOfLine(lead: string, digits: string, rest: string, Field: char -> bool)
    requires |lead| > 0 && forall i :: 0 <= i < |lead| ==> IsSpace(lead[i])
    requires |digits| > 0 && forall i :: 0 <= i < |digits| ==> Field(digits[i])
    requires rest == [] || !Field(rest[0])
    ensures LedFieldOf(lead + LedLabel + digits + rest, Field) == Some(digits)
  {
    var line := lead + LedLabel + digits + rest;
    var a := |lead|;
    var t := a + |LedLabel|;
    var e := t + |digits|;
    assert line[a..t] == LedLabel;
    assert line[t..e] == digits;
    assert forall i :: 0 <= i < a ==> line[i] == lead[i];
    assert forall i :: t <= i < e ==> line[i] == digits[i - t];
    assert e < |line| ==> line[e] == rest[0];
    MatchLedComplete(line, LedPos(a, e), Field);
    SpanIs(line, t, Field, e);
  }

  /** `int(_, 16)` of two hexadecimal digits. */
  lemma ParseHexTwo(h1: char, h2: char)
    requires IsHexDigit(h1) && IsHexDigit(h2)
    ensures ParseHex([h1, h2]) == 16 * HexDigitValue(h1) + HexDigitValue(h2)
  {
    ParseHexOne(h1);
    assert [h1, h2][..1] == [h1];
    assert ParseHex([h1, h2]) == ParseHex([h1]) * 16 + HexDigitValue(h2);
  }

  /** `int(_, 16)` of one hexadecimal digit. */
  lemma ParseHexOne(h: char)
    requires IsHexDigit(h)
    ensures ParseHex([h]) == HexDigitValue(h)
  {
    assert [h][..0] == [];
    assert ParseHex([h]) == ParseHex([]) * 16 + HexDigitValue(h);
  }

  /** As written: a byte made of a decimal digit and a letter `a`-`f` reads as the digit
      alone, so `0a` (ten) reads as 0 and `1f` as 1. */
  lemma LedIdDropsHexLetter(d: char, x: char)
    requires IsDigit(d) && 'a' <= x <= 'f'
    ensures LedIdOf(" " + LedLabel + [d, x]) == Some(HexDigitValue(d))
    ensures HexDigitValue(d) != 16 * HexDigitValue(d) + HexDigitValue(x)
  {
    assert " " + LedLabel + [d, x] == " " + LedLabel + [d] + [x];
    LedFieldOfLine(" ", [d], [x], IsDigit);
    ParseHexOne(d);
  }

  /** The evidently intended reading: the capture is `[0-9a-fA-F]+`. */
  function LedIdOfCorrected(line: string): (r: Option<nat>)
    ensures r.Some? <==> MatchLed(line, IsHexDigit).Some?
    ensures r.Some? ==> var d := LedFieldOf(line, IsHexDigit).value; AllHex(d) && r.value == ParseHex(d)
  {
    match LedFieldOf(line, IsHexDigit)
    case Some(d) => Some(ParseHex(d))
    case None => None
  }

  /** Corrected: the two digits of the byte are read as one hexadecimal number, whatever
      they are, so `0a` reads as 10. */
  lemma LedIdCorrectedReadsByte(lead: string, h1: char, h2: char, rest: string)
    requires |lead| > 0 && forall i :: 0 <= i < |lead| ==> IsSpace(lead[i])
    requires IsHexDigit(h1) && IsHexDigit(h2) && (rest == [] || !IsHexDigit(rest[0]))
    ensures LedIdOfCorrected(lead + LedLabel + [h1, h2] + rest) == Some(16 * HexDigitValue(h1) + HexDigitValue(h2))
  {
    LedFieldOfLine(lead, [h1, h2], rest, IsHexDigit);
    ParseHexTwo(h1, h2);
  }

  /** Both readings agree on a byte of two decimal digits. */
  lemma LedIdReadingsAgreeOnDecimal(lead: string, d1: char, d2: char, rest: string)
    requires |lead| > 0 && forall i :: 0 <= i < |lead| ==> IsSpace(lead[i])
    requires IsDigit(d1) && IsDigit(d2) && (rest == [] || !IsHexDigit(rest[0]))
    ensures LedIdOf(lead + LedLabel + [d1, d2] + rest) == LedIdOfCorrected(lead + LedLabel + [d1, d2] + rest)
  {
    LedFieldOfLine(lead, [d1, d2], rest, IsDigit);
    LedFieldOfLine(lead, [d1, d2], rest, IsHexDigit);
  }

  /** `ses_get_id_xyratex` with the corrected reading. */
  function QueryLedIdCorrected(run: ToolRun): (r: Outcome<nat>)
    ensures run.LaunchFailed? ==> r == Success(None)
    ensures run.Ran? && run.stderr != [] ==> r == Failure(ToolReportedError)
    ensures run.Ran? && run.stderr == [] ==> r.Success? && FirstSuccess(run.stdout, LedIdOfCorrected, r.value)
  {
    match run
    case LaunchFailed => Success(None)
    case Ran(out, err) => if err != [] then Failure(ToolReportedError) else Success(FindFirst(out, LedIdOfCorrected))
  }
}
