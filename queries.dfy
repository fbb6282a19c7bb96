/**
 * The one-shot queries of sasutils/ses.py: each loops over the lines of one tool run
 * and returns on the first line its pattern matches. Three of them raise as soon as
 * the tool printed anything on standard error; all four return `None` when the tool
 * could not be started.
 */
module Queries {
  import opened Wrappers
  import opened Text
  import opened ScalarPatterns
  import opened Streams
  import opened Process

  /** What a query that can raise gives: a fault, or its value or `None`. */
  type Outcome<T> = Result<Option<T>, Fault>

  // ---------------------------------------------------------------------------
  // ses_get_snic_nickname
  // ---------------------------------------------------------------------------

  /** Standard error is only logged, so only standard output decides. */
  function QueryNickname(run: ToolRun): (r: Option<string>)
    ensures run.LaunchFailed? ==> r.None?
    ensures run.Ran? ==> FirstSuccess(run.stdout, NicknameOf, r)
    ensures r.Some? ==> |r.value| > 0 && Lacks(r.value, ' ')
  {
    match run
    case LaunchFailed => None
    case Ran(out, _) => FindFirst(out, NicknameOf)
  }

  // ---------------------------------------------------------------------------
  // ses_get_enclosure_wwn_from_sg
  // ---------------------------------------------------------------------------

  /** The value returned for a matching line: the capture after `0x`. */
  function WwnOf(line: string): (r: Option<string>)
    ensures r.Some? <==> MatchWwn(line).Some?
    ensures r.Some? ==> |r.value| > 2 && r.value[..2] == "0x" && forall i :: 2 <= i < |r.value| ==> IsWordChar(r.value[i])
  {
    match WwnDigitsOf(line)
    case Some(d) => Some("0x" + d)
    case None => None
  }

  /** A WWN line gives `0x` followed by its word. */
  lemma WwnOfLine(lead: string, digits: string, eol: string)
    requires |lead| > 0 && forall i :: 0 <= i < |lead| ==> IsSpace(lead[i])
    requires |digits| > 0 && forall i :: 0 <= i < |digits| ==> IsWordChar(digits[i])
    requires eol == [] || eol == "\n"
    ensures WwnOf(lead + WwnLabel + digits + eol) == Some("0x" + digits)
  {
    WwnDigitsOfLine(lead, digits, eol);
  }

  function QueryEnclosureWwn(run: ToolRun): (r: Outcome<string>)
    ensures run.LaunchFailed? ==> r == Success(None)
    ensures run.Ran? && run.stderr != [] ==> r == Failure(ToolReportedError)
    ensures run.Ran? && run.stderr == [] ==> r.Success? && FirstSuccess(run.stdout, WwnOf, r.value)
    ensures r.Failure? ==> r.error == ToolReportedError
  {
    match run
    case LaunchFailed => Success(None)
    case Ran(out, err) => if err != [] then Failure(ToolReportedError) else Success(FindFirst(out, WwnOf))
  }

  // ---------------------------------------------------------------------------
  // ses_get_id_xyratex
  // ---------------------------------------------------------------------------

  /** The value returned for a matching line: the `[0-9]+` capture read by `int(_, 16)`. */
  function LedIdOf(line: string): (r: Option<nat>)
    ensures r.Some? <==> MatchLed(line, IsDigit).Some?
    ensures r.Some? ==> var d := LedFieldOf(line, IsDigit).value; AllHex(d) && r.value == ParseHex(d)
  {
    match LedFieldOf(line, IsDigit)
    case Some(d) => Some(ParseHex(d))
    case None => None
  }

  function QueryLedId(run: ToolRun): (r: Outcome<nat>)
    ensures run.LaunchFailed? ==> r == Success(None)
    ensures run.Ran? && run.stderr != [] ==> r == Failure(ToolReportedError)
    ensures run.Ran? && run.stderr == [] ==> r.Success? && FirstSuccess(run.stdout, LedIdOf, r.value)
    ensures r.Failure? ==> r.error == ToolReportedError
  {
    match run
    case LaunchFailed => Success(None)
    case Ran(out, err) => if err != [] then Failure(ToolReportedError) else Success(FindFirst(out, LedIdOf))
  }

  // ---------------------------------------------------------------------------
  // ses_get_enclosure_from_wwn
  // ---------------------------------------------------------------------------

  const EnclosureMarker := "enclosu"

  /** What the loop body does with one `lsscsi -g` line: go on (`None`), or end the
      call by returning a device or raising. `lookup` is the WWN query of a device. */
  function LineVerdict(line: string, wwn: string, lookup: string -> Outcome<string>): (r: Option<Outcome<string>>)
    ensures !Contains(line, EnclosureMarker) ==> r.None?
    ensures Contains(line, EnclosureMarker) && DeviceOf(line).None? ==> r == Some(Failure(NoDevicePath))
    ensures Contains(line, EnclosureMarker) && DeviceOf(line).Some? ==>
              var sg := DeviceOf(line).value;
              (lookup(sg).Failure? ==> r == Some(lookup(sg))) &&
              (lookup(sg) == Success(Some(wwn)) ==> r == Some(Success(Some(sg)))) &&
              (lookup(sg).Success? && lookup(sg).value != Some(wwn) ==> r.None?)
  {
    if !Contains(line, EnclosureMarker) then None
    else
      match DeviceOf(line)
      case None => Some(Failure(NoDevicePath))
      case Some(sg) =>
        match lookup(sg)
        case Failure(e) => Some(Failure(e))
        case Success(test) => if test == Some(wwn) then Some(Success(Some(sg))) else None
  }

  function Verdicts(wwn: string, lookup: string -> Outcome<string>): string -> Option<Outcome<string>> {
    line => LineVerdict(line, wwn, lookup)
  }

  /** The loop over the inventory lines; falling off the end returns `None`. */
  function Resolve(lines: seq<string>, wwn: string, lookup: string -> Outcome<string>): (r: Outcome<string>)
    ensures r.Success? && r.value.Some? ==> |r.value.value| > 2 && r.value.value[..2] == "sg"
    ensures r.Success? && r.value.Some? ==> forall i :: 2 <= i < |r.value.value| ==> IsDigit(r.value.value[i])
  {
    match FindFirst(lines, Verdicts(wwn, lookup))
    case Some(o) =>
      assert exists i :: 0 <= i < |lines| && Verdicts(wwn, lookup)(lines[i]) == Some(o);
      o
    case None => Success(None)
  }

  function QueryEnclosureFromWwn(run: ToolRun, wwn: string, lookup: string -> Outcome<string>): (r: Outcome<string>)
    ensures run.LaunchFailed? ==> r == Success(None)
    ensures run.Ran? && run.stderr != [] ==> r == Failure(ToolReportedError)
    ensures run.Ran? && run.stderr == [] ==> r == Resolve(run.stdout, wwn, lookup)
  {
    match run
    case LaunchFailed => Success(None)
    case Ran(out, err) => if err != [] then Failure(ToolReportedError) else Resolve(out, wwn, lookup)
  }

  /** The WWN query on each device, given what the tool prints for it. */
  function WwnLookup(tool: string -> ToolRun): string -> Outcome<string> {
    sg => QueryEnclosureWwn(tool(sg))
  }

  // ---------------------------------------------------------------------------
  // Properties of the resolver
  // ---------------------------------------------------------------------------

  /** The resolver returns the device of the first enclosure line whose WWN is the target,
      when no earlier line raised or matched. */
  lemma ResolveFinds(a: seq<string>, line: string, b: seq<string>, wwn: string, lookup: string -> Outcome<string>)
    requires forall k :: 0 <= k < |a| ==> LineVerdict(a[k], wwn, lookup).None?
    requires Contains(line, EnclosureMarker) && DeviceOf(line).Some? && lookup(DeviceOf(line).value) == Success(Some(wwn))
    ensures Resolve(a + [line] + b, wwn, lookup) == Success(Some(DeviceOf(line).value))
  {
    FindFirstStops(a, line, b, Verdicts(wwn, lookup));
  }

  /** A returned device is that of an enclosure line whose WWN is the target, and every
      enclosure line before it had a device whose WWN is another. */
  lemma ResolveReturnsMatch(lines: seq<string>, wwn: string, lookup: string -> Outcome<string>)
    requires Resolve(lines, wwn, lookup).Success? && Resolve(lines, wwn, lookup).value.Some?
    ensures exists i ::
              0 <= i < |lines| && Contains(lines[i], EnclosureMarker) &&
              DeviceOf(lines[i]) == Resolve(lines, wwn, lookup).value && lookup(DeviceOf(lines[i]).value) == Success(Some(wwn)) &&
              forall k :: 0 <= k < i ==> LineVerdict(lines[k], wwn, lookup).None?
  {
    var f := Verdicts(wwn, lookup);
    var i :| 0 <= i < |lines| && f(lines[i]) == FindFirst(lines, f) && forall k :: 0 <= k < i ==> f(lines[k]).None?;
    assert forall k :: 0 <= k < i ==> LineVerdict(lines[k], wwn, lookup) == f(lines[k]);
  }

  /** `None` means no enclosure line raised or had the target WWN. */
  lemma ResolveNone(lines: seq<string>, wwn: string, lookup: string -> Outcome<string>)
    ensures Resolve(lines, wwn, lookup) == Success(None) <==>
      forall k :: 0 <= k < |lines| ==> LineVerdict(lines[k], wwn, lookup).None?
  {
    var f := Verdicts(wwn, lookup);
    assert forall k :: 0 <= k < |lines| ==> LineVerdict(lines[k], wwn, lookup) == f(lines[k]);
  }

  /** An enclosure line without `/dev/sgN` makes the call raise, unless an earlier line ended it. */
  lemma ResolveRaisesOnMissingDevice(a: seq<string>, line: string, b: seq<string>, wwn: string, lookup: string -> Outcome<string>)
    requires forall k :: 0 <= k < |a| ==> LineVerdict(a[k], wwn, lookup).None?
    requires Contains(line, EnclosureMarker) && DeviceOf(line).None?
    ensures Resolve(a + [line] + b, wwn, lookup) == Failure(NoDevicePath)
  {
    FindFirstStops(a, line, b, Verdicts(wwn, lookup));
  }

  /** A failing WWN query of a device ends the call with the same failure. */
  lemma ResolvePropagatesLookupFailure(a: seq<string>, line: string, b: seq<string>, wwn: string, lookup: string -> Outcome<string>)
    requires forall k :: 0 <= k < |a| ==> LineVerdict(a[k], wwn, lookup).None?
    requires Contains(line, EnclosureMarker) && DeviceOf(line).Some? && lookup(DeviceOf(line).value).Failure?
    ensures Resolve(a + [line] + b, wwn, lookup) == lookup(DeviceOf(line).value)
  {
    FindFirstStops(a, line, b, Verdicts(wwn, lookup));
  }

  /** With the WWN query as the lookup: after lines that let the loop go on, an enclosure
      line whose device's run prints nothing on standard error and whose first WWN line
      gives the target makes the resolver return that device. */
  lemma ResolveByWwnQuery(a: seq<string>, line: string, b: seq<string>, wwn: string, tool: string -> ToolRun)
    requires forall k :: 0 <= k < |a| ==> LineVerdict(a[k], wwn, WwnLookup(tool)).None?
    requires Contains(line, EnclosureMarker) && DeviceOf(line).Some?
    requires tool(DeviceOf(line).value).Ran? && tool(DeviceOf(line).value).stderr == []
    requires FindFirst(tool(DeviceOf(line).value).stdout, WwnOf) == Some(wwn)
    ensures Resolve(a + [line] + b, wwn, WwnLookup(tool)) == Success(Some(DeviceOf(line).value))
  {
    ResolveFinds(a, line, b, wwn, WwnLookup(tool));
  }
}
