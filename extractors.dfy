/**
 * The two record generators over the element-descriptor report (sasutils/ses.py):
 * `ses_get_ed_metrics` and `ses_get_ed_status`. Each runs the report pattern on the
 * text of every item the scanner yields and builds one record where it matches.
 */
module EdRecords {
  import opened Wrappers
  import opened Text
  import opened ReportPatterns
  import opened EdScanner
  import opened Streams
  import opened Process

  /** A non-empty run of `\w`. */
  predicate IsWord(s: string) {
    |s| > 0 && forall i :: 0 <= i < |s| ==> IsWordChar(s[i])
  }

  /** The whole of `s` is `[-+]*[0-9]+(\.[0-9]+)?`. */
  ghost predicate IsNumeral(s: string) {
    exists p, q :: NumberAt(s, 0, p, q, |s|)
  }

  // ---------------------------------------------------------------------------
  // Metrics
  // ---------------------------------------------------------------------------

  datatype MetricRecord = MetricRecord(
    elementType: Option<string>, descriptor: Option<string>, key: string, value: string, unit: string)

  /** The record of one scanned item: groups 1, 2 and 4 of the match `re.search` returns,
      as text (the value keeps its signs and decimal point), with the item's context. */
  function MetricOf(t: Tagged): (r: Option<MetricRecord>)
    ensures r.Some? <==> MatchMetric(t.text).Some?
    ensures r.Some? <==> exists m :: MetricAt(t.text, m)
    ensures r.Some? ==> exists m :: (MetricChosen(t.text, m) &&
              r.value == MetricRecord(t.elementType, t.descriptor,
                t.text[m.start..m.sep], t.text[m.numStart..m.numEnd], t.text[m.unitStart..m.unitEnd]))
    ensures r.Some? ==> IsWord(r.value.key) && IsNumeral(r.value.value) && IsWord(r.value.unit)
  {
    MatchMetricChosen(t.text);
    match MatchMetric(t.text)
    case Some(m) =>
      GroupsOfMatch(t.text, m);
      Some(MetricRecord(t.elementType, t.descriptor,
        t.text[m.start..m.sep], t.text[m.numStart..m.numEnd], t.text[m.unitStart..m.unitEnd]))
    case None => None
  }

  /** Groups 1 and 4 of a metric match are words and group 2, taken on its own, is a numeral. */
  lemma GroupsOfMatch(line: string, m: MetricPos)
    requires MetricAt(line, m)
    ensures IsWord(line[m.start..m.sep]) && IsWord(line[m.unitStart..m.unitEnd])
    ensures IsNumeral(line[m.numStart..m.numEnd])
  {
    NumeralOfMatch(line, m);
  }

  lemma NumeralOfMatch(line: string, m: MetricPos)
    requires MetricAt(line, m)
    ensures IsNumeral(line[m.numStart..m.numEnd])
  {
    var v := line[m.numStart..m.numEnd];
    var p, q := m.digitsStart - m.numStart, m.intEnd - m.numStart;
    assert forall i :: 0 <= i < |v| ==> v[i] == line[m.numStart + i];
    assert NumberAt(v, 0, p, q, |v|);
  }

  /** `ses_get_ed_metrics` over the scanned items. */
  function Metrics(ts: seq<Tagged>): seq<MetricRecord> {
    FilterMap(ts, MetricOf)
  }

  /** Every item whose text matches yields its record, after those of the items before it. */
  lemma MetricsEntry(ts: seq<Tagged>, i: nat)
    requires i < |ts| && MatchMetric(ts[i].text).Some?
    ensures |Metrics(ts[..i])| < |Metrics(ts)| && Metrics(ts)[|Metrics(ts[..i])|] == MetricOf(ts[i]).value
  {
    FilterMapEntry(ts, MetricOf, i);
  }

  /** Every record comes from a matching item, with that item's context, in item order. */
  lemma MetricsOrigin(ts: seq<Tagged>, k: nat)
    requires k < |Metrics(ts)|
    ensures exists i ::
              0 <= i < |ts| && MetricOf(ts[i]) == Some(Metrics(ts)[k]) && |Metrics(ts[..i])| == k &&
              Metrics(ts)[k].elementType == ts[i].elementType && Metrics(ts)[k].descriptor == ts[i].descriptor
  {
    FilterMapOrigin(ts, MetricOf, k);
  }

  /** Skipping a non-matching item changes nothing, and the records of two runs of items
      are the records of the whole run. */
  lemma MetricsAppend(a: seq<Tagged>, b: seq<Tagged>)
    ensures Metrics(a + b) == Metrics(a) + Metrics(b)
  {
    FilterMapAppend(a, b, MetricOf);
  }

  /** Every record has a word key, a numeral value and a word unit. */
  lemma MetricsWellFormed(ts: seq<Tagged>)
    ensures forall k :: 0 <= k < |Metrics(ts)| ==>
      IsWord(Metrics(ts)[k].key) && IsNumeral(Metrics(ts)[k].value) && IsWord(Metrics(ts)[k].unit)
  {
    FilterMapAll(ts, MetricOf, WellFormedMetric);
  }

  ghost predicate WellFormedMetric(r: MetricRecord) {
    IsWord(r.key) && IsNumeral(r.value) && IsWord(r.unit)
  }

  /** `ses_get_ed_metrics`: the tool's standard error is only logged; a launch failure is not caught. */
  function EdMetrics(run: ToolRun): (r: Result<seq<MetricRecord>, Fault>)
    ensures run.LaunchFailed? <==> r == Failure(LaunchError)
    ensures run.Ran? ==> r == Success(Metrics(Scan(run.stdout))) && |r.value| <= |run.stdout|
  {
    match run
    case LaunchFailed => Failure(LaunchError)
    case Ran(out, _) => Success(Metrics(Scan(out)))
  }

  // ---------------------------------------------------------------------------
  // Status
  // ---------------------------------------------------------------------------

  datatype StatusRecord = StatusRecord(elementType: Option<string>, descriptor: Option<string>, status: string)

  /** The record of one scanned item: group 1 of the match `re.search` returns, every
      space made `_`, with the item's context. */
  function StatusOf(t: Tagged): (r: Option<StatusRecord>)
    ensures r.Some? <==> MatchStatus(t.text).Some?
    ensures r.Some? <==> exists m :: StatusAt(t.text, m)
    ensures r.Some? ==> exists m :: (StatusChosen(t.text, m) &&
              r.value == StatusRecord(t.elementType, t.descriptor, Replace(t.text[m.textStart..m.textEnd], ' ', '_')))
    ensures r.Some? ==> |r.value.status| > 0 && Lacks(r.value.status, ' ')
  {
    MatchStatusChosen(t.text);
    match MatchStatus(t.text)
    case Some(m) =>
      Some(StatusRecord(t.elementType, t.descriptor, Replace(t.text[m.textStart..m.textEnd], ' ', '_')))
    case None => None
  }

  /** A scanned text (which holds no line feed) yields a status record exactly when
      `status:` occurs in it with at least one character after it. */
  lemma StatusOfIff(t: Tagged)
    requires Lacks(t.text, '\n')
    ensures StatusOf(t).Some? <==> exists k :: StartsAt(t.text, k, StatusLabel) && k + |StatusLabel| < |t.text|
  {
    StatusMatchesIffLabelFollowed(t.text);
  }

  /** `ses_get_ed_status` over the scanned items. */
  function Statuses(ts: seq<Tagged>): seq<StatusRecord> {
    FilterMap(ts, StatusOf)
  }

  lemma StatusesEntry(ts: seq<Tagged>, i: nat)
    requires i < |ts| && MatchStatus(ts[i].text).Some?
    ensures |Statuses(ts[..i])| < |Statuses(ts)| && Statuses(ts)[|Statuses(ts[..i])|] == StatusOf(ts[i]).value
  {
    FilterMapEntry(ts, StatusOf, i);
  }

  lemma StatusesOrigin(ts: seq<Tagged>, k: nat)
    requires k < |Statuses(ts)|
    ensures exists i ::
              0 <= i < |ts| && StatusOf(ts[i]) == Some(Statuses(ts)[k]) && |Statuses(ts[..i])| == k &&
              Statuses(ts)[k].elementType == ts[i].elementType && Statuses(ts)[k].descriptor == ts[i].descriptor
  {
    FilterMapOrigin(ts, StatusOf, k);
  }

  lemma StatusesAppend(a: seq<Tagged>, b: seq<Tagged>)
    ensures Statuses(a + b) == Statuses(a) + Statuses(b)
  {
    FilterMapAppend(a, b, StatusOf);
  }

  /** `ses_get_ed_status`: standard error is only logged; a launch failure is not caught. */
  function EdStatus(run: ToolRun): (r: Result<seq<StatusRecord>, Fault>)
    ensures run.LaunchFailed? <==> r == Failure(LaunchError)
    ensures run.Ran? ==> r == Success(Statuses(Scan(run.stdout))) && |r.value| <= |run.stdout|
  {
    match run
    case LaunchFailed => Failure(LaunchError)
    case Ran(out, _) => Success(Statuses(Scan(out)))
  }

  // ---------------------------------------------------------------------------
  // The whole pipeline, line by line
  // ---------------------------------------------------------------------------

  /** A report line that is not a header candidate and whose stripped text matches the
      metric pattern gives a record with the context of the latest matched header before it. */
  lemma EdMetricsOfLine(out: seq<string>, i: nat, j: nat)
    requires i < |out| && !IsHeaderCandidate(out[i]) && MatchMetric(Strip(out[i])).Some?
    requires LatestHeader(out, i, j)
    ensures var k := Kept(out[..i]);
      k < |Scan(out)| && MetricOf(Scan(out)[k]).Some? &&
      MetricOf(Scan(out)[k]).value.elementType == HeaderContext(out[j]).value.elementType &&
      MetricOf(Scan(out)[k]).value.descriptor == HeaderContext(out[j]).value.descriptor
  {
    ScanEntry(out, i);
    ContextIsLatestHeader(out, i, j);
  }

  /** A report line that is not a header candidate and whose stripped text matches the
      status pattern gives a status record with the context of the latest matched header
      before it. */
  lemma EdStatusOfLine(out: seq<string>, i: nat, j: nat)
    requires i < |out| && !IsHeaderCandidate(out[i]) && MatchStatus(Strip(out[i])).Some?
    requires LatestHeader(out, i, j)
    ensures var k := Kept(out[..i]);
      k < |Scan(out)| && StatusOf(Scan(out)[k]).Some? &&
      StatusOf(Scan(out)[k]).value.elementType == HeaderContext(out[j]).value.elementType &&
      StatusOf(Scan(out)[k]).value.descriptor == HeaderContext(out[j]).value.descriptor
  {
    ScanEntry(out, i);
    ContextIsLatestHeader(out, i, j);
  }
}
