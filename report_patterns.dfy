/**
 * The three `re.search` patterns of the element-descriptor report
 * (sasutils/ses.py): the section header, the metric line and the status line.
 * As in ScalarPatterns, each matcher returns match positions, a ghost predicate
 * says which positions form a match, and lemmas prove that a match is found
 * whenever one exists and that the one returned is Python's: the leftmost start,
 * and at that start the choices of its greedy quantifiers.
 */
module ReportPatterns {
  import opened Wrappers
  import opened Text

  const ElementTypeLabel := "Element type:"
  const StatusLabel := "status:"

  // ---------------------------------------------------------------------------
  // re.search(r'([^\[]+)\[.*\][\s,]*Element type:\s*(.+)', line)
  // ---------------------------------------------------------------------------

  /** Positions of a header match: group 1 is `[start, open)`, `[` is at `open`, the `]`
      matched after `.*` at `close`, the label at `labelAt`, group 2 is `[typeStart, typeEnd)`. */
  datatype HeaderPos = HeaderPos(start: nat, open: nat, close: nat, labelAt: nat, typeStart: nat, typeEnd: nat)

  /** `[\s,]*Element type:\s*(.+)` at `q`, with the label at `l` and group 2 at `[u, v)`. */
  ghost predicate TailAt(line: string, q: int, l: int, u: int, v: int) {
    AllIn(line, q, l, IsSpaceOrComma) && StartsAt(line, l, ElementTypeLabel) &&
    AllIn(line, l + |ElementTypeLabel|, u, IsSpace) && u < v && AllIn(line, u, v, NotNewline)
  }

  ghost predicate HeaderAt(line: string, h: HeaderPos) {
    h.start < h.open && AllIn(line, h.start, h.open, NotOpenBracket) &&
    h.open < |line| && line[h.open] == '[' &&
    AllIn(line, h.open + 1, h.close, NotNewline) && h.close < |line| && line[h.close] == ']' &&
    TailAt(line, h.close + 1, h.labelAt, h.typeStart, h.typeEnd)
  }

  /** Python's preference: the leftmost start, then the longest `.*`, then the longest
      `\s*`, then the longest `(.+)` (group 1 and `[\s,]*` have no choice). */
  ghost predicate HeaderPrefers(a: HeaderPos, b: HeaderPos) {
    a.start < b.start ||
    (a.start == b.start &&
      (a.close > b.close ||
        (a.close == b.close &&
          (a.typeStart > b.typeStart || (a.typeStart == b.typeStart && a.typeEnd >= b.typeEnd)))))
  }

  /** `[\s,]*Element type:\s*(.+)` anchored at `q`: the label position and group 2. */
  function MatchTail(line: string, q: nat): (r: Option<(nat, nat, nat)>)
    requires q <= |line|
    ensures r.Some? ==> TailAt(line, q, r.value.0, r.value.1, r.value.2)
    ensures r.Some? ==> r.value.2 == |line| || !NotNewline(line[r.value.2])
  {
    var l := Span(line, q, IsSpaceOrComma);
    if StartsAt(line, l, ElementTypeLabel) then
      match SpacesThenRun(line, l + |ElementTypeLabel|, NotNewline)
      case Some((u, v)) => Some((l, u, v))
      case None => None
    else
      None
  }

  /** The tail matcher found the label at `l` and a match at least as preferred as group 2 at `[u, v)`. */
  predicate TailPrefers(m: Option<(nat, nat, nat)>, l: int, u: int, v: int) {
    m.Some? && m.value.0 == l && (m.value.1 > u || (m.value.1 == u && m.value.2 >= v))
  }

  lemma MatchTailComplete(line: string, q: nat, l: int, u: int, v: int)
    requires q <= |line| && TailAt(line, q, l, u, v)
    ensures TailPrefers(MatchTail(line, q), l, u, v)
  {
    StartsAtChar(line, l, ElementTypeLabel, 0);
    SpanIs(line, q, IsSpaceOrComma, l);
    var t := l + |ElementTypeLabel|;
    assert RunStartsAt(line, t, u, NotNewline);
    var r := SpacesThenRun(line, t, NotNewline);
    if r.value.0 == u {
      SpanCovers(line, u, NotNewline, v);
    }
  }

  /** Where `.*\]` stopped and what the tail after it matched. */
  datatype CloseMatch = CloseMatch(close: nat, labelAt: nat, typeStart: nat, typeEnd: nat)

  /** The backtracking of `.*\]` after the `[`: `.*` first runs from `j` to the end of
      the line, then gives back characters until a `]` follows after which the tail
      matches. */
  function LastClose(line: string, j: nat): (r: Option<CloseMatch>)
    requires j <= |line|
    ensures r.Some? ==> j <= r.value.close < Span(line, j, NotNewline) && line[r.value.close] == ']'
    ensures r.Some? ==> MatchTail(line, r.value.close + 1) == Some((r.value.labelAt, r.value.typeStart, r.value.typeEnd))
  {
    match LastBelow(ClosesTail(line), j, Span(line, j, NotNewline))
    case Some(c) =>
      var t := MatchTail(line, c + 1).value;
      Some(CloseMatch(c, t.0, t.1, t.2))
    case None => None
  }

  /** The `]` positions after which the tail matches. */
  function ClosesTail(line: string): nat -> bool {
    (c: nat) => c < |line| && line[c] == ']' && MatchTail(line, c + 1).Some?
  }

  /** The backtracking stops at or after any `]` after which the tail matches. */
  lemma LastCloseComplete(line: string, j: nat, c: nat)
    requires j <= c < |line| && AllIn(line, j, c + 1, NotNewline)
    requires line[c] == ']' && MatchTail(line, c + 1).Some?
    ensures LastClose(line, j).Some? && LastClose(line, j).value.close >= c
  {
    SpanCovers(line, j, NotNewline, c + 1);
    assert ClosesTail(line)(c);
  }

  /** `i` is the line start or follows a `[`: no match of group 1 can start earlier and end at the same place. */
  predicate AfterBracket(line: string, i: nat) {
    i == 0 || (i <= |line| && line[i - 1] == '[')
  }

  /** Start of the run of non-`[` characters that ends at `k`: where group 1 starts. */
  function RunStart(line: string, k: nat): (r: nat)
    requires k <= |line|
    ensures r <= k && AllIn(line, r, k, NotOpenBracket) && AfterBracket(line, r)
    decreases k
  {
    if k == 0 || line[k - 1] == '[' then k else RunStart(line, k - 1)
  }

  /** The header whose group 1 ends at the `[` at `k`: `.*\]` backtracks from the end of
      the line, and group 1 reaches back to the previous `[` or the line start. */
  function OpenAt(line: string, k: nat): (r: Option<HeaderPos>)
    requires 0 < k < |line| && line[k] == '[' && line[k - 1] != '['
    ensures r.Some? ==> HeaderAt(line, r.value) && r.value.open == k
    ensures r.Some? ==> AfterBracket(line, r.value.start)
    ensures r.Some? ==> r.value.typeEnd == |line| || !NotNewline(line[r.value.typeEnd])
  {
    match LastClose(line, k + 1)
    case Some(t) =>
      var start := RunStart(line, k);
      assert start == RunStart(line, k - 1);
      HeaderOfParts(line, start, k, t);
      Some(HeaderPos(start, k, t.close, t.labelAt, t.typeStart, t.typeEnd))
    case None => None
  }

  /** Group 1 up to the `[` at `k`, then what `LastClose` found, is a header match. */
  lemma HeaderOfParts(line: string, start: nat, k: nat, t: CloseMatch)
    requires start < k < |line| && AllIn(line, start, k, NotOpenBracket) && line[k] == '['
    requires k + 1 <= t.close < |line| && line[t.close] == ']' && AllIn(line, k + 1, t.close, NotNewline)
    requires TailAt(line, t.close + 1, t.labelAt, t.typeStart, t.typeEnd)
    ensures HeaderAt(line, HeaderPos(start, k, t.close, t.labelAt, t.typeStart, t.typeEnd))
  {
  }

  /** Group 1 `([^\[]+)` always ends at the first `[` after its start, so the search
      over starts is a search over such `[`: the earliest `[` at or after `k` that follows
      a non-`[` character and after which the rest matches. */
  function OpenFrom(line: string, k: nat): (r: Option<HeaderPos>)
    requires k <= |line|
    ensures r.Some? ==> HeaderAt(line, r.value) && k <= r.value.open
    ensures r.Some? ==> AfterBracket(line, r.value.start)
    ensures r.Some? ==> r.value.typeEnd == |line| || !NotNewline(line[r.value.typeEnd])
    decreases |line| - k
  {
    if k == |line| then
      None
    else if line[k] == '[' && 0 < k && line[k - 1] != '[' && OpenAt(line, k).Some? then
      OpenAt(line, k)
    else
      OpenFrom(line, k + 1)
  }

  lemma {:induction false} OpenFromComplete(line: string, k: nat, h: HeaderPos)
    requires k <= h.open && HeaderAt(line, h)
    ensures OpenFrom(line, k).Some? && HeaderPrefers(OpenFrom(line, k).value, h)
    decreases |line| - k
  {
    if k == h.open {
      OpenAtGroupEnd(line, h);
    } else {
      OpenFromStep(line, k);
      if OpenFrom(line, k) == OpenFrom(line, k + 1) {
        OpenFromComplete(line, k + 1, h);
      } else {
        BracketBeforeGroup(line, k, h.start, h.open);
      }
    }
  }

  /** A `[` before the end of group 1 lies before its start. */
  lemma BracketBeforeGroup(line: string, k: nat, start: nat, open: nat)
    requires k < open && k < |line| && line[k] == '[' && AllIn(line, start, open, NotOpenBracket)
    ensures k < start
  {
  }

  /** One step of the search over `[` positions: it either stops at `k` or moves on. */
  lemma OpenFromStep(line: string, k: nat)
    requires k < |line|
    ensures OpenFrom(line, k) == OpenFrom(line, k + 1) ||
      (line[k] == '[' && OpenFrom(line, k).Some? && OpenFrom(line, k).value.start <= k)
  {
  }

  /** The search reaches the `[` that ends group 1 of a match and stops there with a match
      at least as preferred. */
  lemma OpenAtGroupEnd(line: string, h: HeaderPos)
    requires HeaderAt(line, h)
    ensures OpenFrom(line, h.open).Some? && HeaderPrefers(OpenFrom(line, h.open).value, h)
  {
    OpenAtComplete(line, h);
    OpenFromAt(line, h.open);
  }

  lemma OpenFromAt(line: string, k: nat)
    requires 0 < k < |line| && line[k] == '[' && line[k - 1] != '[' && OpenAt(line, k).Some?
    ensures OpenFrom(line, k) == OpenAt(line, k)
  {
  }

  /** `OpenAt` is preferred to `h` when its group 1 starts no later and `t`, what
      `LastClose` found, is preferred to `h`'s `]` and tail. */
  lemma OpenAtPrefers(line: string, k: nat, t: CloseMatch, h: HeaderPos)
    requires 0 < k < |line| && line[k] == '[' && line[k - 1] != '['
    requires LastClose(line, k + 1) == Some(t) && RunStart(line, k) <= h.start
    requires t.close > h.close ||
      (t.close == h.close && (t.typeStart > h.typeStart || (t.typeStart == h.typeStart && t.typeEnd >= h.typeEnd)))
    ensures OpenAt(line, k).Some? && HeaderPrefers(OpenAt(line, k).value, h)
  {
  }

  lemma OpenAtComplete(line: string, h: HeaderPos)
    requires HeaderAt(line, h)
    ensures 0 < h.open && line[h.open - 1] != '['
    ensures OpenAt(line, h.open).Some? && HeaderPrefers(OpenAt(line, h.open).value, h)
  {
    var k := h.open;
    assert 0 < k && line[k - 1] != '[';
    var t := CloseOfMatch(line, k, h.close, h.labelAt, h.typeStart, h.typeEnd);
    RunStartIsLeast(line, k, h.start);
    OpenAtPrefers(line, k, t, h);
  }

  /** What `.*\]` and the tail find after the `[` at `k`, compared with a `]` at `c`
      followed by a tail with group 2 at `[u, v)`. */
  lemma CloseOfMatch(line: string, k: nat, c: nat, l: int, u: int, v: int) returns (t: CloseMatch)
    requires k < c < |line| && AllIn(line, k + 1, c, NotNewline) && line[c] == ']'
    requires TailAt(line, c + 1, l, u, v)
    ensures LastClose(line, k + 1) == Some(t)
    ensures t.close > c || (t.close == c && (t.typeStart > u || (t.typeStart == u && t.typeEnd >= v)))
  {
    assert AllIn(line, k + 1, c + 1, NotNewline);
    MatchTailComplete(line, c + 1, l, u, v);
    t := CloseAtLeast(line, k + 1, c, l, u, v);
  }

  /** `LastClose` stops at or after a `]` whose tail matches, and when it stops there its
      tail is the one the tail matcher prefers. */
  lemma CloseAtLeast(line: string, j: nat, c: nat, l: int, u: int, v: int) returns (t: CloseMatch)
    requires j <= c < |line| && AllIn(line, j, c + 1, NotNewline)
    requires line[c] == ']' && TailPrefers(MatchTail(line, c + 1), l, u, v)
    ensures LastClose(line, j) == Some(t)
    ensures t.close > c || (t.close == c && (t.typeStart > u || (t.typeStart == u && t.typeEnd >= v)))
  {
    LastCloseComplete(line, j, c);
    t := LastClose(line, j).value;
  }

  lemma {:induction false} RunStartIsLeast(line: string, k: nat, i: nat)
    requires i <= k <= |line| && AllIn(line, i, k, NotOpenBracket)
    ensures RunStart(line, k) <= i
    decreases k
  {
    if k != 0 && line[k - 1] != '[' && i < k {
      RunStartIsLeast(line, k - 1, i);
    }
  }

  function MatchHeader(line: string): (r: Option<HeaderPos>)
    ensures r.Some? ==> HeaderAt(line, r.value)
  {
    OpenFrom(line, 0)
  }

  /** Every header match is found, and the one returned is the one Python prefers. */
  lemma MatchHeaderComplete(line: string, h: HeaderPos)
    requires HeaderAt(line, h)
    ensures MatchHeader(line).Some? && HeaderPrefers(MatchHeader(line).value, h)
  {
    OpenFromComplete(line, 0, h);
  }

  /** `h` is the match `re.search` returns: a match preferred to every other one. */
  ghost predicate HeaderChosen(line: string, h: HeaderPos) {
    HeaderAt(line, h) && forall h' :: HeaderAt(line, h') ==> HeaderPrefers(h, h')
  }

  /** The matcher succeeds exactly when the pattern matches, and then returns Python's match. */
  lemma MatchHeaderChosen(line: string)
    ensures MatchHeader(line).Some? <==> exists h :: HeaderAt(line, h)
    ensures MatchHeader(line).Some? ==> HeaderChosen(line, MatchHeader(line).value)
  {
    if h :| HeaderAt(line, h) {
      MatchHeaderComplete(line, h);
    }
    if MatchHeader(line).Some? {
      forall h | HeaderAt(line, h)
        ensures HeaderPrefers(MatchHeader(line).value, h)
      {
        MatchHeaderComplete(line, h);
      }
    }
  }

  // ---------------------------------------------------------------------------
  // re.search(r'(\w+)[:=]\s*([-+]*[0-9]+(\.[0-9]+)?)\s+(\w+)', line)
  // ---------------------------------------------------------------------------

  /** Positions of a metric match: key `[start, sep)`, separator at `sep`, value
      `[numStart, numEnd)` made of signs `[numStart, digitsStart)`, digits
      `[digitsStart, intEnd)` and an optional fraction, unit `[unitStart, unitEnd)`. */
  datatype MetricPos = MetricPos(
    start: nat, sep: nat, numStart: nat, digitsStart: nat, intEnd: nat, numEnd: nat,
    unitStart: nat, unitEnd: nat)

  ghost predicate MetricAt(line: string, m: MetricPos) {
    m.start < m.sep && AllIn(line, m.start, m.sep, IsWordChar) &&
    m.sep < |line| && IsSeparator(line[m.sep]) &&
    AllIn(line, m.sep + 1, m.numStart, IsSpace) &&
    NumberAt(line, m.numStart, m.digitsStart, m.intEnd, m.numEnd) &&
    UnitAt(line, m.numEnd, m.unitStart, m.unitEnd)
  }

  /** `[-+]*[0-9]+(\.[0-9]+)?` at `[b, c)`: signs `[b, p)`, digits `[p, q)`, then the fraction if `c != q`. */
  ghost predicate NumberAt(line: string, b: int, p: int, q: int, c: int) {
    AllIn(line, b, p, IsSign) && p < q && AllIn(line, p, q, IsDigit) &&
    (c == q || (q < |line| && line[q] == '.' && q + 1 < c && AllIn(line, q + 1, c, IsDigit)))
  }

  /** `\s+(\w+)` at `c`: whitespace `[c, d)`, unit `[d, e)`. */
  ghost predicate UnitAt(line: string, c: int, d: int, e: int) {
    c < d && AllIn(line, c, d, IsSpace) && d < e && AllIn(line, d, e, IsWordChar)
  }

  /** `\s+(\w+)` anchored at `c`; both runs are greedy and the first is forced. */
  function MatchUnit(line: string, c: nat): (r: Option<(nat, nat)>)
    requires c <= |line|
    ensures r.Some? ==> UnitAt(line, c, r.value.0, r.value.1)
    ensures r.Some? ==> r.value.1 == |line| || !IsWordChar(line[r.value.1])
  {
    var d := Span(line, c, IsSpace);
    var e := Span(line, d, IsWordChar);
    if c < d && d < e then Some((d, e)) else None
  }

  lemma MatchUnitComplete(line: string, c: nat, d: int, e: int)
    requires c <= |line| && UnitAt(line, c, d, e)
    ensures MatchUnit(line, c).Some? && MatchUnit(line, c).value.0 == d && MatchUnit(line, c).value.1 >= e
  {
    WordCharIsNotSpace(line[d]);
    SpanIs(line, c, IsSpace, d);
    SpanCovers(line, d, IsWordChar, e);
  }

  /** The number anchored at `b`, as Python reads it when `\s+` must follow: signs and
      integer digits are greedy, and the fraction is taken when a digit follows the dot. */
  function MatchNumber(line: string, b: nat): (r: Option<(nat, nat, nat)>)
    requires b <= |line|
    ensures r.Some? ==> NumberAt(line, b, r.value.0, r.value.1, r.value.2)
  {
    var p := Span(line, b, IsSign);
    var q := Span(line, p, IsDigit);
    if p < q then
      var c := if q + 1 < |line| && line[q] == '.' && IsDigit(line[q + 1]) then Span(line, q + 1, IsDigit) else q;
      Some((p, q, c))
    else
      None
  }

  /** A number followed by whitespace is the one `MatchNumber` reads. */
  lemma MatchNumberComplete(line: string, b: nat, p: int, q: int, c: int, d: int, e: int)
    requires b <= |line| && NumberAt(line, b, p, q, c) && UnitAt(line, c, d, e)
    ensures MatchNumber(line, b) == Some((p, q, c))
  {
    SpanIs(line, b, IsSign, p);
    assert q < |line| && !IsDigit(line[q]);
    SpanIs(line, p, IsDigit, q);
    if c != q {
      SpanIs(line, q + 1, IsDigit, c);
    }
  }

  /** The pattern anchored at `i` (one step of `re.search`). Every quantifier but the
      last `\w+` is forced, so at most one attempt succeeds per start. */
  function MetricAttempt(line: string, i: nat): (r: Option<MetricPos>)
    requires i <= |line|
    ensures r.Some? ==> MetricAt(line, r.value) && r.value.start == i
    ensures r.Some? ==> r.value.unitEnd == |line| || !IsWordChar(line[r.value.unitEnd])
  {
    var k := Span(line, i, IsWordChar);
    if i < k && k < |line| && IsSeparator(line[k]) then AfterSeparator(line, i, k) else None
  }

  /** The rest of the pattern once the key `[i, k)` and the separator at `k` are read. */
  function AfterSeparator(line: string, i: nat, k: nat): (r: Option<MetricPos>)
    requires i < k < |line| && AllIn(line, i, k, IsWordChar) && IsSeparator(line[k])
    ensures r.Some? ==> MetricAt(line, r.value) && r.value.start == i && r.value.sep == k
    ensures r.Some? ==> r.value.unitEnd == |line| || !IsWordChar(line[r.value.unitEnd])
  {
    var b := Span(line, k + 1, IsSpace);
    match MatchNumber(line, b)
    case None => None
    case Some((p, q, c)) =>
      match MatchUnit(line, c)
      case None => None
      case Some((d, e)) => Some(MetricPos(i, k, b, p, q, c, d, e))
  }

  /** A match at `m.start` is the attempt there, up to the length of the unit. */
  lemma MetricAttemptComplete(line: string, m: MetricPos)
    requires MetricAt(line, m)
    ensures MetricAttempt(line, m.start).Some?
    ensures var a := MetricAttempt(line, m.start).value;
      a.sep == m.sep && a.numStart == m.numStart && a.digitsStart == m.digitsStart &&
      a.intEnd == m.intEnd && a.numEnd == m.numEnd && a.unitStart == m.unitStart &&
      a.unitEnd >= m.unitEnd
  {
    SpanIs(line, m.start, IsWordChar, m.sep);
    AfterSeparatorComplete(line, m);
  }

  lemma AfterSeparatorComplete(line: string, m: MetricPos)
    requires MetricAt(line, m)
    ensures AfterSeparator(line, m.start, m.sep).Some?
    ensures var a := AfterSeparator(line, m.start, m.sep).value;
      a.numStart == m.numStart && a.digitsStart == m.digitsStart &&
      a.intEnd == m.intEnd && a.numEnd == m.numEnd && a.unitStart == m.unitStart &&
      a.unitEnd >= m.unitEnd
  {
    LeadingSpacesEnd(line, m);
    MatchNumberComplete(line, m.numStart, m.digitsStart, m.intEnd, m.numEnd, m.unitStart, m.unitEnd);
    MatchUnitComplete(line, m.numEnd, m.unitStart, m.unitEnd);
    AfterSeparatorIs(line, m.start, m.sep, m.numStart, m.digitsStart, m.intEnd, m.numEnd,
      m.unitStart, MatchUnit(line, m.numEnd).value.1);
  }

  /** `AfterSeparator` returns what its three matchers read. */
  lemma AfterSeparatorIs(line: string, i: nat, k: nat, b: nat, p: nat, q: nat, c: nat, d: nat, e: nat)
    requires i < k < |line| && AllIn(line, i, k, IsWordChar) && IsSeparator(line[k])
    requires Span(line, k + 1, IsSpace) == b && b <= |line| && MatchNumber(line, b) == Some((p, q, c))
    requires c <= |line| && MatchUnit(line, c) == Some((d, e))
    ensures AfterSeparator(line, i, k) == Some(MetricPos(i, k, b, p, q, c, d, e))
  {
  }

  /** The `\s*` after the separator stops where the number starts. */
  lemma LeadingSpacesEnd(line: string, m: MetricPos)
    requires MetricAt(line, m)
    ensures Span(line, m.sep + 1, IsSpace) == m.numStart
  {
    assert NumberAt(line, m.numStart, m.digitsStart, m.intEnd, m.numEnd);
    if m.numStart < m.digitsStart {
      assert IsSign(line[m.numStart]);
    } else {
      assert IsDigit(line[m.numStart]);
    }
    SignOrDigitIsNotSpace(line[m.numStart]);
    SpanIs(line, m.sep + 1, IsSpace, m.numStart);
  }

  /** `re.search`: the attempts at `0`, `1`, ... in turn; the first success is the match. */
  function MatchMetric(line: string): (r: Option<MetricPos>)
    ensures r.Some? ==> MetricAt(line, r.value)
    ensures r.Some? ==> r.value.unitEnd == |line| || !IsWordChar(line[r.value.unitEnd])
  {
    match FirstFrom(MetricStartsAt(line), 0, |line|)
    case Some(j) => MetricAttempt(line, j)
    case None => None
  }

  /** The starts where the attempt succeeds. */
  function MetricStartsAt(line: string): nat -> bool {
    (j: nat) => j <= |line| && MetricAttempt(line, j).Some?
  }

  /** The search stops no later than the start of any match. */
  lemma MatchMetricLeftmost(line: string, m: MetricPos)
    requires MetricAt(line, m)
    ensures MatchMetric(line).Some? && MatchMetric(line).value.start <= m.start
  {
    MetricAttemptComplete(line, m);
    assert MetricStartsAt(line)(m.start);
  }

  /** Two matches at the same start agree on every position but the end of the unit. */
  lemma MetricForced(line: string, a: MetricPos, m: MetricPos)
    requires MetricAt(line, a) && MetricAt(line, m) && a.start == m.start
    ensures a.sep == m.sep && a.numStart == m.numStart && a.numEnd == m.numEnd && a.unitStart == m.unitStart
  {
    MetricAttemptComplete(line, a);
    MetricAttemptComplete(line, m);
  }

  /** Every metric match is found; Python's is at the leftmost start, and at that start
      every position but the end of the unit is forced and the unit is the longest. */
  lemma MatchMetricComplete(line: string, m: MetricPos)
    requires MetricAt(line, m)
    ensures MatchMetric(line).Some? && MetricPrefers(MatchMetric(line).value, m)
  {
    MatchMetricLeftmost(line, m);
    var a := MatchMetric(line).value;
    if a.start == m.start {
      MetricForced(line, a, m);
      SpanIs(line, a.unitStart, IsWordChar, a.unitEnd);
      SpanCovers(line, a.unitStart, IsWordChar, m.unitEnd);
    }
  }

  /** Python's preference: the leftmost start; at one start every position but the end
      of the unit is forced, and the unit is the longest. */
  ghost predicate MetricPrefers(a: MetricPos, b: MetricPos) {
    a.start < b.start ||
    (a.start == b.start && a.sep == b.sep && a.numStart == b.numStart && a.numEnd == b.numEnd &&
     a.unitStart == b.unitStart && a.unitEnd >= b.unitEnd)
  }

  /** `m` is the match `re.search` returns. */
  ghost predicate MetricChosen(line: string, m: MetricPos) {
    MetricAt(line, m) && forall m' :: MetricAt(line, m') ==> MetricPrefers(m, m')
  }

  /** The matcher succeeds exactly when the pattern matches, and then returns Python's match. */
  lemma MatchMetricChosen(line: string)
    ensures MatchMetric(line).Some? <==> exists m :: MetricAt(line, m)
    ensures MatchMetric(line).Some? ==> MetricChosen(line, MatchMetric(line).value)
  {
    if m :| MetricAt(line, m) {
      MatchMetricComplete(line, m);
    }
    if MatchMetric(line).Some? {
      forall m | MetricAt(line, m)
        ensures MetricPrefers(MatchMetric(line).value, m)
      {
        MatchMetricComplete(line, m);
      }
    }
  }

  /** The key found by `re.search` is a whole word: a match cannot start inside a word,
      since the same match shifted to the word's beginning would be found first. */
  lemma MetricKeyIsWholeWord(line: string)
    requires MatchMetric(line).Some?
    ensures var a := MatchMetric(line).value; a.start == 0 || !IsWordChar(line[a.start - 1])
  {
    var a := MatchMetric(line).value;
    if a.start > 0 && IsWordChar(line[a.start - 1]) {
      MetricExtendsLeft(line, a);
      MatchMetricLeftmost(line, a.(start := a.start - 1));
    }
  }

  /** A match whose key is preceded by a word character is also a match one place earlier. */
  lemma MetricExtendsLeft(line: string, a: MetricPos)
    requires MetricAt(line, a) && 0 < a.start && IsWordChar(line[a.start - 1])
    ensures MetricAt(line, a.(start := a.start - 1))
  {
  }

  // ---------------------------------------------------------------------------
  // re.search(r'status:\s*(.+)', line)
  // ---------------------------------------------------------------------------

  /** Positions of a status match: the label at `start`, the group at `[textStart, textEnd)`. */
  datatype StatusPos = StatusPos(start: nat, textStart: nat, textEnd: nat)

  ghost predicate StatusAt(line: string, m: StatusPos) {
    StartsAt(line, m.start, StatusLabel) &&
    AllIn(line, m.start + |StatusLabel|, m.textStart, IsSpace) &&
    m.textStart < m.textEnd && AllIn(line, m.textStart, m.textEnd, NotNewline)
  }

  /** Python's preference: the leftmost label, the longest `\s*`, the longest `(.+)`. */
  ghost predicate StatusPrefers(a: StatusPos, b: StatusPos) {
    a.start < b.start ||
    (a.start == b.start && (a.textStart > b.textStart || (a.textStart == b.textStart && a.textEnd >= b.textEnd)))
  }

  function StatusSearch(line: string, i: nat): (r: Option<StatusPos>)
    requires i <= |line|
    ensures r.Some? ==> StatusAt(line, r.value) && i <= r.value.start
    decreases |line| - i
  {
    if StartsAt(line, i, StatusLabel) && SpacesThenRun(line, i + |StatusLabel|, NotNewline).Some? then
      var (u, v) := SpacesThenRun(line, i + |StatusLabel|, NotNewline).value;
      Some(StatusPos(i, u, v))
    else if i == |line| then
      None
    else
      StatusSearch(line, i + 1)
  }

  lemma {:induction false} StatusSearchComplete(line: string, i: nat, m: StatusPos)
    requires i <= m.start && StatusAt(line, m)
    ensures StatusSearch(line, i).Some? && StatusPrefers(StatusSearch(line, i).value, m)
    decreases |line| - i
  {
    var t := m.start + |StatusLabel|;
    assert RunStartsAt(line, t, m.textStart, NotNewline);
    if StartsAt(line, i, StatusLabel) && SpacesThenRun(line, i + |StatusLabel|, NotNewline).Some? {
      if i == m.start {
        var r := SpacesThenRun(line, t, NotNewline);
        if r.value.0 == m.textStart {
          SpanCovers(line, m.textStart, NotNewline, m.textEnd);
        }
      }
    } else {
      assert i != m.start;
      StatusSearchComplete(line, i + 1, m);
    }
  }

  function MatchStatus(line: string): (r: Option<StatusPos>)
    ensures r.Some? ==> StatusAt(line, r.value)
  {
    StatusSearch(line, 0)
  }

  /** Every status match is found, and the one returned is the one Python prefers. */
  lemma MatchStatusComplete(line: string, m: StatusPos)
    requires StatusAt(line, m)
    ensures MatchStatus(line).Some? && StatusPrefers(MatchStatus(line).value, m)
  {
    StatusSearchComplete(line, 0, m);
  }

  /** `m` is the match `re.search` returns. */
  ghost predicate StatusChosen(line: string, m: StatusPos) {
    StatusAt(line, m) && forall m' :: StatusAt(line, m') ==> StatusPrefers(m, m')
  }

  /** The matcher succeeds exactly when the pattern matches, and then returns Python's match. */
  lemma MatchStatusChosen(line: string)
    ensures MatchStatus(line).Some? <==> exists m :: StatusAt(line, m)
    ensures MatchStatus(line).Some? ==> StatusChosen(line, MatchStatus(line).value)
  {
    if m :| StatusAt(line, m) {
      MatchStatusComplete(line, m);
    }
    if MatchStatus(line).Some? {
      forall m | StatusAt(line, m)
        ensures StatusPrefers(MatchStatus(line).value, m)
      {
        MatchStatusComplete(line, m);
      }
    }
  }

  /** On a line without line feeds (every line `splitlines()` yields), the status pattern
      matches exactly when `status:` occurs with at least one character after it. */
  lemma StatusMatchesIffLabelFollowed(line: string)
    requires forall j :: 0 <= j < |line| ==> line[j] != '\n'
    ensures MatchStatus(line).Some? <==> exists k :: StartsAt(line, k, StatusLabel) && k + |StatusLabel| < |line|
  {
    if k :| StartsAt(line, k, StatusLabel) && k + |StatusLabel| < |line| {
      var t := k + |StatusLabel|;
      var e := Span(line, t, IsSpace);
      if e < |line| {
        assert StatusAt(line, StatusPos(k, e, e + 1));
        MatchStatusComplete(line, StatusPos(k, e, e + 1));
      } else {
        assert StatusAt(line, StatusPos(k, |line| - 1, |line|));
        MatchStatusComplete(line, StatusPos(k, |line| - 1, |line|));
      }
    }
    if MatchStatus(line).Some? {
      var m := MatchStatus(line).value;
      assert StartsAt(line, m.start, StatusLabel) && m.start + |StatusLabel| < |line|;
    }
  }
}
