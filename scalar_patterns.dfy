/**
 * The four anchored patterns of the scalar queries and of the enclosure resolver
 * (sasutils/ses.py), each written as an explicit matcher that returns the
 * positions of its match. Beside each matcher stands a ghost predicate saying
 * when positions form a match of the pattern at all; the lemmas prove that the
 * matcher finds a match exactly when one exists, and that it picks the one
 * Python's backtracking engine picks.
 */
module ScalarPatterns {
  import opened Wrappers
  import opened Text

  const NicknameLabel := "nickname:"
  const WwnLabel := "enclosure logical identifier (hex): "
  /** Written as two literals so that the verifier sees which character it starts with. */
  const LedLabel := "Vendor " + "specific element type, status in hex: 01 00 00 "
  const DevLabel := "/dev/sg"

  /** `\s+` before a label that does not start with whitespace ends exactly where the label starts. */
  lemma LeadIsForced(line: string, a: nat, lit: string)
    requires 1 <= a && AllIn(line, 0, a, IsSpace) && StartsAt(line, a, lit) && |lit| > 0 && !IsSpace(lit[0])
    ensures Span(line, 0, IsSpace) == a
  {
    StartsAtChar(line, a, lit, 0);
    SpanIs(line, 0, IsSpace, a);
  }

  // ---------------------------------------------------------------------------
  // re.match(r'\s+nickname:\s*([^ ]+)', line)
  // ---------------------------------------------------------------------------

  /** Positions of a nickname match: where the label starts, and the capture `[capStart, capEnd)`. */
  datatype NicknamePos = NicknamePos(labelAt: nat, capStart: nat, capEnd: nat)

  ghost predicate NicknameAt(line: string, m: NicknamePos) {
    1 <= m.labelAt && AllIn(line, 0, m.labelAt, IsSpace) && StartsAt(line, m.labelAt, NicknameLabel) &&
    m.capStart < m.capEnd && AllIn(line, m.labelAt + |NicknameLabel|, m.capStart, IsSpace) &&
    AllIn(line, m.capStart, m.capEnd, NotBlank)
  }

  /** Python's preference between two matches: the longer `\s*`, then the longer capture. */
  ghost predicate NicknamePrefers(a: NicknamePos, b: NicknamePos) {
    a.capStart > b.capStart || (a.capStart == b.capStart && a.capEnd >= b.capEnd)
  }

  function MatchNickname(line: string): (r: Option<NicknamePos>)
    ensures r.Some? ==> NicknameAt(line, r.value)
  {
    var a := Span(line, 0, IsSpace);
    if 1 <= a && StartsAt(line, a, NicknameLabel) then
      match SpacesThenRun(line, a + |NicknameLabel|, NotBlank)
      case Some((u, v)) => Some(NicknamePos(a, u, v))
      case None => None
    else
      None
  }

  /** Every match is found, and the one returned is the one Python prefers. */
  lemma MatchNicknameComplete(line: string, m: NicknamePos)
    requires NicknameAt(line, m)
    ensures MatchNickname(line).Some?
    ensures NicknamePrefers(MatchNickname(line).value, m)
  {
    LeadIsForced(line, m.labelAt, NicknameLabel);
    var t := m.labelAt + |NicknameLabel|;
    assert RunStartsAt(line, t, m.capStart, NotBlank);
    var r := SpacesThenRun(line, t, NotBlank);
    if r.value.0 == m.capStart {
      SpanCovers(line, m.capStart, NotBlank, m.capEnd);
    }
  }

  /** `m` is the match `re.match` returns. */
  ghost predicate NicknameChosen(line: string, m: NicknamePos) {
    NicknameAt(line, m) && forall m' :: NicknameAt(line, m') ==> NicknamePrefers(m, m')
  }

  /** The matcher succeeds exactly when the pattern matches, and then returns Python's match. */
  lemma MatchNicknameChosen(line: string)
    ensures MatchNickname(line).Some? <==> exists m :: NicknameAt(line, m)
    ensures MatchNickname(line).Some? ==> NicknameChosen(line, MatchNickname(line).value)
  {
    if m :| NicknameAt(line, m) {
      MatchNicknameComplete(line, m);
    }
    if MatchNickname(line).Some? {
      forall m | NicknameAt(line, m)
        ensures NicknamePrefers(MatchNickname(line).value, m)
      {
        MatchNicknameComplete(line, m);
      }
    }
  }

  /** The group `([^ ]+)` of the match `re.match` returns, or `None` when the pattern
      does not match the line. */
  function NicknameOf(line: string): (r: Option<string>)
    ensures r.Some? <==> exists m :: NicknameAt(line, m)
    ensures r.Some? ==> exists m :: (NicknameChosen(line, m) && r.value == line[m.capStart..m.capEnd])
    ensures r.Some? ==> |r.value| > 0 && forall i :: 0 <= i < |r.value| ==> r.value[i] != ' '
  {
    MatchNicknameChosen(line);
    match MatchNickname(line)
    case Some(m) => Some(line[m.capStart..m.capEnd])
    case None => None
  }

  /** A nickname line: leading whitespace, the label, optional whitespace, then a word
      that ends at a space or at the end of the line; the value is exactly the word. */
  lemma NicknameOfLine(lead: string, gap: string, word: string, rest: string)
    requires |lead| > 0 && forall i :: 0 <= i < |lead| ==> IsSpace(lead[i])
    requires forall i :: 0 <= i < |gap| ==> IsSpace(gap[i])
    requires |word| > 0 && !IsSpace(word[0]) && forall i :: 0 <= i < |word| ==> word[i] != ' '
    requires rest == [] || rest[0] == ' '
    ensures NicknameOf(lead + NicknameLabel + gap + word + rest) == Some(word)
  {
    var line := lead + NicknameLabel + gap + word + rest;
    var a, t := |lead|, |lead| + |NicknameLabel|;
    NicknameLineParts(lead, gap, word, rest);
    LeadIsForced(line, a, NicknameLabel);
    SpacesThenRunIs(line, t, t + |gap|, t + |gap| + |word|, NotBlank);
  }

  /** Where the parts of a nickname line lie. */
  lemma NicknameLineParts(lead: string, gap: string, word: string, rest: string)
    requires forall i :: 0 <= i < |lead| ==> IsSpace(lead[i])
    requires forall i :: 0 <= i < |gap| ==> IsSpace(gap[i])
    requires |word| > 0 && forall i :: 0 <= i < |word| ==> word[i] != ' '
    requires rest == [] || rest[0] == ' '
    ensures var line, a := lead + NicknameLabel + gap + word + rest, |lead|;
      var t := a + |NicknameLabel|;
      var u := t + |gap|;
      var v := u + |word|;
      AllIn(line, 0, a, IsSpace) && StartsAt(line, a, NicknameLabel) && AllIn(line, t, u, IsSpace) &&
      line[u] == word[0] && AllIn(line, u, v, NotBlank) && (v == |line| || line[v] == ' ')
  {
    var line := lead + NicknameLabel + gap + word + rest;
    var a := |lead|;
    var t := a + |NicknameLabel|;
    var u := t + |gap|;
    var v := u + |word|;
    assert line[a..t] == NicknameLabel;
    assert forall i :: 0 <= i < a ==> line[i] == lead[i];
    assert forall i :: t <= i < u ==> line[i] == gap[i - t];
    assert forall i :: u <= i < v ==> line[i] == word[i - u];
    assert v < |line| ==> line[v] == rest[0];
  }

  // ---------------------------------------------------------------------------
  // re.match(r'^\s+enclosure logical identifier \(hex\): (\w+)$', line)
  // ---------------------------------------------------------------------------

  /** Positions of a WWN match: where the label starts and where the capture ends. */
  datatype WwnPos = WwnPos(labelAt: nat, capEnd: nat)

  /** `$` holds at the end of the line and just before a final line feed. */
  ghost predicate WwnAt(line: string, m: WwnPos) {
    1 <= m.labelAt && AllIn(line, 0, m.labelAt, IsSpace) && StartsAt(line, m.labelAt, WwnLabel) &&
    m.labelAt + |WwnLabel| < m.capEnd && AllIn(line, m.labelAt + |WwnLabel|, m.capEnd, IsWordChar) &&
    (m.capEnd == |line| || (m.capEnd + 1 == |line| && line[m.capEnd] == '\n'))
  }

  function MatchWwn(line: string): (r: Option<WwnPos>)
    ensures r.Some? ==> WwnAt(line, r.value)
  {
    var a := Span(line, 0, IsSpace);
    if 1 <= a && StartsAt(line, a, WwnLabel) then
      var t := a + |WwnLabel|;
      var v := Span(line, t, IsWordChar);
      if t < v && (v == |line| || (v + 1 == |line| && line[v] == '\n')) then Some(WwnPos(a, v))
      else None
    else
      None
  }

  /** The pattern has at most one match, and the matcher finds it. */
  lemma MatchWwnComplete(line: string, m: WwnPos)
    requires WwnAt(line, m)
    ensures MatchWwn(line) == Some(m)
  {
    LeadIsForced(line, m.labelAt, WwnLabel);
    SpanIs(line, m.labelAt + |WwnLabel|, IsWordChar, m.capEnd);
  }

  /** The group `(\w+)` of the WWN pattern. */
  function WwnDigitsOf(line: string): (r: Option<string>)
    ensures r.Some? ==> |r.value| > 0 && forall i :: 0 <= i < |r.value| ==> IsWordChar(r.value[i])
  {
    match MatchWwn(line)
    case Some(m) => Some(line[m.labelAt + |WwnLabel|..m.capEnd])
    case None => None
  }

  /** A WWN line: leading whitespace, the label, a word, then nothing or one line feed;
      the value is exactly the word. */
  lemma WwnDigitsOfLine(lead: string, digits: string, eol: string)
    requires |lead| > 0 && forall i :: 0 <= i < |lead| ==> IsSpace(lead[i])
    requires |digits| > 0 && forall i :: 0 <= i < |digits| ==> IsWordChar(digits[i])
    requires eol == [] || eol == "\n"
    ensures WwnDigitsOf(lead + WwnLabel + digits + eol) == Some(digits)
  {
    var line := lead + WwnLabel + digits + eol;
    var a := |lead|;
    var t := a + |WwnLabel|;
    var e := t + |digits|;
    assert line[a..t] == WwnLabel;
    assert line[t..e] == digits;
    assert forall i :: 0 <= i < a ==> line[i] == lead[i];
    assert forall i :: t <= i < e ==> line[i] == digits[i - t];
    assert e < |line| ==> line[e] == '\n';
    MatchWwnComplete(line, WwnPos(a, e));
  }

  // ---------------------------------------------------------------------------
  // re.match(r'\s+Vendor specific element type, status in hex: 01 00 00 ([0-9]+)', line)
  // ---------------------------------------------------------------------------

  /** Positions of an LED-id match: where the label starts and where the capture ends. */
  datatype LedPos = LedPos(labelAt: nat, capEnd: nat)

  /** The capture is a non-empty run of `Field`; the source's pattern has `Field == IsDigit`. */
  ghost predicate LedAt(line: string, m: LedPos, Field: char -> bool) {
    1 <= m.labelAt && AllIn(line, 0, m.labelAt, IsSpace) && StartsAt(line, m.labelAt, LedLabel) &&
    m.labelAt + |LedLabel| < m.capEnd && AllIn(line, m.labelAt + |LedLabel|, m.capEnd, Field)
  }

  function MatchLed(line: string, Field: char -> bool): (r: Option<LedPos>)
    ensures r.Some? ==> LedAt(line, r.value, Field)
    ensures r.Some? ==> r.value.capEnd == |line| || !Field(line[r.value.capEnd])
  {
    var a := Span(line, 0, IsSpace);
    if 1 <= a && StartsAt(line, a, LedLabel) then
      var t := a + |LedLabel|;
      var v := Span(line, t, Field);
      if t < v then Some(LedPos(a, v)) else None
    else
      None
  }

  /** Every match is found; the label is where it must be and the capture is the longest. */
  lemma MatchLedComplete(line: string, m: LedPos, Field: char -> bool)
    requires LedAt(line, m, Field)
    ensures MatchLed(line, Field).Some?
    ensures MatchLed(line, Field).value.labelAt == m.labelAt && m.capEnd <= MatchLed(line, Field).value.capEnd
  {
    LeadIsForced(line, m.labelAt, LedLabel);
    SpanCovers(line, m.labelAt + |LedLabel|, Field, m.capEnd);
  }

  /** The group of the LED pattern, as a string of characters of `Field`. */
  function LedFieldOf(line: string, Field: char -> bool): (r: Option<string>)
    ensures r.Some? ==> |r.value| > 0 && forall i :: 0 <= i < |r.value| ==> Field(r.value[i])
  {
    match MatchLed(line, Field)
    case Some(m) => Some(line[m.labelAt + |LedLabel|..m.capEnd])
    case None => None
  }

  // ---------------------------------------------------------------------------
  // re.match(r'.*\/dev\/(sg\d+)', line)
  // ---------------------------------------------------------------------------

  /** Positions of a device match: where `/dev/sg` starts and where the capture ends. */
  datatype DevPos = DevPos(at: nat, capEnd: nat)

  ghost predicate DevAt(line: string, m: DevPos) {
    AllIn(line, 0, m.at, NotNewline) && StartsAt(line, m.at, DevLabel) &&
    m.at + |DevLabel| < m.capEnd && AllIn(line, m.at + |DevLabel|, m.capEnd, IsDigit)
  }

  /** Python's preference: the longest `.*`, then the longest digit run. */
  ghost predicate DevPrefers(a: DevPos, b: DevPos) {
    a.at > b.at || (a.at == b.at && a.capEnd >= b.capEnd)
  }

  function MatchDev(line: string): (r: Option<DevPos>)
    ensures r.Some? ==> DevAt(line, r.value)
  {
    LastDev(line, Span(line, 0, NotNewline))
  }

  /** The backtracking of `.*`: try `/dev/sg` at `e`, then at `e - 1`, down to the line start. */
  function LastDev(line: string, e: nat): (r: Option<DevPos>)
    requires e <= |line| && AllIn(line, 0, e, NotNewline)
    ensures r.Some? ==> DevAt(line, r.value) && r.value.at <= e
    ensures r.Some? ==> r.value.capEnd == |line| || !IsDigit(line[r.value.capEnd])
    decreases e
  {
    if StartsAt(line, e, DevLabel) && e + |DevLabel| < |line| && IsDigit(line[e + |DevLabel|]) then
      Some(DevPos(e, Span(line, e + |DevLabel|, IsDigit)))
    else if e == 0 then
      None
    else
      LastDev(line, e - 1)
  }

  lemma {:induction false} LastDevComplete(line: string, e: nat, m: DevPos)
    requires e <= |line| && AllIn(line, 0, e, NotNewline)
    requires DevAt(line, m) && m.at <= e
    ensures LastDev(line, e).Some? && DevPrefers(LastDev(line, e).value, m)
    decreases e
  {
    StartsAtChar(line, m.at, DevLabel, 0);
    if StartsAt(line, e, DevLabel) && e + |DevLabel| < |line| && IsDigit(line[e + |DevLabel|]) {
      if e == m.at {
        SpanCovers(line, e + |DevLabel|, IsDigit, m.capEnd);
      }
    } else {
      assert e != m.at;
      LastDevComplete(line, e - 1, m);
    }
  }

  /** Every match is found, and the one returned is the one Python prefers. */
  lemma MatchDevComplete(line: string, m: DevPos)
    requires DevAt(line, m)
    ensures MatchDev(line).Some? && DevPrefers(MatchDev(line).value, m)
  {
    SpanCovers(line, 0, NotNewline, m.at);
    LastDevComplete(line, Span(line, 0, NotNewline), m);
  }

  /** `m` is the match `re.match` returns. */
  ghost predicate DevChosen(line: string, m: DevPos) {
    DevAt(line, m) && forall m' :: DevAt(line, m') ==> DevPrefers(m, m')
  }

  /** The matcher succeeds exactly when the pattern matches, and then returns Python's match. */
  lemma MatchDevChosen(line: string)
    ensures MatchDev(line).Some? <==> exists m :: DevAt(line, m)
    ensures MatchDev(line).Some? ==> DevChosen(line, MatchDev(line).value)
  {
    if m :| DevAt(line, m) {
      MatchDevComplete(line, m);
    }
    if MatchDev(line).Some? {
      forall m | DevAt(line, m)
        ensures DevPrefers(MatchDev(line).value, m)
      {
        MatchDevComplete(line, m);
      }
    }
  }

  /** The `/dev/` in front of the group `(sg\d+)`. */
  const DevDir := "/dev/"

  /** The group `(sg\d+)` of the device pattern: the `sgN` of the last `/dev/sgN` on the
      line (the `.*` in front is greedy), with all of its digits. */
  function DeviceOf(line: string): (r: Option<string>)
    ensures r.Some? <==> exists m :: DevAt(line, m)
    ensures r.Some? ==> exists m :: DevChosen(line, m) && r.value == line[m.at + |DevDir|..m.capEnd]
    ensures r.Some? ==> |r.value| > 2 && r.value[..2] == "sg"
    ensures r.Some? ==> forall i :: 2 <= i < |r.value| ==> IsDigit(r.value[i])
  {
    MatchDevChosen(line);
    match MatchDev(line)
    case Some(m) =>
      var sg := line[m.at + |DevDir|..m.capEnd];
      assert sg[..2] == line[m.at + |DevDir|..m.at + |DevLabel|];
      assert line[m.at + |DevDir|..m.at + |DevLabel|] == line[m.at..m.at + |DevLabel|][|DevDir|..];
      assert forall i :: 2 <= i < |sg| ==> sg[i] == line[m.at + |DevDir| + i];
      Some(sg)
    case None => None
  }
}
