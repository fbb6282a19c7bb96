/**
 * The element-descriptor scanner `_ses_get_ed_line` (sasutils/ses.py): a walk over
 * the lines of `sg_ses --page=ed --join` that remembers the element type and the
 * descriptor of the latest section header and attaches them to every other line.
 *
 * `ScanElementDescriptors` is the loop itself. `Scan` and `ContextOf` say what it
 * computes after any number of lines, and the lemmas below characterise them
 * without recursion: which lines are emitted and where, and which header's context
 * each one carries.
 */
module EdScanner {
  import opened Wrappers
  import opened Text
  import opened ReportPatterns

  /** The scanner's state: the normalised element type and descriptor of the latest
      matched header, `None` for both before the first one. */
  datatype Context = Context(elementType: Option<string>, descriptor: Option<string>)

  const NoContext := Context(None, None)

  /** One item the scanner yields: the context at that line and the stripped line. */
  datatype Tagged = Tagged(elementType: Option<string>, descriptor: Option<string>, text: string)

  /** A context is either empty or both of its parts are normalised header texts. */
  predicate Settled(ctx: Context) {
    ctx == NoContext ||
    (ctx.elementType.Some? && ctx.descriptor.Some? &&
     Lacks(ctx.elementType.value, ' ') && Lacks(ctx.descriptor.value, ' ') && Lacks(ctx.descriptor.value, '.'))
  }

  // ---------------------------------------------------------------------------
  // Header lines
  // ---------------------------------------------------------------------------

  /** The cheap test in front of the header pattern: a non-empty line that does not
      start with a space and mentions `Element type:` somewhere. */
  predicate IsHeaderCandidate(line: string): (b: bool)
    ensures b <==> |line| > 0 && line[0] != ' ' && exists k :: StartsAt(line, k, ElementTypeLabel)
  {
    ContainsIff(line, ElementTypeLabel);
    |line| > 0 && line[0] != ' ' && Contains(line, ElementTypeLabel)
  }

  /** `group(2).strip().replace(' ', '_')` */
  function ElementTypeOf(group: string): (r: string)
    ensures Lacks(r, ' ')
    ensures exists lo, hi ::
              0 <= lo <= hi <= |group| && IsStripOf(group, lo, hi) && |r| == hi - lo &&
              forall i :: 0 <= i < |r| ==> r[i] == if group[lo + i] == ' ' then '_' else group[lo + i]
  {
    Replace(Strip(group), ' ', '_')
  }

  /** `group(1).strip().replace(' ', '_').replace('.', '_')` */
  function DescriptorOf(group: string): (r: string)
    ensures Lacks(r, ' ') && Lacks(r, '.')
    ensures exists lo, hi ::
              0 <= lo <= hi <= |group| && IsStripOf(group, lo, hi) && |r| == hi - lo &&
              forall i :: 0 <= i < |r| ==> r[i] == if group[lo + i] in {' ', '.'} then '_' else group[lo + i]
  {
    Replace(Replace(Strip(group), ' ', '_'), '.', '_')
  }

  /** The context a header line sets, when the header pattern matches it: group 2
      normalised as the element type, group 1 normalised as the descriptor, both taken
      from the match `re.search` returns. */
  function HeaderContext(line: string): (r: Option<Context>)
    ensures r.Some? <==> MatchHeader(line).Some?
    ensures r.Some? <==> exists h :: HeaderAt(line, h)
    ensures r.Some? ==> exists h :: (HeaderChosen(line, h) &&
              r.value == Context(Some(ElementTypeOf(line[h.typeStart..h.typeEnd])), Some(DescriptorOf(line[h.start..h.open]))))
    ensures r.Some? ==> r.value.elementType.Some? && r.value.descriptor.Some? && Settled(r.value)
  {
    MatchHeaderChosen(line);
    match MatchHeader(line)
    case Some(h) =>
      Some(Context(Some(ElementTypeOf(line[h.typeStart..h.typeEnd])), Some(DescriptorOf(line[h.start..h.open]))))
    case None => None
  }

  /** A line that changes the context: a candidate on which the pattern matches. */
  predicate IsHeader(line: string) {
    IsHeaderCandidate(line) && HeaderContext(line).Some?
  }

  // ---------------------------------------------------------------------------
  // One line, and a prefix of the output
  // ---------------------------------------------------------------------------

  /** The context after reading `line`. */
  function Step(ctx: Context, line: string): Context {
    if IsHeader(line) then HeaderContext(line).value else ctx
  }

  /** What reading `line` yields: nothing for a candidate, else the stripped line. */
  function Emit(ctx: Context, line: string): seq<Tagged> {
    if IsHeaderCandidate(line) then [] else [Tagged(ctx.elementType, ctx.descriptor, Strip(line))]
  }

  /** The context once all of `lines` have been read. */
  function ContextOf(lines: seq<string>): (r: Context)
    ensures Settled(r)
  {
    if lines == [] then NoContext
    else Step(ContextOf(lines[..|lines| - 1]), lines[|lines| - 1])
  }

  /** Everything yielded once all of `lines` have been read. */
  function Scan(lines: seq<string>): (r: seq<Tagged>)
    ensures |r| <= |lines|
    ensures forall k :: 0 <= k < |r| ==> Settled(Context(r[k].elementType, r[k].descriptor))
  {
    if lines == [] then []
    else
      var init := lines[..|lines| - 1];
      Scan(init) + Emit(ContextOf(init), lines[|lines| - 1])
  }

  /** `_ses_get_ed_line` over the lines of the tool's standard output. */
  method ScanElementDescriptors(lines: seq<string>) returns (tagged: seq<Tagged>)
    ensures tagged == Scan(lines)
  {
    var elementType: Option<string> := None;
    var descriptor: Option<string> := None;
    tagged := [];
    for i := 0 to |lines|
      invariant tagged == Scan(lines[..i])
      invariant Context(elementType, descriptor) == ContextOf(lines[..i])
    {
      var line := lines[i];
      ScanStep(lines, i);
      if |line| > 0 && line[0] != ' ' && Contains(line, ElementTypeLabel) {
        match MatchHeader(line)
        case Some(h) =>
          elementType := Some(ElementTypeOf(line[h.typeStart..h.typeEnd]));
          descriptor := Some(DescriptorOf(line[h.start..h.open]));
        case None =>
      } else {
        tagged := tagged + [Tagged(elementType, descriptor, Strip(line))];
      }
    }
    assert lines[..|lines|] == lines;
  }

  /** Reading line `i` after the lines before it. */
  lemma ScanStep(lines: seq<string>, i: nat)
    requires i < |lines|
    ensures Scan(lines[..i + 1]) == Scan(lines[..i]) + Emit(ContextOf(lines[..i]), lines[i])
    ensures ContextOf(lines[..i + 1]) == Step(ContextOf(lines[..i]), lines[i])
  {
    assert lines[..i + 1][..i] == lines[..i];
  }

  // ---------------------------------------------------------------------------
  // What the scanner yields
  // ---------------------------------------------------------------------------

  /** The number of lines of `lines` that are not header candidates. */
  function Kept(lines: seq<string>): (n: nat)
    ensures n <= |lines|
  {
    if lines == [] then 0
    else Kept(lines[..|lines| - 1]) + if IsHeaderCandidate(lines[|lines| - 1]) then 0 else 1
  }

  /** One item per line that is not a header candidate, empty lines included. */
  lemma {:induction false} ScanLength(lines: seq<string>)
    ensures |Scan(lines)| == Kept(lines)
  {
    if lines != [] {
      ScanLength(lines[..|lines| - 1]);
    }
  }

  /** The scanner streams: what a prefix yields is a prefix of what the whole yields. */
  lemma {:induction false} ScanPrefix(lines: seq<string>, j: nat)
    requires j <= |lines|
    ensures Scan(lines[..j]) <= Scan(lines)
    decreases |lines| - j
  {
    if j < |lines| {
      var n := |lines|;
      ScanPrefix(lines[..n - 1], j);
      assert lines[..n - 1][..j] == lines[..j];
      ScanInitPrefix(lines);
    } else {
      assert lines[..j] == lines;
    }
  }

  lemma ScanInitPrefix(lines: seq<string>)
    requires lines != []
    ensures Scan(lines[..|lines| - 1]) <= Scan(lines)
  {
  }

  /** The line at `i`, when it is not a header candidate, is the item that follows the
      items of the lines before it: stripped, with the context those lines set. */
  lemma ScanEntry(lines: seq<string>, i: nat)
    requires i < |lines| && !IsHeaderCandidate(lines[i])
    ensures Kept(lines[..i]) < |Scan(lines)|
    ensures Scan(lines)[Kept(lines[..i])] ==
      Tagged(ContextOf(lines[..i]).elementType, ContextOf(lines[..i]).descriptor, Strip(lines[i]))
  {
    var pre := lines[..i + 1];
    assert pre[..i] == lines[..i];
    ScanLength(lines[..i]);
    ScanPrefix(lines, i + 1);
  }

  /** Items keep the input order: the items of two kept lines appear in the order of the lines. */
  lemma {:induction false} KeptMonotone(lines: seq<string>, i: nat, j: nat)
    requires i < j <= |lines| && !IsHeaderCandidate(lines[i])
    ensures Kept(lines[..i]) < Kept(lines[..j])
    decreases j
  {
    assert lines[..j][..j - 1] == lines[..j - 1];
    if j - 1 == i {
    } else {
      KeptMonotone(lines, i, j - 1);
    }
  }

  // ---------------------------------------------------------------------------
  // Which context each item carries
  // ---------------------------------------------------------------------------

  /** `j` is the last header among the lines before `i`. */
  ghost predicate LatestHeader(lines: seq<string>, i: int, j: int) {
    0 <= j < i <= |lines| && IsHeader(lines[j]) && forall k :: j < k < i ==> !IsHeader(lines[k])
  }

  /** Reading a line that is not a header leaves the context unchanged. */
  lemma {:induction false} ContextSkips(lines: seq<string>, j: nat, i: nat)
    requires j <= i <= |lines| && forall k :: j <= k < i ==> !IsHeader(lines[k])
    ensures ContextOf(lines[..i]) == ContextOf(lines[..j])
    decreases i
  {
    if j < i {
      assert lines[..i][..i - 1] == lines[..i - 1];
      ContextSkips(lines, j, i - 1);
    }
  }

  /** The context after the lines before `i` is the one set by the latest header among
      them; a candidate whose pattern fails is not a header and changes nothing. */
  lemma ContextIsLatestHeader(lines: seq<string>, i: nat, j: nat)
    requires LatestHeader(lines, i, j)
    ensures ContextOf(lines[..i]) == HeaderContext(lines[j]).value
  {
    assert lines[..j + 1][..j] == lines[..j];
    ContextSkips(lines, j + 1, i);
  }

  /** Before the first header the context is `(None, None)`. */
  lemma ContextBeforeAnyHeader(lines: seq<string>, i: nat)
    requires i <= |lines| && forall k :: 0 <= k < i ==> !IsHeader(lines[k])
    ensures ContextOf(lines[..i]) == NoContext
  {
    ContextSkips(lines, 0, i);
  }
}
