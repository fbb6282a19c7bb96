/**
 * The parts of Python 3's `str` type and `re` character classes that the sg_ses
 * text parsers rely on: character classes, greedy runs, `str.strip()`,
 * `str.replace()` of one character, `in` on strings and `int(_, 16)`.
 */
module Text {
  import opened Wrappers

  // ---------------------------------------------------------------------------
  // Character classes
  // ---------------------------------------------------------------------------

  /** `str.isspace()`; the `\s` class of a `str` pattern uses the same table. */
  predicate IsSpace(c: char) {
    var n := c as int;
    n == 0x20 || 0x09 <= n <= 0x0D || 0x1C <= n <= 0x1F || n == 0x85 || n == 0xA0 ||
    n == 0x1680 || 0x2000 <= n <= 0x200A || n == 0x2028 || n == 0x2029 ||
    n == 0x202F || n == 0x205F || n == 0x3000
  }

  /** `[0-9]`; also `\d` on ASCII. */
  predicate IsDigit(c: char) {
    '0' <= c <= '9'
  }

  /** The characters `int(_, 16)` accepts as digits. */
  predicate IsHexDigit(c: char) {
    IsDigit(c) || 'a' <= c <= 'f' || 'A' <= c <= 'F'
  }

  /** `\w` on ASCII: letters, digits and the underscore. */
  predicate IsWordChar(c: char) {
    'a' <= c <= 'z' || 'A' <= c <= 'Z' || IsDigit(c) || c == '_'
  }

  /** `[-+]` */
  predicate IsSign(c: char) {
    c == '-' || c == '+'
  }

  /** `[:=]` */
  predicate IsSeparator(c: char) {
    c == ':' || c == '='
  }

  /** `.` without the DOTALL flag: anything but a line feed. */
  predicate NotNewline(c: char) {
    c != '\n'
  }

  /** `[^ ]` */
  predicate NotBlank(c: char) {
    c != ' '
  }

  /** `[^\[]` */
  predicate NotOpenBracket(c: char) {
    c != '['
  }

  /** `[\s,]` */
  predicate IsSpaceOrComma(c: char) {
    IsSpace(c) || c == ','
  }

  lemma SignOrDigitIsNotSpace(c: char)
    requires IsSign(c) || IsDigit(c)
    ensures !IsSpace(c)
  {
  }

  lemma WordCharIsNotSpace(c: char)
    requires IsWordChar(c)
    ensures !IsSpace(c) && !IsSeparator(c) && NotNewline(c)
  {
  }

  // ---------------------------------------------------------------------------
  // Runs of characters
  // ---------------------------------------------------------------------------

  /** Every character of `s` in `[lo, hi)` belongs to the class `P`. */
  ghost predicate AllIn(s: string, lo: int, hi: int, P: char -> bool) {
    0 <= lo <= hi <= |s| && forall j :: lo <= j < hi ==> P(s[j])
  }

  /** The literal `lit` occurs in `s` at index `k`. */
  predicate StartsAt(s: string, k: int, lit: string) {
    0 <= k && k + |lit| <= |s| && s[k..k + |lit|] == lit
  }

  lemma StartsAtChar(s: string, k: int, lit: string, j: int)
    requires StartsAt(s, k, lit) && 0 <= j < |lit|
    ensures s[k + j] == lit[j]
  {
    assert s[k..k + |lit|][j] == s[k + j];
  }

  /** End of the greedy run of `P` that starts at `i`: what `P*` consumes before backtracking. */
  function Span(s: string, i: nat, P: char -> bool): (r: nat)
    requires i <= |s|
    ensures i <= r <= |s| && AllIn(s, i, r, P)
    ensures r == |s| || !P(s[r])
    decreases |s| - i
  {
    if i == |s| || !P(s[i]) then i else Span(s, i + 1, P)
  }

  /** A run of `P` that stops where `P` fails is the greedy run. */
  lemma SpanIs(s: string, i: nat, P: char -> bool, r: int)
    requires i <= |s| && AllIn(s, i, r, P) && (r == |s| || !P(s[r]))
    ensures Span(s, i, P) == r
  {
  }

  /** The greedy run covers every run of `P` from the same start. */
  lemma SpanCovers(s: string, i: nat, P: char -> bool, r: int)
    requires i <= |s| && AllIn(s, i, r, P)
    ensures r <= Span(s, i, P)
  {
  }

  /** Start of the run of `IsSpace` that ends at `hi`, not going below `lo`. */
  function SpanBack(s: string, lo: nat, hi: nat): (r: nat)
    requires lo <= hi <= |s|
    ensures lo <= r <= hi && AllIn(s, r, hi, IsSpace)
    ensures r == lo || !IsSpace(s[r - 1])
    decreases hi - lo
  {
    if hi == lo || !IsSpace(s[hi - 1]) then hi else SpanBack(s, lo, hi - 1)
  }

  // ---------------------------------------------------------------------------
  // `\s*` followed by a greedy run
  // ---------------------------------------------------------------------------

  /** `\s*` starting at `t` can stop at `u`, where a run of `Run` begins. */
  ghost predicate RunStartsAt(s: string, t: int, u: int, Run: char -> bool) {
    AllIn(s, t, u, IsSpace) && u < |s| && Run(s[u])
  }

  /** `\s*` then the greedy run `Run+`, with nothing after them in the pattern: Python
      tries the longest whitespace prefix first and gives it back one character at a
      time, so the run starts at the largest possible `u` and is as long as possible. */
  function SpacesThenRun(s: string, t: nat, Run: char -> bool): (r: Option<(nat, nat)>)
    requires t <= |s|
    ensures r.Some? ==> RunStartsAt(s, t, r.value.0, Run) && r.value.0 < r.value.1
    ensures r.Some? ==> AllIn(s, r.value.0, r.value.1, Run) && (r.value.1 == |s| || !Run(s[r.value.1]))
    ensures r.Some? ==> forall u :: RunStartsAt(s, t, u, Run) ==> u <= r.value.0
    ensures r.None? ==> forall u :: !RunStartsAt(s, t, u, Run)
  {
    var m := Span(s, t, IsSpace);
    BackOff(s, t, m, m, Run)
  }

  /** The backtracking of `\s*` over the whitespace run `[t, m)`: try the run at `u`,
      then at `u - 1`, down to `t`; no start above `u` works. */
  function BackOff(s: string, t: nat, u: nat, m: nat, Run: char -> bool): (r: Option<(nat, nat)>)
    requires t <= u <= m <= |s| && AllIn(s, t, m, IsSpace) && (m == |s| || !IsSpace(s[m]))
    requires forall w :: u < w <= m ==> !RunStartsAt(s, t, w, Run)
    ensures r.Some? ==> RunStartsAt(s, t, r.value.0, Run) && r.value.0 < r.value.1
    ensures r.Some? ==> AllIn(s, r.value.0, r.value.1, Run) && (r.value.1 == |s| || !Run(s[r.value.1]))
    ensures r.Some? ==> forall w :: RunStartsAt(s, t, w, Run) ==> w <= r.value.0
    ensures r.None? ==> forall w :: !RunStartsAt(s, t, w, Run)
    decreases u
  {
    if u < |s| && Run(s[u]) then
      Some((u, Span(s, u, Run)))
    else if u == t then
      None
    else
      BackOff(s, t, u - 1, m, Run)
  }

  /** When the whitespace ends at `u` and a run of `Run` from `u` stops at `v`, that is
      what `\s*` and `Run+` match. */
  lemma SpacesThenRunIs(s: string, t: nat, u: nat, v: nat, Run: char -> bool)
    requires t <= u < v <= |s| && AllIn(s, t, u, IsSpace) && !IsSpace(s[u])
    requires AllIn(s, u, v, Run) && (v == |s| || !Run(s[v]))
    ensures SpacesThenRun(s, t, Run) == Some((u, v))
  {
    SpanIs(s, t, IsSpace, u);
    SpanIs(s, u, Run, v);
  }

  // ---------------------------------------------------------------------------
  // Left-to-right search
  // ---------------------------------------------------------------------------

  /** The least `j` in `[i, n]` with `P(j)`: the order in which `re.search` tries its
      starts, and a `for` loop with `return` tries its items. */
  function FirstFrom(P: nat -> bool, i: nat, n: nat): (r: Option<nat>)
    requires i <= n
    ensures r.Some? ==> i <= r.value <= n && P(r.value)
    ensures r.Some? ==> forall k :: i <= k < r.value ==> !P(k)
    ensures r.None? ==> forall k :: i <= k <= n ==> !P(k)
    decreases n - i
  {
    if P(i) then Some(i) else if i == n then None else FirstFrom(P, i + 1, n)
  }

  /** The greatest `j` in `[lo, hi)` with `P(j)`: the order in which a greedy `.*`
      gives back characters. */
  function LastBelow(P: nat -> bool, lo: nat, hi: nat): (r: Option<nat>)
    requires lo <= hi
    ensures r.Some? ==> lo <= r.value < hi && P(r.value)
    ensures r.Some? ==> forall k :: r.value < k < hi ==> !P(k)
    ensures r.None? ==> forall k :: lo <= k < hi ==> !P(k)
    decreases hi - lo
  {
    if hi == lo then None else if P(hi - 1) then Some(hi - 1) else LastBelow(P, lo, hi - 1)
  }

  // ---------------------------------------------------------------------------
  // String operations
  // ---------------------------------------------------------------------------

  /** `c` does not occur in `s`. */
  predicate Lacks(s: string, c: char) {
    forall i :: 0 <= i < |s| ==> s[i] != c
  }

  /** `str.strip()` with no argument: leading and trailing whitespace removed. */
  function Strip(s: string): (r: string)
    ensures exists lo, hi :: 0 <= lo <= hi <= |s| && r == s[lo..hi] && IsStripOf(s, lo, hi)
  {
    var lo := Span(s, 0, IsSpace);
    var hi := SpanBack(s, lo, |s|);
    assert IsStripOf(s, lo, hi);
    s[lo..hi]
  }

  /** When `s[lo..hi]` is non-empty and is `s` without its leading and trailing
      whitespace, that is what `strip()` returns. */
  lemma StripIs(s: string, lo: nat, hi: nat)
    requires lo < hi <= |s| && IsStripOf(s, lo, hi)
    ensures Strip(s) == s[lo..hi]
  {
    SpanIs(s, 0, IsSpace, lo);
    SpanBackIs(s, lo, |s|, hi);
  }

  lemma {:induction false} SpanBackIs(s: string, lo: nat, hi: nat, r: nat)
    requires lo < r <= hi <= |s| && AllIn(s, r, hi, IsSpace) && !IsSpace(s[r - 1])
    ensures SpanBack(s, lo, hi) == r
    decreases hi
  {
    if hi > r {
      SpanBackIs(s, lo, hi - 1, r);
    }
  }

  /** `s[lo..hi]` is what is left of `s` once its leading and trailing whitespace is gone. */
  ghost predicate IsStripOf(s: string, lo: int, hi: int) {
    AllIn(s, 0, lo, IsSpace) && AllIn(s, hi, |s|, IsSpace) && lo <= hi &&
    (lo < hi ==> !IsSpace(s[lo]) && !IsSpace(s[hi - 1]))
  }

  /** `s.replace(from, to)` for one-character `from` and `to`. */
  function Replace(s: string, from: char, to: char): (r: string)
    ensures |r| == |s|
    ensures forall i :: 0 <= i < |s| ==> r[i] == if s[i] == from then to else s[i]
  {
    if s == [] then [] else [if s[0] == from then to else s[0]] + Replace(s[1..], from, to)
  }

  /** `expected` is `s` with every `from` made `to`, character by character. */
  lemma ReplaceIs(s: string, from: char, to: char, expected: string)
    requires |expected| == |s| && forall i :: 0 <= i < |s| ==> expected[i] == if s[i] == from then to else s[i]
    ensures Replace(s, from, to) == expected
  {
  }

  /** Python's `sub in s`. */
  predicate Contains(s: string, sub: string)
    decreases |s|
  {
    StartsAt(s, 0, sub) || (s != [] && Contains(s[1..], sub))
  }

  lemma {:induction false} ContainsIff(s: string, sub: string)
    ensures Contains(s, sub) <==> exists k :: StartsAt(s, k, sub)
    decreases |s|
  {
    if s != [] {
      ContainsIff(s[1..], sub);
      if Contains(s[1..], sub) {
        var k :| StartsAt(s[1..], k, sub);
        assert s[1..][k..k + |sub|] == s[k + 1..k + 1 + |sub|];
        assert StartsAt(s, k + 1, sub);
      }
      if k :| StartsAt(s, k, sub) && k > 0 {
        assert s[k..k + |sub|] == s[1..][k - 1..k - 1 + |sub|];
        assert StartsAt(s[1..], k - 1, sub);
      }
    }
  }

  /** The value of one digit of `int(_, 16)`. */
  function HexDigitValue(c: char): (n: nat)
    requires IsHexDigit(c)
    ensures n < 16
  {
    if IsDigit(c) then c as int - '0' as int
    else if 'a' <= c <= 'f' then c as int - 'a' as int + 10
    else c as int - 'A' as int + 10
  }

  ghost predicate AllHex(s: string) {
    forall i :: 0 <= i < |s| ==> IsHexDigit(s[i])
  }

  /** `16` to the power `k`. */
  function Pow16(k: nat): (p: nat)
    ensures p > 0
  {
    if k == 0 then 1 else 16 * Pow16(k - 1)
  }

  /** `int(s, 16)` on a string made only of hexadecimal digits. Its value is below
      `16^|s|`, so each digit has the weight of its place. */
  function ParseHex(s: string): (n: nat)
    requires AllHex(s)
    ensures n < Pow16(|s|)
    decreases |s|
  {
    if s == [] then 0 else ParseHex(s[..|s| - 1]) * 16 + HexDigitValue(s[|s| - 1])
  }

  /** Hexadecimal is positional: the digits of `a` followed by those of `b` read as `a`
      shifted by `|b|` places plus `b`. In particular leading zeros change nothing. */
  lemma {:induction false} ParseHexConcat(a: string, b: string)
    requires AllHex(a) && AllHex(b)
    ensures AllHex(a + b) && ParseHex(a + b) == ParseHex(a) * Pow16(|b|) + ParseHex(b)
    decreases |b|
  {
    AllHexConcat(a, b);
    if b == [] {
      assert a + b == a;
    } else {
      var b' := b[..|b| - 1];
      var c := b[|b| - 1];
      assert (a + b)[..|a + b| - 1] == a + b' && (a + b)[|a + b| - 1] == c;
      assert AllHex(b') by {
        forall i | 0 <= i < |b'| ensures IsHexDigit(b'[i]) { assert b'[i] == b[i]; }
      }
      ParseHexConcat(a, b');
      ShiftDigit(ParseHex(a), ParseHex(b'), Pow16(|b'|), HexDigitValue(c));
    }
  }

  lemma AllHexConcat(a: string, b: string)
    requires AllHex(a) && AllHex(b)
    ensures AllHex(a + b)
  {
    var s := a + b;
    forall i | 0 <= i < |s| ensures IsHexDigit(s[i]) {
      if i < |a| { assert s[i] == a[i]; } else { assert s[i] == b[i - |a|]; }
    }
  }

  /** Appending a digit multiplies both parts by the base. */
  lemma ShiftDigit(x: int, y: int, p: int, d: int)
    ensures (x * p + y) * 16 + d == x * (16 * p) + (y * 16 + d)
  {
  }

  /** A leading zero does not change the value: `int("0" + s, 16) == int(s, 16)`. */
  lemma ParseHexLeadingZero(s: string)
    requires AllHex(s)
    ensures AllHex("0" + s) && ParseHex("0" + s) == ParseHex(s)
  {
    assert ParseHex("0") == ParseHex("0"[..0]) * 16 + HexDigitValue('0');
    ParseHexConcat("0", s);
  }
}
