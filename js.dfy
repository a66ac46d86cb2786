/**
 * The pieces of JavaScript's built-in library that the application relies on,
 * stated for Dafny strings and sequences:
 *  - `String.prototype.trim` and the blank test `!s || s.trim() === ''`,
 *  - `String.prototype.length`, which counts UTF-16 code units,
 *  - `parseInt(text)` with no radix argument, and `String(n)` for a count,
 *  - `Array.prototype.filter`,
 *  - `Option`, standing for `null` / `undefined` / `NaN` results.
 */
module Js {

  datatype Option<+T> = None | Some(value: T) {
    /** The value, or `default` when there is none (`x || default`, `x ?? default`). */
    function GetOr(default: T): T {
      match this
      case Some(v) => v
      case None => default
    }
  }

  // ---------------------------------------------------------------------------
  // Whitespace and trim
  // ---------------------------------------------------------------------------

  /**
   * The ECMAScript WhiteSpace and LineTerminator code points, which `trim`
   * removes: TAB, VT, FF, ZWNBSP, the Space_Separator characters and
   * LF, CR, LS, PS.
   */
  predicate IsSpace(c: char) {
    || c == '\t' || c == '\U{B}' || c == '\U{C}' || c == '\U{FEFF}'
    || c == ' ' || c == '\U{A0}' || c == '\U{1680}' || ('\U{2000}' <= c <= '\U{200A}')
    || c == '\U{202F}' || c == '\U{205F}' || c == '\U{3000}'
    || c == '\n' || c == '\r' || c == '\U{2028}' || c == '\U{2029}'
  }

  /** Every character of `s` is whitespace (vacuously true of ""). */
  predicate AllSpace(s: string) {
    forall i | 0 <= i < |s| :: IsSpace(s[i])
  }

  /** `s` with its leading whitespace removed. */
  function TrimStart(s: string): (r: string)
    ensures |r| <= |s|
    ensures r == [] || !IsSpace(r[0])
  {
    if s != [] && IsSpace(s[0]) then TrimStart(s[1..]) else s
  }

  /** `s.trim()`: `s` without its leading and trailing whitespace. */
  function Trim(s: string): (r: string)
    ensures |r| <= |s|
    ensures r == [] || (!IsSpace(r[0]) && !IsSpace(r[|r| - 1]))
  {
    if s != [] && IsSpace(s[0]) then Trim(s[1..])
    else if s != [] && IsSpace(s[|s| - 1]) then Trim(s[..|s| - 1])
    else s
  }

  /** Trimming leaves nothing exactly when every character is whitespace. */
  lemma {:induction false} TrimEmpty(s: string)
    ensures Trim(s) == [] <==> AllSpace(s)
  {
    if s != [] && IsSpace(s[0]) {
      TrimEmpty(s[1..]);
      assert forall i | 1 <= i < |s| :: s[i] == s[1..][i - 1];
    } else if s != [] && IsSpace(s[|s| - 1]) {
      TrimEmpty(s[..|s| - 1]);
      assert forall i | 0 <= i < |s| - 1 :: s[i] == s[..|s| - 1][i];
    }
  }

  /** What trimming keeps is the stretch `s[a..b]` of `s`, with only whitespace before and after it. */
  lemma {:induction false} TrimKeepsInnerStretch(s: string) returns (a: nat, b: nat)
    ensures a <= b <= |s| && Trim(s) == s[a..b]
    ensures AllSpace(s[..a]) && AllSpace(s[b..])
  {
    if s != [] && IsSpace(s[0]) {
      var a', b' := TrimKeepsInnerStretch(s[1..]);
      a, b := a' + 1, b' + 1;
      SpaceBeforeStretch(s, a', b');
    } else if s != [] && IsSpace(s[|s| - 1]) {
      a, b := TrimKeepsInnerStretch(s[..|s| - 1]);
      SpaceAfterStretch(s, a, b);
    } else {
      a, b := 0, |s|;
      assert s[a..b] == s;
    }
  }

  /** A stretch of `s[1..]` with whitespace around it, moved one place on, has `s[0]` added to the whitespace before it. */
  lemma SpaceBeforeStretch(s: string, a: nat, b: nat)
    requires s != [] && IsSpace(s[0]) && a <= b <= |s| - 1
    requires AllSpace(s[1..][..a]) && AllSpace(s[1..][b..])
    ensures s[1..][a..b] == s[a + 1..b + 1]
    ensures AllSpace(s[..a + 1]) && AllSpace(s[b + 1..])
  {
    assert s[1..][b..] == s[b + 1..];
    var front := s[..a + 1];
    forall i | 0 < i < |front|
      ensures IsSpace(front[i])
    {
      assert front[i] == s[1..][..a][i - 1];
    }
  }

  /** A stretch of `s` without its last character, with whitespace around it, has that character added to the whitespace after it. */
  lemma SpaceAfterStretch(s: string, a: nat, b: nat)
    requires s != [] && IsSpace(s[|s| - 1]) && a <= b <= |s| - 1
    requires AllSpace(s[..|s| - 1][..a]) && AllSpace(s[..|s| - 1][b..])
    ensures s[..|s| - 1][a..b] == s[a..b]
    ensures AllSpace(s[..a]) && AllSpace(s[b..])
  {
    assert s[..|s| - 1][..a] == s[..a];
    forall i | 0 <= i < |s| - 1 - b
      ensures IsSpace(s[b..][i])
    {
      assert s[b..][i] == s[..|s| - 1][b..][i];
    }
  }

  /** The blank test the validators apply, `!s || s.trim() === ''`. */
  predicate IsBlank(s: string) {
    s == "" || Trim(s) == ""
  }

  /** A text is blank exactly when every character of it is whitespace. */
  lemma BlankIsAllSpace(s: string)
    ensures IsBlank(s) <==> AllSpace(s)
  {
    TrimEmpty(s);
  }

  // ---------------------------------------------------------------------------
  // String length
  // ---------------------------------------------------------------------------

  /**
   * `s.length`: the number of UTF-16 code units. A character outside the Basic
   * Multilingual Plane takes two (a surrogate pair), every other one takes one.
   */
  function Utf16Length(s: string): (n: nat)
    ensures |s| <= n <= 2 * |s|
  {
    if s == [] then 0
    else (if s[0] as int > 0xFFFF then 2 else 1) + Utf16Length(s[1..])
  }

  /** Text within the Basic Multilingual Plane counts once per character. */
  lemma {:induction false} Utf16LengthOfBmpText(s: string)
    ensures (forall i | 0 <= i < |s| :: s[i] as int <= 0xFFFF) ==> Utf16Length(s) == |s|
  {
    if s != [] {
      Utf16LengthOfBmpText(s[1..]);
      assert forall i | 0 <= i < |s| - 1 :: s[1..][i] == s[i + 1];
    }
  }

  // ---------------------------------------------------------------------------
  // parseInt and decimal text
  // ---------------------------------------------------------------------------

  /** The value of `c` as a digit in radices up to 36; 36 for a non-digit. */
  function DigitValue(c: char): (v: nat)
    ensures v <= 36
  {
    if '0' <= c <= '9' then c as nat - '0' as nat
    else if 'a' <= c <= 'z' then c as nat - 'a' as nat + 10
    else if 'A' <= c <= 'Z' then c as nat - 'A' as nat + 10
    else 36
  }

  predicate IsDigitIn(c: char, radix: nat) {
    DigitValue(c) < radix
  }

  /** The longest prefix of `s` made of digits of `radix`. */
  function DigitPrefix(s: string, radix: nat): (r: string)
    ensures |r| <= |s| && r == s[..|r|]
    ensures forall i | 0 <= i < |r| :: IsDigitIn(r[i], radix)
    ensures |r| == |s| || !IsDigitIn(s[|r|], radix)
  {
    if s != [] && IsDigitIn(s[0], radix) then [s[0]] + DigitPrefix(s[1..], radix) else []
  }

  /** The number that the digits `s` denote in `radix`, most significant first. */
  function DigitsValue(s: string, radix: nat): nat {
    if s == [] then 0 else DigitsValue(s[..|s| - 1], radix) * radix + DigitValue(s[|s| - 1])
  }

  /**
   * `parseInt(s)` with no radix: skip leading whitespace, take an optional sign,
   * read base 16 after a `0x`/`0X` prefix and base 10 otherwise, and convert the
   * longest run of digits that follows. No digit at all gives NaN, here None.
   */
  function ParseInt(s: string): (r: Option<int>)
    ensures TrimStart(s) == [] ==> r.None?
    ensures TrimStart(s) != [] && '1' <= TrimStart(s)[0] <= '9' ==> r.Some? && r.value >= 0
    ensures TrimStart(s) != [] && TrimStart(s)[0] == '-' ==> r.None? || r.value <= 0
  {
    var t := TrimStart(s);
    if t != [] && t[0] == '-' then
      match ParseMagnitude(t[1..])
      case Some(m) => Some(-m)
      case None => None
    else if t != [] && t[0] == '+' then ParseMagnitude(t[1..])
    else ParseMagnitude(t)
  }

  /** The unsigned part of `parseInt`: an optional `0x`/`0X` prefix, then digits. */
  function ParseMagnitude(u: string): (r: Option<int>)
    ensures r.Some? ==> r.value >= 0
    ensures u != [] && '1' <= u[0] <= '9' ==> r.Some?
  {
    var hex := |u| >= 2 && u[0] == '0' && (u[1] == 'x' || u[1] == 'X');
    var digits := if hex then DigitPrefix(u[2..], 16) else DigitPrefix(u, 10);
    if digits == [] then None
    else Some(DigitsValue(digits, if hex then 16 else 10))
  }

  /** `String(n)` for a natural number: its decimal digits, without leading zeros. */
  function DecimalString(n: nat): (s: string)
    ensures s != []
    ensures forall i | 0 <= i < |s| :: '0' <= s[i] <= '9'
  {
    var d := ['0' + (n % 10) as char];
    if n < 10 then d else DecimalString(n / 10) + d
  }

  lemma {:induction false} DecimalStringValue(n: nat)
    ensures DigitsValue(DecimalString(n), 10) == n
  {
    var s := DecimalString(n);
    if n >= 10 {
      DecimalStringValue(n / 10);
      assert s[..|s| - 1] == DecimalString(n / 10);
    }
  }

  /** Reading back the decimal text of a natural number gives that number. */
  lemma ParseIntDecimalString(n: nat)
    ensures ParseInt(DecimalString(n)) == Some(n)
  {
    ParseIntOfDecimalDigits(DecimalString(n));
    DecimalStringValue(n);
  }

  lemma ParseIntOfDecimalDigits(s: string)
    requires s != [] && forall i | 0 <= i < |s| :: '0' <= s[i] <= '9'
    ensures ParseInt(s) == Some(DigitsValue(s, 10) as int)
  {
    assert '0' <= s[0] <= '9';
    assert TrimStart(s) == s;
    assert ParseInt(s) == ParseMagnitude(s);
    assert !(|s| >= 2 && s[0] == '0' && (s[1] == 'x' || s[1] == 'X')) by {
      if |s| >= 2 {
        assert '0' <= s[1] <= '9';
      }
    }
    DigitPrefixOfDigits(s, 10);
  }

  lemma DigitPrefixOfDigits(s: string, radix: nat)
    requires forall i | 0 <= i < |s| :: IsDigitIn(s[i], radix)
    ensures DigitPrefix(s, radix) == s
  {
  }

  // ---------------------------------------------------------------------------
  // Array.prototype.filter
  // ---------------------------------------------------------------------------

  /** `s.filter(keep)`: the elements of `s` that `keep` accepts, in their order in `s`. */
  function Filter<T(!new)>(s: seq<T>, keep: T -> bool): (r: seq<T>)
    ensures |r| <= |s|
    ensures forall x :: x in r <==> x in s && keep(x)
  {
    if s == [] then []
    else
      var rest := Filter(s[1..], keep);
      assert s == [s[0]] + s[1..];
      if keep(s[0]) then [s[0]] + rest else rest
  }

  /** The positions of `s` whose element `keep` accepts, in increasing order. */
  function KeptPositions<T>(s: seq<T>, keep: T -> bool): (idx: seq<nat>)
    ensures forall k | 0 <= k < |idx| :: idx[k] < |s| && keep(s[idx[k]])
    ensures forall k, l | 0 <= k < l < |idx| :: idx[k] < idx[l]
    ensures forall i | 0 <= i < |s| && keep(s[i]) :: i in idx
  {
    if s == [] then []
    else
      var init := s[..|s| - 1];
      var before := KeptPositions(init, keep);
      assert forall i | 0 <= i < |init| :: init[i] == s[i];
      before + (if keep(s[|s| - 1]) then [|s| - 1] else [])
  }

  /** `r` lists the elements of `s` at the positions `idx`, in the order of `idx`. */
  predicate Picks<T(==)>(r: seq<T>, s: seq<T>, idx: seq<nat>) {
    |r| == |idx| && forall k | 0 <= k < |idx| :: idx[k] < |s| && r[k] == s[idx[k]]
  }

  /** Filtering keeps exactly the accepted positions, each once and in their order in `s`. */
  lemma {:induction false} FilterPicksKept<T(!new)>(s: seq<T>, keep: T -> bool)
    ensures Picks(Filter(s, keep), s, KeptPositions(s, keep))
  {
    if s != [] {
      var init := s[..|s| - 1];
      var last := s[|s| - 1];
      FilterPicksKept(init, keep);
      assert s == init + [last];
      FilterAppend(init, [last], keep);
      assert Filter([last], keep) == if keep(last) then [last] else [];
    }
  }

  /** Filtering keeps every accepted element as often as `s` holds it, and no other. */
  lemma {:induction false} FilterCounts<T(!new)>(s: seq<T>, keep: T -> bool, x: T)
    ensures multiset(Filter(s, keep))[x] == if keep(x) then multiset(s)[x] else 0
  {
    if s != [] {
      FilterCounts(s[1..], keep, x);
      assert s == [s[0]] + s[1..];
    }
  }

  /** Filtering a concatenation filters each part, keeping the parts' order. */
  lemma {:induction false} FilterAppend<T(!new)>(a: seq<T>, b: seq<T>, keep: T -> bool)
    ensures Filter(a + b, keep) == Filter(a, keep) + Filter(b, keep)
  {
    if a == [] {
      assert a + b == b;
    } else {
      var ab := a + b;
      assert ab[0] == a[0] && ab[1..] == a[1..] + b;
      FilterAppend(a[1..], b, keep);
      assert Filter(ab, keep) == (if keep(a[0]) then [a[0]] else []) + Filter(ab[1..], keep);
      assert Filter(a, keep) == (if keep(a[0]) then [a[0]] else []) + Filter(a[1..], keep);
    }
  }

  /** Two sequences whose filterings differ by a suffix keep that difference when both get the same first element. */
  lemma FilterPrepend<T(!new)>(a: T, t: seq<T>, u: seq<T>, suffix: seq<T>, keep: T -> bool)
    requires Filter(t, keep) == Filter(u, keep) + suffix
    ensures Filter([a] + t, keep) == Filter([a] + u, keep) + suffix
  {
    FilterAppend([a], t, keep);
    FilterAppend([a], u, keep);
    SeqAssociates(Filter([a], keep), Filter(u, keep), suffix);
  }

  /**
   * Concatenation regroups. Stated apart from FilterPrepend so that the step is
   * proved without Filter's postconditions in view.
   */
  lemma SeqAssociates<T>(x: seq<T>, y: seq<T>, z: seq<T>)
    ensures x + (y + z) == (x + y) + z
  {
  }

  /** A filter that accepts every element returns the sequence unchanged. */
  lemma {:induction false} FilterKeepsAll<T(!new)>(s: seq<T>, keep: T -> bool)
    requires forall i | 0 <= i < |s| :: keep(s[i])
    ensures Filter(s, keep) == s
  {
    if s != [] {
      FilterKeepsAll(s[1..], keep);
    }
  }

  /** When `narrow` accepts only what `wide` accepts, filtering by `wide` first changes nothing. */
  lemma {:induction false} FilterNarrower<T(!new)>(s: seq<T>, wide: T -> bool, narrow: T -> bool)
    requires forall x :: narrow(x) ==> wide(x)
    ensures Filter(Filter(s, wide), narrow) == Filter(s, narrow)
  {
    if s != [] {
      FilterNarrower(s[1..], wide, narrow);
    }
  }
}
