/**
 * The pieces of Go's standard library that the controller's stdout parser
 * relies on, stated over Dafny strings (sequences of characters):
 * bytes.Buffer.ReadString, strings.Contains, strings.TrimSpace and
 * strconv.Atoi on a run of decimal digits (64-bit int).
 */
module GoText {

  /** unicode.IsSpace: the Unicode White_Space characters, which strings.TrimSpace removes. */
  predicate IsSpace(c: char) {
    var n := c as int;
    (0x09 <= n <= 0x0D) || n == 0x20 || n == 0x85 || n == 0xA0 || n == 0x1680
    || (0x2000 <= n <= 0x200A) || n == 0x2028 || n == 0x2029 || n == 0x202F
    || n == 0x205F || n == 0x3000
  }

  predicate AllSpace(s: string) {
    forall k :: 0 <= k < |s| ==> IsSpace(s[k])
  }

  /** Go's regexp `\d`: an ASCII decimal digit. */
  predicate IsDigit(c: char) {
    '0' <= c <= '9'
  }

  predicate AllDigits(s: string) {
    forall k :: 0 <= k < |s| ==> IsDigit(s[k])
  }

  // ---------------------------------------------------------------------
  // bytes.Buffer.ReadString
  // ---------------------------------------------------------------------

  /** The first position at or after `from` that holds `c`, or |s| when there is none. */
  function IndexFrom(s: string, from: nat, c: char): (r: nat)
    requires from <= |s|
    ensures from <= r <= |s|
    ensures r < |s| ==> s[r] == c
    ensures forall k :: from <= k < r ==> s[k] != c
    decreases |s| - from
  {
    if from == |s| || s[from] == c then from else IndexFrom(s, from + 1, c)
  }

  /** What one ReadString call gives back: the text read, and the buffer's new read offset. */
  datatype Read = Read(line: string, next: nat)

  /**
   * ReadString(delim) on a buffer holding `s` whose read offset is `off`:
   * the unread text up to and including the first `delim`, or all of the
   * unread text when it holds no `delim` (the io.EOF case, whose error the
   * controller ignores). At the end of the buffer it reads "".
   */
  function ReadString(s: string, off: nat, delim: char): (r: Read)
    requires off <= |s|
    ensures off <= r.next <= |s| && r.line == s[off..r.next]
  {
    var i := IndexFrom(s, off, delim);
    if i < |s| then Read(s[off..i + 1], i + 1) else Read(s[off..], |s|)
  }

  /**
   * What ReadString promises: the text read is the unread text up to and
   * including the first `delim`, or all of it when there is no `delim`, and
   * the rest of the buffer starts right after it.
   */
  lemma ReadStringSpec(s: string, off: nat, delim: char)
    requires off <= |s|
    ensures var r := ReadString(s, off, delim);
      && s[off..] == r.line + s[r.next..]
      && (delim in s[off..] ==>
            |r.line| > 0 && r.line[|r.line| - 1] == delim && delim !in r.line[..|r.line| - 1])
      && (delim !in s[off..] ==> r.line == s[off..] && r.next == |s|)
  {
    var i := IndexFrom(s, off, delim);
    if i < |s| {
      assert s[off..i + 1][..i - off] == s[off..i];
    }
  }

  /** Reading from the start of a line that ends in `delim` gives exactly that line. */
  lemma ReadStringLine(pre: string, line: string, delim: char, rest: string)
    requires delim !in line
    ensures ReadString(pre + line + [delim] + rest, |pre|, delim)
         == Read(line + [delim], |pre| + |line| + 1)
  {
    var s := pre + line + [delim] + rest;
    var r := ReadString(s, |pre|, delim);
    ReadStringSpec(s, |pre|, delim);
    assert s[|pre|..] == line + [delim] + rest;
    assert (line + [delim] + rest)[|line|] == delim;
    assert delim in s[|pre|..];
    assert r.line == s[|pre|..|pre| + |line| + 1];
    assert s[|pre|..|pre| + |line| + 1] == line + [delim];
  }

  /** Reading a last line that has no `delim` gives the whole rest of the buffer. */
  lemma ReadStringLastLine(pre: string, line: string, delim: char)
    requires delim !in line
    ensures ReadString(pre + line, |pre|, delim) == Read(line, |pre| + |line|)
  {
    ReadStringSpec(pre + line, |pre|, delim);
    assert (pre + line)[|pre|..] == line;
  }

  // ---------------------------------------------------------------------
  // strings.Contains
  // ---------------------------------------------------------------------

  /** `pat` occurs in `s` starting at position `i`. */
  predicate Occurs(s: string, pat: string, i: int) {
    0 <= i && i + |pat| <= |s| && s[i..i + |pat|] == pat
  }

  /** A left-to-right search for `pat` among the starting positions `from`, `from + 1`, … */
  function ContainsFrom(s: string, pat: string, from: nat): (r: bool)
    requires from <= |s|
    ensures r <==> exists i :: from <= i && Occurs(s, pat, i)
    decreases |s| - from
  {
    if from + |pat| > |s| then false
    else if s[from..from + |pat|] == pat then assert Occurs(s, pat, from); true
    else ContainsFrom(s, pat, from + 1)
  }

  /** strings.Contains: whether `pat` occurs anywhere in `s`. */
  function Contains(s: string, pat: string): (r: bool)
    ensures r <==> exists i :: Occurs(s, pat, i)
  {
    ContainsFrom(s, pat, 0)
  }

  /** Text appended after an occurrence does not remove it. */
  lemma ContainsExtend(s: string, t: string, pat: string)
    requires Contains(s, pat)
    ensures Contains(s + t, pat)
  {
    var i :| Occurs(s, pat, i);
    assert (s + t)[i..i + |pat|] == s[i..i + |pat|];
    assert Occurs(s + t, pat, i);
  }

  /** A character that `pat` does not use, appended to `s`, cannot create or destroy an occurrence. */
  lemma ContainsIgnoresForeignSuffix(s: string, pat: string, c: char)
    requires c !in pat
    ensures Contains(s + [c], pat) == Contains(s, pat)
  {
    var t := s + [c];
    if i :| Occurs(t, pat, i) {
      if |pat| == 0 {
        assert Occurs(s, pat, 0);
      } else {
        assert pat[|pat| - 1] == t[i + |pat| - 1];
        assert t[i..i + |pat|] == s[i..i + |pat|];
        assert Occurs(s, pat, i);
      }
    }
    if i :| Occurs(s, pat, i) {
      assert t[i..i + |pat|] == s[i..i + |pat|];
      assert Occurs(t, pat, i);
    }
  }

  // ---------------------------------------------------------------------
  // strings.TrimSpace
  // ---------------------------------------------------------------------

  /** The first position at or after `from` that holds a non-space, or |s|. */
  function SkipSpace(s: string, from: nat): (r: nat)
    requires from <= |s|
    ensures from <= r <= |s|
    ensures forall k :: from <= k < r ==> IsSpace(s[k])
    ensures r < |s| ==> !IsSpace(s[r])
    decreases |s| - from
  {
    if from == |s| || !IsSpace(s[from]) then from else SkipSpace(s, from + 1)
  }

  /** Walking back from `hi` towards `lo`: the end of the last non-space in s[lo..hi], or `lo`. */
  function SkipSpaceBack(s: string, lo: nat, hi: nat): (r: nat)
    requires lo <= hi <= |s|
    ensures lo <= r <= hi
    ensures forall k :: r <= k < hi ==> IsSpace(s[k])
    ensures r > lo ==> !IsSpace(s[r - 1])
    decreases hi - lo
  {
    if hi == lo || !IsSpace(s[hi - 1]) then hi else SkipSpaceBack(s, lo, hi - 1)
  }

  /** A string with no white space at either end. */
  predicate Trimmed(t: string) {
    t == [] || (!IsSpace(t[0]) && !IsSpace(t[|t| - 1]))
  }

  /** strings.TrimSpace: `s` with its leading and trailing white space removed. */
  function TrimSpace(s: string): (r: string)
    ensures Trimmed(r)
  {
    var a := SkipSpace(s, 0);
    s[a..SkipSpaceBack(s, a, |s|)]
  }

  /** What TrimSpace removes is white space, from the front and from the back of `s` only. */
  lemma TrimSpaceSpec(s: string)
    ensures var r := TrimSpace(s); var a := SkipSpace(s, 0);
      && a + |r| <= |s| && s == s[..a] + r + s[a + |r|..]
      && AllSpace(s[..a]) && AllSpace(s[a + |r|..])
  {
    var a := SkipSpace(s, 0);
    var b := SkipSpaceBack(s, a, |s|);
    assert s == s[..a] + s[a..b] + s[b..];
    forall k | 0 <= k < a ensures IsSpace(s[..a][k]) { }
    forall k | 0 <= k < |s| - b ensures IsSpace(s[b..][k]) { assert s[b..][k] == s[b + k]; }
  }

  /** TrimSpace keeps exactly the core between white-space padding on either side. */
  lemma TrimSpaceOfPadded(p: string, t: string, q: string)
    requires AllSpace(p) && AllSpace(q) && Trimmed(t)
    ensures TrimSpace(p + t + q) == t
  {
    var s := p + t + q;
    var a := SkipSpace(s, 0);
    var b := SkipSpaceBack(s, a, |s|);
    if t == [] {
      assert AllSpace(s) by {
        forall k | 0 <= k < |s| ensures IsSpace(s[k]) {
          if k < |p| { assert s[k] == p[k]; } else { assert s[k] == q[k - |p|]; }
        }
      }
      assert a == |s|;
    } else {
      assert s[|p|] == t[0];
      assert a == |p|;
      var e := |p| + |t|;
      assert s[e - 1] == t[|t| - 1];
      assert s[a..b] == t;
    }
  }

  /** Trailing white space, such as a line's own newline, does not change TrimSpace. */
  lemma TrimSpaceDropsTrailingSpace(s: string, c: char)
    requires IsSpace(c)
    ensures TrimSpace(s + [c]) == TrimSpace(s)
  {
    var r := TrimSpace(s);
    var a := SkipSpace(s, 0);
    TrimSpaceSpec(s);
    var q := s[a + |r|..] + [c];
    assert AllSpace(q) by {
      forall k | 0 <= k < |q| ensures IsSpace(q[k]) {
        if k < |q| - 1 { assert q[k] == s[a + |r|..][k]; }
      }
    }
    assert s + [c] == s[..a] + r + q;
    TrimSpaceOfPadded(s[..a], r, q);
  }

  // ---------------------------------------------------------------------
  // strconv.Atoi on a run of ASCII digits
  // ---------------------------------------------------------------------

  /** The largest value of Go's 64-bit int. */
  const MaxInt64: nat := 0x7FFF_FFFF_FFFF_FFFF

  /** The value of a string of decimal digits, most significant first (leading zeros allowed). */
  function DecimalValue(d: string): nat
    requires AllDigits(d)
    decreases |d|
  {
    if d == [] then 0
    else 10 * DecimalValue(d[..|d| - 1]) + (d[|d| - 1] as int - '0' as int)
  }

  /** The decimal spelling of `n` without leading zeros: the reference DecimalValue is checked against. */
  function Decimal(n: nat): (d: string)
    ensures |d| > 0 && AllDigits(d)
    decreases n
  {
    (if n < 10 then [] else Decimal(n / 10)) + [('0' as int + n % 10) as char]
  }

  /** Reading back a decimal spelling gives the number spelled. */
  lemma {:induction false} DecimalRoundTrip(n: nat)
    ensures DecimalValue(Decimal(n)) == n
  {
    var d := Decimal(n);
    var last := ('0' as int + n % 10) as char;
    if n < 10 {
      assert d == [last];
      assert d[..0] == [];
    } else {
      DecimalRoundTrip(n / 10);
      assert d[..|d| - 1] == Decimal(n / 10);
      assert d[|d| - 1] == last;
    }
  }

  /**
   * strconv.Atoi of a non-empty digit run, with the 64-bit int of the
   * platforms the controller targets: runs too large for an int come back
   * as MaxInt64 (the range error that goes with them is ignored by the caller).
   */
  function Atoi(d: string): (v: nat)
    requires |d| > 0 && AllDigits(d)
    ensures v <= MaxInt64
    ensures DecimalValue(d) <= MaxInt64 ==> v == DecimalValue(d)
    ensures DecimalValue(d) > MaxInt64 ==> v == MaxInt64
  {
    var v := DecimalValue(d);
    if v > MaxInt64 then MaxInt64 else v
  }

  /** Atoi is the inverse of the decimal spelling up to MaxInt64, and saturates beyond it. */
  lemma AtoiOfDecimal(n: nat)
    ensures Atoi(Decimal(n)) == if n <= MaxInt64 then n else MaxInt64
  {
    DecimalRoundTrip(n);
  }
}
