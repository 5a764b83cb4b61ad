/**
 * The Python string built-ins the analysis script leans on: `str.find`,
 * slicing `s[a:b]`, indexing `s[k]`, `int(s)` on a string, the two-digit zero-padded format
 * of an integer
 * and the `in` test for substrings.
 *
 * `int()` is modelled for ASCII text only: the whitespace it skips around the
 * number is tab, line feed, vertical tab, form feed, carriage return and space
 * (codes 9 to 13 and 32; an ASCII string reaches the C-level whitespace test
 * unchanged, and that test does not count the separators 28 to 31), the digits
 * are '0' to '9', and underscores between digits are not accepted.
 */
module PyText {
  import opened Wrappers

  // ---------------------------------------------------------------------------
  // str.find and `in`
  // ---------------------------------------------------------------------------

  /** `sub` occurs in `s` starting at index `k`. */
  predicate OccursAt(s: string, sub: string, k: int)
  {
    0 <= k && k + |sub| <= |s| && s[k..k + |sub|] == sub
  }

  /** Python's treatment of the `start` argument of `str.find`: a negative start counts from the end, clamped at 0. */
  function FindStart(len: nat, start: int): (k: nat)
    ensures start >= 0 ==> k == start
    ensures start < 0 && len + start >= 0 ==> k == len + start
    ensures len + start < 0 ==> k == 0
  {
    if start >= 0 then start
    else if start + len < 0 then 0
    else start + len
  }

  /** Leftmost occurrence of `sub` in `s` at an index `>= k`, or -1. */
  function FindFrom(s: string, sub: string, k: nat): (r: int)
    ensures r == -1 || (k <= r && OccursAt(s, sub, r))
    ensures r == -1 ==> forall q :: k <= q ==> !OccursAt(s, sub, q)
    ensures r != -1 ==> forall q :: k <= q < r ==> !OccursAt(s, sub, q)
    decreases |s| - k
  {
    if k + |sub| > |s| then -1
    else if OccursAt(s, sub, k) then k
    else FindFrom(s, sub, k + 1)
  }

  /** `s.find(sub, start)`: the leftmost index at or after the (normalised) start where `sub` occurs, or -1. */
  function Find(s: string, sub: string, start: int): (r: int)
    ensures r >= -1
    ensures r != -1 ==> FindStart(|s|, start) <= r
  {
    FindFrom(s, sub, FindStart(|s|, start))
  }

  /**
   * What `find` returns: an index at or after the start where `sub` occurs with
   * no occurrence between the start and it, or -1 when `sub` occurs nowhere at
   * or after the start.
   */
  lemma FindMeaning(s: string, sub: string, start: int)
    ensures Find(s, sub, start) != -1 ==> OccursAt(s, sub, Find(s, sub, start))
    ensures Find(s, sub, start) != -1 ==>
              forall q :: FindStart(|s|, start) <= q < Find(s, sub, start) ==> !OccursAt(s, sub, q)
    ensures Find(s, sub, start) == -1 ==> forall q :: FindStart(|s|, start) <= q ==> !OccursAt(s, sub, q)
  {
  }

  /** `sub in s`: it holds exactly when `s.find(sub)` finds something. */
  predicate Contains(s: string, sub: string)
    ensures Contains(s, sub) <==> Find(s, sub, 0) != -1
  {
    FindMeaning(s, sub, 0);
    exists k | 0 <= k <= |s| - |sub| :: OccursAt(s, sub, k)
  }

  // ---------------------------------------------------------------------------
  // Indexing and slicing
  // ---------------------------------------------------------------------------

  /** `s[k]`: a negative index counts from the end; anything outside `-|s| <= k < |s|` raises IndexError (None). */
  function CharAt(s: string, k: int): (r: Option<char>)
    ensures r.Some? <==> -|s| <= k < |s|
    ensures r.Some? && k >= 0 ==> r.value == s[k]
    ensures r.Some? && k < 0 ==> r.value == s[|s| + k]
  {
    if 0 <= k < |s| then Some(s[k])
    else if -|s| <= k < 0 then Some(s[|s| + k])
    else None
  }

  /** Where a slice bound lands: negative bounds count from the end, and bounds are clamped to `0..len`. */
  function SliceBound(len: nat, k: int): (b: nat)
    ensures b <= len
    ensures 0 <= k <= len ==> b == k
    ensures k > len ==> b == len
    ensures k < 0 <= k + len ==> b == len + k
    ensures k + len < 0 ==> b == 0
  {
    if k < 0 then (if k + len < 0 then 0 else k + len)
    else if k > len then len
    else k
  }

  /** `s[a:b]`: never raises; empty when the clamped stop is not past the clamped start. */
  function Slice(s: string, a: int, b: int): (r: string)
    ensures 0 <= a <= b <= |s| ==> r == s[a..b]
    ensures SliceBound(|s|, b) <= SliceBound(|s|, a) ==> r == []
    ensures SliceBound(|s|, a) < SliceBound(|s|, b) ==> r == s[SliceBound(|s|, a)..SliceBound(|s|, b)]
  {
    var lo, hi := SliceBound(|s|, a), SliceBound(|s|, b);
    if lo < hi then s[lo..hi] else []
  }

  // ---------------------------------------------------------------------------
  // int() on a string
  // ---------------------------------------------------------------------------

  /** The ASCII whitespace `int()` skips: tab, line feed, vertical tab, form feed, carriage return and space. */
  predicate IsSpace(c: char)
  {
    9 <= c as int <= 13 || c == ' '
  }

  predicate IsDigit(c: char)
  {
    '0' <= c <= '9'
  }

  predicate AllSpace(s: string)
  {
    forall q :: 0 <= q < |s| ==> IsSpace(s[q])
  }

  /** Not one ASCII digit. */
  predicate NoDigit(s: string)
  {
    forall q :: 0 <= q < |s| ==> !IsDigit(s[q])
  }

  /** One or more ASCII digits and nothing else. */
  predicate IsDecimal(s: string)
  {
    |s| > 0 && forall q :: 0 <= q < |s| ==> IsDigit(s[q])
  }

  function DigitValue(c: char): (d: nat)
    requires IsDigit(c)
    ensures d < 10
  {
    c as int - '0' as int
  }

  /** The number a run of decimal digits denotes, most significant digit first. */
  function DigitsValue(ds: string): nat
    requires forall q :: 0 <= q < |ds| ==> IsDigit(ds[q])
  {
    if ds == [] then 0 else DigitsValue(ds[..|ds| - 1]) * 10 + DigitValue(ds[|ds| - 1])
  }

  /** Drops leading whitespace. */
  function TrimStart(s: string): string
  {
    if |s| > 0 && IsSpace(s[0]) then TrimStart(s[1..]) else s
  }

  /** `TrimStart` drops a run of whitespace from the front, and what it keeps starts with no whitespace. */
  lemma {:induction false} TrimStartDrops(s: string)
    ensures var r := TrimStart(s);
            && |r| <= |s| && r == s[|s| - |r|..]
            && AllSpace(s[..|s| - |r|])
            && (|r| > 0 ==> !IsSpace(r[0]))
    decreases |s|
  {
    if |s| > 0 && IsSpace(s[0]) {
      TrimStartDrops(s[1..]);
      var r := TrimStart(s);
      assert s[1..][..|s| - 1 - |r|] == s[1..|s| - |r|];
      assert forall q :: 1 <= q < |s| - |r| ==> s[q] == s[1..][q - 1];
    } else {
      assert s[..0] == [];
    }
  }

  /** Drops trailing whitespace. */
  function TrimEnd(s: string): string
  {
    if |s| > 0 && IsSpace(s[|s| - 1]) then TrimEnd(s[..|s| - 1]) else s
  }

  /** `TrimEnd` drops a run of whitespace from the back, and what it keeps ends with no whitespace. */
  lemma {:induction false} TrimEndDrops(s: string)
    ensures var r := TrimEnd(s);
            && |r| <= |s| && r == s[..|r|]
            && AllSpace(s[|r|..])
            && (|r| > 0 ==> !IsSpace(r[|r| - 1]))
    decreases |s|
  {
    if |s| > 0 && IsSpace(s[|s| - 1]) {
      TrimEndDrops(s[..|s| - 1]);
      var r := TrimEnd(s);
      assert forall q :: |r| <= q < |s| - 1 ==> s[q] == s[..|s| - 1][q];
    } else {
      assert s[|s|..] == [];
    }
  }

  /** The text `int()` reads: `s` without its leading and trailing whitespace. */
  function Strip(s: string): string
  {
    TrimEnd(TrimStart(s))
  }

  /**
   * `int(s)`: surrounding whitespace is stripped, then an optional '+' or '-'
   * and one or more digits must make up the rest; otherwise ValueError (None).
   */
  function ParseInt(s: string): (r: Option<int>)
    ensures r.Some? <==> IsDecimal(Strip(s)) ||
                         (|Strip(s)| > 0 && Strip(s)[0] in "+-" && IsDecimal(Strip(s)[1..]))
  {
    var t := Strip(s);
    if |t| > 0 && (t[0] == '+' || t[0] == '-') then
      if IsDecimal(t[1..]) then
        Some(if t[0] == '-' then 0 - DigitsValue(t[1..]) else DigitsValue(t[1..]))
      else None
    else if IsDecimal(t) then Some(DigitsValue(t))
    else None
  }

  // ---------------------------------------------------------------------------
  // Decimal rendering: str(n) and two zero-padded digits
  // ---------------------------------------------------------------------------

  function DigitChar(d: nat): (c: char)
    requires d < 10
    ensures IsDigit(c) && DigitValue(c) == d
  {
    ('0' as int + d) as char
  }

  /** The decimal digits of `n` without leading zeros; they read back as `n`. */
  function NatToString(n: nat): (r: string)
    ensures IsDecimal(r) && DigitsValue(r) == n
    ensures n < 10 <==> |r| == 1
    ensures 10 <= n < 100 <==> |r| == 2
    ensures r[0] == '0' ==> n == 0
    decreases n
  {
    if n < 10 then [DigitChar(n)]
    else
      var r := NatToString(n / 10) + [DigitChar(n % 10)];
      assert r[..|r| - 1] == NatToString(n / 10);
      r
  }

  /** `str(n)` for any integer. */
  function IntToString(n: int): string
  {
    if n < 0 then "-" + NatToString(-n) else NatToString(n)
  }

  /** The `02d` format of `n >= 0`: at least two digits, zero-padded on the left, reading back as `n`. */
  function Pad2(n: nat): (r: string)
    ensures IsDecimal(r) && DigitsValue(r) == n
    ensures n < 100 <==> |r| == 2
    ensures n < 10 ==> r[0] == '0'
  {
    if n < 10 then
      var r := "0" + NatToString(n);
      assert r[..1] == "0";
      r
    else NatToString(n)
  }

  // ---------------------------------------------------------------------------
  // Properties of int()
  // ---------------------------------------------------------------------------

  lemma {:induction false} TrimStartOfPadded(pre: string, t: string)
    requires AllSpace(pre)
    requires |t| > 0 && !IsSpace(t[0])
    ensures TrimStart(pre + t) == t
    decreases |pre|
  {
    if pre == [] {
      assert pre + t == t;
    } else {
      assert (pre + t)[1..] == pre[1..] + t;
      TrimStartOfPadded(pre[1..], t);
    }
  }

  lemma {:induction false} TrimEndOfPadded(t: string, post: string)
    requires AllSpace(post)
    requires |t| > 0 && !IsSpace(t[|t| - 1])
    ensures TrimEnd(t + post) == t
    decreases |post|
  {
    if post == [] {
      assert t + post == t;
    } else {
      assert (t + post)[..|t + post| - 1] == t + post[..|post| - 1];
      TrimEndOfPadded(t, post[..|post| - 1]);
    }
  }

  /** Surrounding whitespace does not matter: what `int()` reads is the text between it. */
  lemma StripOfPadded(pre: string, t: string, post: string)
    requires AllSpace(pre) && AllSpace(post)
    requires |t| > 0 && !IsSpace(t[0]) && !IsSpace(t[|t| - 1])
    ensures Strip(pre + t + post) == t
  {
    assert pre + t + post == pre + (t + post);
    TrimStartOfPadded(pre, t + post);
    TrimEndOfPadded(t, post);
  }

  /** Round trip: `int(str(n))`, with tabs, line ends or spaces around it, gives back `n`. */
  lemma ParseIntOfString(pre: string, n: int, post: string)
    requires AllSpace(pre) && AllSpace(post)
    ensures ParseInt(pre + IntToString(n) + post) == Some(n)
  {
    var t := IntToString(n);
    var ds := NatToString(if n < 0 then -n else n);
    StripOfPadded(pre, t, post);
    if n < 0 {
      assert t[1..] == ds;
    }
  }

  /** A string of digits parses to the number it spells. */
  lemma ParseIntOfDecimal(s: string)
    requires IsDecimal(s)
    ensures ParseInt(s) == Some(DigitsValue(s))
  {
    StripOfPadded([], s, []);
    assert [] + s + [] == s;
  }

  /**
   * A sign followed by digits, with whitespace around it, reads as the signed
   * number the digits spell; leading zeros after the sign are allowed.
   */
  lemma ParseIntOfSigned(pre: string, sign: char, ds: string, post: string)
    requires AllSpace(pre) && AllSpace(post)
    requires (sign == '+' || sign == '-') && IsDecimal(ds)
    ensures ParseInt(pre + ([sign] + ds) + post) == Some(if sign == '-' then -(DigitsValue(ds) as int) else DigitsValue(ds))
  {
    var t := [sign] + ds;
    StripOfPadded(pre, t, post);
    assert t[1..] == ds;
  }

  /** `int(c)` for a single character succeeds exactly on a digit, giving its value. */
  lemma ParseIntOfChar(c: char)
    ensures ParseInt([c]).Some? <==> IsDigit(c)
    ensures IsDigit(c) ==> ParseInt([c]) == Some(DigitValue(c))
  {
    if IsDigit(c) {
      ParseIntOfDecimal([c]);
      assert [c][..0] == [];
    } else if IsSpace(c) {
      assert TrimStart([c]) == TrimStart([c][1..]);
    }
  }

  /** Anything other than whitespace, a sign or a digit makes `int()` raise ValueError. */
  lemma ParseIntRejectsForeignChar(s: string, p: int)
    requires 0 <= p < |s|
    requires !IsSpace(s[p]) && !IsDigit(s[p]) && s[p] != '+' && s[p] != '-'
    ensures ParseInt(s) == None
  {
    var t1 := TrimStart(s);
    var t := TrimEnd(t1);
    TrimStartDrops(s);
    TrimEndDrops(t1);
    var a := |s| - |t1|;
    forall q | 0 <= q < a
      ensures IsSpace(s[q])
    {
      assert s[..a][q] == s[q];
    }
    forall q | |t| <= q < |t1|
      ensures IsSpace(t1[q])
    {
      assert t1[|t|..][q - |t|] == t1[q];
    }
    assert t1[p - a] == s[p];
    assert t[p - a] == s[p];
  }

  /** Whitespace alone, including the empty string, makes `int()` raise ValueError. */
  lemma ParseIntRejectsBlank(s: string)
    requires AllSpace(s)
    ensures ParseInt(s) == None
  {
    TrimStartDrops(s);
  }

  /** Without a digit, `int()` raises ValueError, whatever else the string holds. */
  lemma ParseIntNeedsDigit(s: string)
    requires NoDigit(s)
    ensures ParseInt(s) == None
  {
    var t1 := TrimStart(s);
    var t := TrimEnd(t1);
    TrimStartDrops(s);
    TrimEndDrops(t1);
    var a := |s| - |t1|;
    forall q | 0 <= q < |t|
      ensures !IsDigit(t[q])
    {
      assert t[q] == t1[q] == s[a + q];
    }
    if |t| > 1 {
      assert t[1..][0] == t[1];
    }
  }

  /** `int()` reads a run of digits as the number it spells, and rejects a string without a digit. */
  lemma ParseIntCases(s: string)
    ensures IsDecimal(s) ==> ParseInt(s) == Some(DigitsValue(s))
    ensures NoDigit(s) ==> ParseInt(s) == None
  {
    if IsDecimal(s) {
      ParseIntOfDecimal(s);
    } else if NoDigit(s) {
      ParseIntNeedsDigit(s);
    }
  }
}
