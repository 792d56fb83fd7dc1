/**
 * The JavaScript string operations the generator and the components rely on:
 * `indexOf`, `lastIndexOf`, substring search, `trim`, and number-to-string
 * conversion of property keys. Strings are sequences of characters.
 */
module Text {
  import opened Wrappers

  /**
   * The characters of JavaScript's `\s` class, which are also exactly the
   * characters `String.prototype.trim` removes (ECMAScript WhiteSpace and
   * LineTerminator).
   */
  predicate IsSpace(c: char) {
    var n := c as int;
    || n == 0x09 || n == 0x0A || n == 0x0B || n == 0x0C || n == 0x0D
    || n == 0x20 || n == 0xA0 || n == 0x1680
    || (0x2000 <= n <= 0x200A)
    || n == 0x2028 || n == 0x2029 || n == 0x202F || n == 0x205F
    || n == 0x3000 || n == 0xFEFF
  }

  predicate AllSpace(s: string) {
    forall i :: 0 <= i < |s| ==> IsSpace(s[i])
  }

  /** Neither the first nor the last character is white space. */
  predicate NoOuterSpace(s: string) {
    s != [] ==> !IsSpace(s[0]) && !IsSpace(s[|s| - 1])
  }

  /** `s.indexOf(c)`: the first position of `c` in `s`, or -1. */
  function IndexOf(s: string, c: char): (r: int)
    ensures -1 <= r < |s|
    ensures r == -1 <==> c !in s
    ensures r >= 0 ==> s[r] == c && c !in s[..r]
  {
    if |s| == 0 then -1
    else if s[0] == c then 0
    else
      var k := IndexOf(s[1..], c);
      if k == -1 then -1
      else
        assert s[..k + 1] == [s[0]] + s[1..][..k];
        k + 1
  }

  /** A `c` at `k` with none before it is what `indexOf` finds. */
  lemma IndexOfAt(s: string, c: char, k: nat)
    requires k < |s| && s[k] == c && c !in s[..k]
    ensures IndexOf(s, c) == k
  {
    assert forall j :: 0 <= j < k ==> s[..k][j] == s[j];
    var r := IndexOf(s, c);
    assert r >= 0 ==> forall j :: 0 <= j < r ==> s[..r][j] == s[j];
  }

  /** `s.lastIndexOf(c)`: the last position of `c` in `s`, or -1. */
  function LastIndexOf(s: string, c: char): (r: int)
    ensures -1 <= r < |s|
    ensures r == -1 <==> c !in s
    ensures r >= 0 ==> s[r] == c && c !in s[r + 1..]
  {
    LastIndexBefore(s, c, |s|)
  }

  /** The last position of `c` among the first `n` characters of `s`, or -1. */
  function LastIndexBefore(s: string, c: char, n: nat): (r: int)
    requires n <= |s|
    ensures -1 <= r < n
    ensures r == -1 <==> forall i :: 0 <= i < n ==> s[i] != c
    ensures r >= 0 ==> s[r] == c && forall i :: r < i < n ==> s[i] != c
  {
    if n == 0 then -1
    else if s[n - 1] == c then n - 1
    else LastIndexBefore(s, c, n - 1)
  }

  /** A character of `s` that differs from `pat` shows that `pat` does not start at `p`. */
  lemma MismatchAt(s: string, p: nat, pat: string, i: nat)
    requires i < |pat| && p + i < |s| && s[p + i] != pat[i]
    ensures !StartsAt(s, p, pat)
  {
    assert p + |pat| <= |s| ==> s[p..p + |pat|][i] == s[p + i];
  }

  /** `pat` occurs in `s` starting at position `p`. */
  predicate StartsAt(s: string, p: nat, pat: string) {
    p + |pat| <= |s| && s[p..p + |pat|] == pat
  }

  /** The first occurrence of `pat` in `s` at or after position `from`. */
  function FindFrom(s: string, pat: string, from: nat): (r: Option<nat>)
    decreases |s| - from
    ensures r.Some? ==> from <= r.value && StartsAt(s, r.value, pat)
    ensures r.Some? ==> forall q :: from <= q < r.value ==> !StartsAt(s, q, pat)
    ensures r.None? ==> forall q :: from <= q ==> !StartsAt(s, q, pat)
  {
    if from + |pat| > |s| then None
    else if StartsAt(s, from, pat) then Some(from)
    else FindFrom(s, pat, from + 1)
  }

  /** An occurrence with none before it, from `from` on, is the one `FindFrom` finds. */
  lemma {:induction false} FindFromFirst(s: string, pat: string, from: nat, p: nat)
    requires from <= p && StartsAt(s, p, pat)
    requires forall q :: from <= q < p ==> !StartsAt(s, q, pat)
    ensures FindFrom(s, pat, from) == Some(p)
    decreases p - from
  {
    if from < p {
      FindFromFirst(s, pat, from + 1, p);
    }
  }

  /** `s.trimStart()`. */
  function TrimStart(s: string): (r: string)
    ensures |r| <= |s| && r == s[|s| - |r|..]
    ensures AllSpace(s[..|s| - |r|])
    ensures r != [] ==> !IsSpace(r[0])
  {
    if s != [] && IsSpace(s[0]) then
      var r := TrimStart(s[1..]);
      var k := |s| - |r|;
      assert 1 <= k <= |s|;
      assert AllSpace(s[1..][..k - 1]);
      SpaceBeforeRest(s, k);
      assert r == s[k..];
      r
    else s
  }

  /** A space followed by a run of spaces is a run of spaces. */
  lemma SpaceBeforeRest(s: string, k: nat)
    requires 1 <= k <= |s| && IsSpace(s[0]) && AllSpace(s[1..][..k - 1])
    ensures AllSpace(s[..k]) && s[1..][k - 1..] == s[k..]
  {
    forall i | 1 <= i < k
      ensures IsSpace(s[..k][i])
    {
      assert s[..k][i] == s[1..][..k - 1][i - 1];
    }
  }

  /** `s.trimEnd()`. */
  function TrimEnd(s: string): (r: string)
    ensures |r| <= |s| && r == s[..|r|]
    ensures AllSpace(s[|r|..])
    ensures r != [] ==> !IsSpace(r[|r| - 1])
  {
    if s != [] && IsSpace(s[|s| - 1]) then
      var r := TrimEnd(s[..|s| - 1]);
      assert s[|r|..] == s[..|s| - 1][|r|..] + [s[|s| - 1]];
      r
    else s
  }

  /**
   * `s.trim()`: the part of `s` between its leading and its trailing white
   * space, which itself neither starts nor ends with white space.
   */
  function Trim(s: string): (r: string)
    ensures NoOuterSpace(r)
    ensures var e := |TrimEnd(s)|; var b := e - |r|;
      && 0 <= b <= e <= |s| && r == s[b..e]
      && AllSpace(s[..b]) && AllSpace(s[e..])
  {
    var t := TrimEnd(s);
    var r := TrimStart(t);
    SliceOfPrefix(s, |t|, |t| - |r|);
    r
  }

  /** Slices of the prefix `s[..e]` are slices of `s`. */
  lemma SliceOfPrefix(s: string, e: nat, b: nat)
    requires b <= e <= |s|
    ensures s[..e][b..] == s[b..e] && s[..e][..b] == s[..b]
    ensures b < e ==> s[..e][b..][e - b - 1] == s[e - 1]
  {
  }

  /** A string without outer white space is its own trim. */
  lemma {:induction false} TrimKeepsTrimmed(s: string)
    requires NoOuterSpace(s)
    ensures Trim(s) == s
  {
  }

  /** Trailing white space after a string that does not end in white space is what `trimEnd` removes. */
  lemma {:induction false} TrimEndSpaces(x: string, post: string)
    requires AllSpace(post) && (x != [] ==> !IsSpace(x[|x| - 1]))
    ensures TrimEnd(x + post) == x
    decreases |post|
  {
    if post == [] {
      assert x + post == x;
    } else {
      assert (x + post)[..|x + post| - 1] == x + post[..|post| - 1];
      TrimEndSpaces(x, post[..|post| - 1]);
    }
  }

  /** Leading white space before a string that does not start with white space is what `trimStart` removes. */
  lemma {:induction false} TrimStartSpaces(pre: string, x: string)
    requires AllSpace(pre) && (x != [] ==> !IsSpace(x[0]))
    ensures TrimStart(pre + x) == x
    decreases |pre|
  {
    if pre == [] {
      assert pre + x == x;
    } else {
      assert (pre + x)[1..] == pre[1..] + x;
      TrimStartSpaces(pre[1..], x);
    }
  }

  /** `trim` recovers a string without outer white space from any white-space padding. */
  lemma TrimPadded(pre: string, mid: string, post: string)
    requires AllSpace(pre) && AllSpace(post) && NoOuterSpace(mid)
    ensures Trim(pre + mid + post) == mid
  {
    if mid == [] {
      assert pre + mid + post == [] + (pre + post);
      TrimEndSpaces([], pre + post);
      TrimStartSpaces([], []);
    } else {
      assert (pre + mid)[|pre + mid| - 1] == mid[|mid| - 1];
      TrimEndSpaces(pre + mid, post);
      TrimStartSpaces(pre, mid);
    }
  }

  /** Trimming twice is trimming once. */
  lemma TrimIdempotent(s: string)
    ensures Trim(Trim(s)) == Trim(s)
  {
    TrimKeepsTrimmed(Trim(s));
  }

  /** The decimal digits of `n`, as `String(n)` writes a non-negative integer. */
  function NatToString(n: nat): (r: string)
    ensures 1 <= |r|
    ensures forall i :: 0 <= i < |r| ==> '0' <= r[i] <= '9'
    ensures n < 10 <==> |r| == 1
    ensures n > 0 ==> r[0] != '0'
    ensures DecimalValue(r) == n
  {
    if n < 10 then [Digit(n)]
    else
      var r := NatToString(n / 10) + [Digit(n % 10)];
      assert r[..|r| - 1] == NatToString(n / 10);
      r
  }

  function Digit(d: nat): (c: char)
    requires d < 10
    ensures '0' <= c <= '9' && c as int - '0' as int == d
  {
    "0123456789"[d]
  }

  /** The number a string of decimal digits denotes, most significant digit first. */
  function DecimalValue(s: string): int {
    if s == [] then 0 else 10 * DecimalValue(s[..|s| - 1]) + (s[|s| - 1] as int - '0' as int)
  }

  /** `String(i)` for an integer, as JavaScript turns a number into a property key. */
  function IntToString(i: int): (r: string)
    ensures r != []
    ensures (r[0] == '-') <==> i < 0
  {
    if i < 0 then "-" + NatToString(-i) else NatToString(i)
  }

  /** Different numbers are written differently. */
  lemma {:induction false} NatToStringInjective(a: nat, b: nat)
    requires NatToString(a) == NatToString(b)
    ensures a == b
  {
    if a >= 10 && b >= 10 {
      var sa, sb := NatToString(a), NatToString(b);
      assert sa[..|sa| - 1] == NatToString(a / 10);
      assert sb[..|sb| - 1] == NatToString(b / 10);
      NatToStringInjective(a / 10, b / 10);
      assert Digit(a % 10) == sa[|sa| - 1] == sb[|sb| - 1] == Digit(b % 10);
      DigitInjective(a % 10, b % 10);
    } else if a < 10 && b < 10 {
      DigitInjective(a, b);
    }
  }

  lemma DigitInjective(d: nat, e: nat)
    requires d < 10 && e < 10 && Digit(d) == Digit(e)
    ensures d == e
  {
  }

  /** Different integers give different property keys. */
  lemma IntToStringInjective(a: int, b: int)
    requires IntToString(a) == IntToString(b)
    ensures a == b
  {
    assert (a < 0) == (b < 0);
    IntToStringParts(a);
    IntToStringParts(b);
    if a < 0 {
      NatToStringInjective(-a, -b);
    } else {
      NatToStringInjective(a, b);
    }
  }

  /** The sign and the digits of `IntToString(i)`. */
  lemma IntToStringParts(i: int)
    ensures i < 0 ==> IntToString(i)[1..] == NatToString(-i)
    ensures i >= 0 ==> IntToString(i) == NatToString(i)
  {
    if i < 0 {
      assert IntToString(i) == "-" + NatToString(-i);
    }
  }
}
