/** String searches and character classes shared by the parsers (std::string::find and the
    character classes of the regular expressions). */
module Text {
  import opened Wrappers

  /** `pat` occurs in `s` starting at index `i`. */
  predicate OccursAt(s: string, pat: string, i: nat) {
    i + |pat| <= |s| && s[i..i + |pat|] == pat
  }

  /** std::string::find(pat, from): the least index at or after `from` where `pat` occurs. */
  function Find(s: string, pat: string, from: nat): (r: Option<nat>)
    decreases |s| - from
    ensures r.Some? ==> from <= r.value && OccursAt(s, pat, r.value)
    ensures r.Some? ==> forall j :: from <= j < r.value ==> !OccursAt(s, pat, j)
    ensures r.None? ==> forall j :: from <= j ==> !OccursAt(s, pat, j)
  {
    if |s| < from + |pat| then None
    else if OccursAt(s, pat, from) then Some(from)
    else Find(s, pat, from + 1)
  }

  /** The first occurrence at or after `from` is the one `Find` reports. */
  lemma FindIs(s: string, pat: string, from: nat, i: nat)
    requires from <= i && OccursAt(s, pat, i)
    requires forall j :: from <= j < i ==> !OccursAt(s, pat, j)
    ensures Find(s, pat, from) == Some(i)
  {
  }

  /** A prefix is a shorter prefix followed by the slice between them. */
  lemma SliceJoin(s: string, i: nat, j: nat)
    requires i <= j <= |s|
    ensures s[..j] == s[..i] + s[i..j]
  {
  }

  /** `s.find(pat) != npos`. */
  predicate Contains(s: string, pat: string) {
    Find(s, pat, 0).Some?
  }

  lemma ContainsIff(s: string, pat: string)
    ensures Contains(s, pat) <==> exists j :: OccursAt(s, pat, j)
  {
    if !Contains(s, pat) {
      assert forall j :: 0 <= j ==> !OccursAt(s, pat, j);
    }
  }

  /** Whether `pat` occurs at `j` in `x + y` depends only on `x` when the window fits in `x`. */
  lemma OccursPrefix(x: string, y: string, pat: string, j: nat)
    requires j + |pat| <= |x|
    ensures OccursAt(x + y, pat, j) <==> OccursAt(x, pat, j)
  {
    assert (x + y)[j..j + |pat|] == x[j..j + |pat|];
  }

  /** Occurrences in `x + y` past `x` are the occurrences in `y`, shifted by `|x|`. */
  lemma OccursSuffix(x: string, y: string, pat: string, j: nat)
    ensures OccursAt(x + y, pat, |x| + j) <==> OccursAt(y, pat, j)
  {
    if |x| + j + |pat| <= |x + y| {
      assert (x + y)[|x| + j..|x| + j + |pat|] == y[j..j + |pat|];
    }
  }

  /** `\d` of the regular expressions. */
  predicate IsDigit(c: char) {
    '0' <= c <= '9'
  }

  /** `\s` of the regular expressions: space, tab, LF, VT, FF and CR. */
  predicate IsSpace(c: char) {
    c == ' ' || c == '\t' || c == '\n' || c == '\U{0B}' || c == '\U{0C}' || c == '\r'
  }

  /** `[^\s]`. */
  predicate NotSpace(c: char) {
    !IsSpace(c)
  }

  /** Every character of `s[i..j]` satisfies `p`. */
  predicate AllIn(s: string, i: nat, j: nat, p: char -> bool) {
    i <= j <= |s| && forall t :: i <= t < j ==> p(s[t])
  }

  /** The end of the longest run of characters satisfying `p` that starts at `i`. */
  function RunEnd(s: string, i: nat, p: char -> bool): (r: nat)
    requires i <= |s|
    decreases |s| - i
    ensures i <= r <= |s|
    ensures forall k :: i <= k < r ==> p(s[k])
    ensures r == |s| || !p(s[r])
  {
    if i < |s| && p(s[i]) then RunEnd(s, i + 1, p) else i
  }

  /** A run of `p` that cannot be extended is the one `RunEnd` finds. */
  lemma {:induction false} RunEndAt(s: string, i: nat, j: nat, p: char -> bool)
    requires AllIn(s, i, j, p) && (j == |s| || !p(s[j]))
    decreases j - i
    ensures RunEnd(s, i, p) == j
  {
    if i < j {
      RunEndAt(s, i + 1, j, p);
    }
  }

  /** The number a run of decimal digits denotes (before any range check). */
  function DecimalValue(d: string): nat
    requires forall k :: 0 <= k < |d| ==> IsDigit(d[k])
  {
    if d == [] then 0
    else
      var last := d[|d| - 1];
      assert IsDigit(last);
      DecimalValue(d[..|d| - 1]) * 10 + (last as int - '0' as int)
  }

  /** The decimal rendering of `n`, without leading zeros. */
  function DecimalDigits(n: nat): (s: string)
    ensures s != [] && forall k :: 0 <= k < |s| ==> IsDigit(s[k])
    ensures |s| > 1 ==> s[0] != '0'
  {
    if n < 10 then [('0' as int + n) as char]
    else DecimalDigits(n / 10) + [('0' as int + n % 10) as char]
  }

  /** Reading back a rendered number gives the number. */
  lemma {:induction false} DecimalRoundTrip(n: nat)
    ensures DecimalValue(DecimalDigits(n)) == n
  {
    var s := DecimalDigits(n);
    if n >= 10 {
      assert s[..|s| - 1] == DecimalDigits(n / 10);
      DecimalRoundTrip(n / 10);
    }
  }

  /** How many characters of `s` satisfy `p`. */
  function Count(s: string, p: char -> bool): (n: nat)
    ensures n <= |s|
  {
    if s == [] then 0 else (if p(s[0]) then 1 else 0) + Count(s[1..], p)
  }
}
