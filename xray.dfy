/** Ingest of the proxy's statistics output and access log into the peer table
    (src/XRayClient.cpp). The three regular expressions are hand-written matchers. */
module XRay {
  import opened Wrappers
  import opened Text
  import opened Users
  import PeerTable

  // ---------------------------------------------------------------------------
  // Composite stat names: <prefix>>>><email>>>><scope>>>><direction>

  const Marker: string := ">>>"

  /** `extractEmailFromStatName`: the text between the first two `>>>` markers, or "". */
  function ExtractEmailFromStatName(name: string): (r: string)
    ensures r != "" ==> exists i: nat :: OccursAt(name, Marker, i) && OccursAt(name, Marker, i + 3 + |r|)
                                    && name[i + 3..i + 3 + |r|] == r
    ensures !Contains(name, Marker) ==> r == ""
  {
    match Find(name, Marker, 0)
    case None => ""
    case Some(p1) =>
      match Find(name, Marker, p1 + 3)
      case None => ""
      case Some(p2) => name[p1 + 3..p2]
  }

  /** For a name p + ">>>" + r + ">>>" + rest: no marker starts inside p exactly when p + ">>"
      holds none, and likewise for r. */
  lemma MarkersOfSplit(p: string, r: string, rest: string)
    ensures var name := p + Marker + r + Marker + rest;
            && (!Contains(p + ">>", Marker) <==> forall j :: 0 <= j < |p| ==> !OccursAt(name, Marker, j))
            && (!Contains(r + ">>", Marker) <==>
                  forall j :: |p| + 3 <= j < |p| + 3 + |r| ==> !OccursAt(name, Marker, j))
  {
    var name := p + Marker + r + Marker + rest;
    var a, tailA := p + ">>", ">" + r + Marker + rest;
    assert name == a + tailA;
    var x, b, tailB := p + Marker, r + ">>", ">" + rest;
    assert name == x + (b + tailB);
    if !Contains(a, Marker) {
      forall j | 0 <= j < |p| ensures !OccursAt(name, Marker, j) {
        OccursPrefix(a, tailA, Marker, j);
      }
    } else {
      var j := Find(a, Marker, 0).value;
      OccursPrefix(a, tailA, Marker, j);
      assert 0 <= j < |p| && OccursAt(name, Marker, j);
    }
    if !Contains(b, Marker) {
      forall j | |p| + 3 <= j < |p| + 3 + |r| ensures !OccursAt(name, Marker, j) {
        var i := j - |x|;
        OccursSuffix(x, b + tailB, Marker, i);
        OccursPrefix(b, tailB, Marker, i);
      }
    } else {
      var i := Find(b, Marker, 0).value;
      OccursSuffix(x, b + tailB, Marker, i);
      OccursPrefix(b, tailB, Marker, i);
      assert OccursAt(name, Marker, |x| + i);
    }
  }

  /** A name with markers at `i` and `j` is the text around and between them. */
  lemma SplitAtMarkers(name: string, i: nat, j: nat)
    requires OccursAt(name, Marker, i) && OccursAt(name, Marker, j) && i + 3 <= j
    ensures name == name[..i] + Marker + name[i + 3..j] + Marker + name[j + 3..]
  {
    assert name[i..i + 3] == Marker && name[j..j + 3] == Marker;
    assert name[..i + 3] == name[..i] + Marker by { SliceJoin(name, i, i + 3); }
    assert name[..j] == name[..i] + Marker + name[i + 3..j] by { SliceJoin(name, i + 3, j); }
    assert name[..j + 3] == name[..i] + Marker + name[i + 3..j] + Marker by { SliceJoin(name, j, j + 3); }
    SliceJoin(name, j + 3, |name|);
  }

  /** A non-empty result is the second segment: the name splits as
      p + ">>>" + r + ">>>" + rest with no earlier marker in p or r. */
  lemma ExtractEmailSplit(name: string) returns (p: string, rest: string)
    requires ExtractEmailFromStatName(name) != ""
    ensures var r := ExtractEmailFromStatName(name);
            && name == p + Marker + r + Marker + rest
            && !Contains(p + ">>", Marker) && !Contains(r + ">>", Marker)
  {
    var p1 := Find(name, Marker, 0).value;
    var p2 := Find(name, Marker, p1 + 3).value;
    var r := name[p1 + 3..p2];
    p, rest := name[..p1], name[p2 + 3..];
    SplitAtMarkers(name, p1, p2);
    MarkersOfSplit(p, r, rest);
  }

  /** Conversely, every such split yields its second segment. */
  lemma ExtractEmailOfSplit(p: string, r: string, rest: string)
    requires !Contains(p + ">>", Marker) && !Contains(r + ">>", Marker)
    ensures ExtractEmailFromStatName(p + Marker + r + Marker + rest) == r
  {
    var name := p + Marker + r + Marker + rest;
    var a, b := |p|, |p| + 3 + |r|;
    MarkersOfSplit(p, r, rest);
    OccursSuffix(p, Marker + r + Marker + rest, Marker, 0);
    OccursSuffix(p + Marker + r, Marker + rest, Marker, 0);
    assert name == (p + Marker + r) + (Marker + rest);
    assert OccursAt(name, Marker, a) && OccursAt(name, Marker, b);
    FindIs(name, Marker, 0, a);
    FindIs(name, Marker, a + 3, b);
    assert name[a + 3..b] == r;
  }

  /** Text without any '>' cannot hold a marker even with ">>" appended. */
  lemma NoMarkerWithoutGt(s: string)
    requires forall k :: 0 <= k < |s| ==> s[k] != '>'
    ensures !Contains(s + ">>", Marker)
  {
    var t := s + ">>";
    forall j: nat ensures !OccursAt(t, Marker, j) {
      if j + 3 <= |t| {
        assert t[j..j + 3][0] == t[j];
        if j < |s| { assert t[j] == s[j]; }
      }
    }
  }

  /** A name "user>>>alice>>>" followed by anything, such as "traffic>>>downlink", yields "alice". */
  lemma ExtractEmailExample(name: string, rest: string)
    requires name == "user" + Marker + "alice" + Marker + rest
    ensures ExtractEmailFromStatName(name) == "alice"
  {
    var p, r := "user", "alice";
    assert !Contains(p + ">>", Marker) by {
      assert forall k :: 0 <= k < |p| ==> p[k] != '>';
      NoMarkerWithoutGt(p);
    }
    assert !Contains(r + ">>", Marker) by {
      assert forall k :: 0 <= k < |r| ==> r[k] != '>';
      NoMarkerWithoutGt(r);
    }
    ExtractEmailOfSplit(p, r, rest);
  }

  // ---------------------------------------------------------------------------
  // The three patterns, as leftmost-match searches (std::regex_search)

  /** `[^"]`. */
  predicate NotQuote(c: char) {
    c != '"'
  }

  /** `.` of the ECMAScript grammar: anything but a line terminator. */
  predicate NotLineEnd(c: char) {
    c != '\n' && c != '\r'
  }

  /** `regex_search`: what `at` finds at the least index from `i` to `n` where it finds
      anything. */
  function Leftmost<T>(at: nat -> Option<T>, i: nat, n: nat): Option<T>
    decreases n - i
  {
    if n < i then None
    else if at(i).Some? then at(i)
    else Leftmost(at, i + 1, n)
  }

  /** `Leftmost` reports `at` at the least index where it succeeds, and nothing exactly when
      it succeeds nowhere. */
  lemma {:induction false} LeftmostIs<T>(at: nat -> Option<T>, i: nat, n: nat)
    decreases n - i
    ensures Leftmost(at, i, n).Some? ==>
              exists k :: i <= k <= n && at(k) == Leftmost(at, i, n)
                          && forall k' :: i <= k' < k ==> at(k').None?
    ensures Leftmost(at, i, n).None? <==> forall k :: i <= k <= n ==> at(k).None?
  {
    if i <= n && at(i).None? {
      LeftmostIs(at, i + 1, n);
    }
  }

  /** The index `Leftmost` reports: `at` succeeds there and nowhere before it. */
  lemma {:induction false} LeftmostWitness<T>(at: nat -> Option<T>, i: nat, n: nat) returns (k: nat)
    requires Leftmost(at, i, n).Some?
    decreases n - i
    ensures i <= k <= n && at(k) == Leftmost(at, i, n)
    ensures forall k' :: i <= k' < k ==> at(k').None?
  {
    if at(i).Some? {
      k := i;
    } else {
      k := LeftmostWitness(at, i + 1, n);
    }
  }

  /** Where `at` succeeds, `Leftmost` succeeds; at the first such index it reports that one. */
  lemma {:induction false} LeftmostFinds<T>(at: nat -> Option<T>, i: nat, n: nat, k: nat)
    requires i <= k <= n && at(k).Some?
    decreases k - i
    ensures Leftmost(at, i, n).Some?
    ensures (forall k' :: i <= k' < k ==> at(k').None?) ==> Leftmost(at, i, n) == at(k)
  {
    if i < k && at(i).None? {
      LeftmostFinds(at, i + 1, n, k);
    }
  }

  /** `"name":\s*"([^"]+)"` tried at index `i`. */
  function NameAt(line: string, i: nat): (r: Option<string>)
    requires i <= |line|
    ensures r.Some? ==> r.value != [] && forall k :: 0 <= k < |r.value| ==> r.value[k] != '"'
  {
    if !OccursAt(line, "\"name\":", i) then None
    else
      var j := RunEnd(line, i + 7, IsSpace);
      if j < |line| && line[j] == '"' then
        var k := RunEnd(line, j + 1, NotQuote);
        if j + 1 < k < |line| then Some(line[j + 1..k]) else None
      else None
  }

  /** `NameAt` at every index of `line`. */
  function NameAtFn(line: string): nat -> Option<string> {
    (k: nat) => if k <= |line| then NameAt(line, k) else None
  }

  /** The capture of the leftmost match of the stat-name pattern at or after `i`. */
  function SearchName(line: string, i: nat): (r: Option<string>)
    requires i <= |line|
    ensures r.Some? ==> r.value != [] && forall k :: 0 <= k < |r.value| ==> r.value[k] != '"'
  {
    LeftmostIs(NameAtFn(line), i, |line|);
    Leftmost(NameAtFn(line), i, |line|)
  }

  /** A match of `"name":\s*"([^"]+)"` starting at `k`: the literal, blanks up to the opening
      quote at `j`, and the capture `line[j + 1..e]` closed by the quote at `e`. */
  predicate NameMatch(line: string, k: nat, j: nat, e: nat) {
    && OccursAt(line, "\"name\":", k)
    && AllIn(line, k + 7, j, IsSpace) && j < |line| && line[j] == '"'
    && j + 1 < e && AllIn(line, j + 1, e, NotQuote) && e < |line| && line[e] == '"'
  }

  /** What `NameAt` finds is a match. */
  lemma NameAtMatches(line: string, k: nat) returns (j: nat, e: nat)
    requires k <= |line| && NameAt(line, k).Some?
    ensures NameMatch(line, k, j, e) && NameAt(line, k) == Some(line[j + 1..e])
  {
    j := RunEnd(line, k + 7, IsSpace);
    e := RunEnd(line, j + 1, NotQuote);
  }

  /** Every match is what `NameAt` finds. */
  lemma MatchNameAt(line: string, k: nat, j: nat, e: nat)
    requires NameMatch(line, k, j, e)
    ensures NameAt(line, k) == Some(line[j + 1..e])
  {
    RunEndAt(line, k + 7, j, IsSpace);
    RunEndAt(line, j + 1, e, NotQuote);
  }

  /** No match starts where `NameAt` finds nothing. */
  lemma NoNameMatch(line: string, k: nat)
    requires k <= |line| && NameAt(line, k).None?
    ensures forall j': nat, e': nat :: !NameMatch(line, k, j', e')
  {
    forall j': nat, e': nat ensures !NameMatch(line, k, j', e') {
      if NameMatch(line, k, j', e') {
        MatchNameAt(line, k, j', e');
      }
    }
  }

  /** Below the index `Leftmost` picks, no match starts. */
  lemma NoNameMatchBefore(line: string, k: nat)
    requires k <= |line| && forall k' :: 0 <= k' < k ==> NameAtFn(line)(k').None?
    ensures forall k': nat, j': nat, e': nat :: k' < k ==> !NameMatch(line, k', j', e')
  {
    forall k': nat, j': nat, e': nat | k' < k ensures !NameMatch(line, k', j', e') {
      assert NameAtFn(line)(k') == NameAt(line, k');
      NoNameMatch(line, k');
    }
  }

  /** Where no match starts, `NameAt` finds nothing. */
  lemma NameAtNoneBefore(line: string, k: nat)
    requires k <= |line| && forall k': nat, j': nat, e': nat :: k' < k ==> !NameMatch(line, k', j', e')
    ensures forall k' :: 0 <= k' < k ==> NameAtFn(line)(k').None?
  {
    forall k' | 0 <= k' < k ensures NameAtFn(line)(k').None? {
      assert NameAtFn(line)(k') == NameAt(line, k');
      if NameAt(line, k').Some? {
        var j', e' := NameAtMatches(line, k');
      }
    }
  }

  /** A captured name comes from a match, and no match starts before it. */
  lemma SearchNameSound(line: string) returns (k: nat, j: nat, e: nat)
    requires SearchName(line, 0).Some?
    ensures NameMatch(line, k, j, e) && SearchName(line, 0) == Some(line[j + 1..e])
    ensures forall k': nat, j': nat, e': nat :: k' < k ==> !NameMatch(line, k', j', e')
  {
    k := LeftmostWitness(NameAtFn(line), 0, |line|);
    assert NameAtFn(line)(k) == NameAt(line, k);
    j, e := NameAtMatches(line, k);
    NoNameMatchBefore(line, k);
  }

  /** A line with a match always yields a name; the leftmost match is the one reported. */
  lemma SearchNameFinds(line: string, k: nat, j: nat, e: nat)
    requires NameMatch(line, k, j, e)
    ensures SearchName(line, 0).Some?
    ensures (forall k': nat, j': nat, e': nat :: k' < k ==> !NameMatch(line, k', j', e')) ==>
              SearchName(line, 0) == Some(line[j + 1..e])
  {
    MatchNameAt(line, k, j, e);
    assert NameAtFn(line)(k) == NameAt(line, k);
    if forall k': nat, j': nat, e': nat :: k' < k ==> !NameMatch(line, k', j', e') {
      NameAtNoneBefore(line, k);
    }
    LeftmostFinds(NameAtFn(line), 0, |line|, k);
  }

  /** `"value":\s*(\d+)` tried at index `i`. */
  function ValueAt(line: string, i: nat): (r: Option<string>)
    requires i <= |line|
    ensures r.Some? ==> r.value != [] && forall k :: 0 <= k < |r.value| ==> IsDigit(r.value[k])
  {
    if !OccursAt(line, "\"value\":", i) then None
    else
      var j := RunEnd(line, i + 8, IsSpace);
      var k := RunEnd(line, j, IsDigit);
      if j < k then Some(line[j..k]) else None
  }

  /** `ValueAt` at every index of `line`. */
  function ValueAtFn(line: string): nat -> Option<string> {
    (k: nat) => if k <= |line| then ValueAt(line, k) else None
  }

  /** The digits captured by the leftmost match of the value pattern at or after `i`. */
  function SearchValue(line: string, i: nat): (r: Option<string>)
    requires i <= |line|
    ensures r.Some? ==> r.value != [] && forall k :: 0 <= k < |r.value| ==> IsDigit(r.value[k])
  {
    LeftmostIs(ValueAtFn(line), i, |line|);
    Leftmost(ValueAtFn(line), i, |line|)
  }

  /** A match of `"value":\s*(\d+)` starting at `k`: the literal, blanks up to `j`, and the
      greedy capture `line[j..e]`, which no further digit follows. */
  predicate ValueMatch(line: string, k: nat, j: nat, e: nat) {
    && OccursAt(line, "\"value\":", k)
    && AllIn(line, k + 8, j, IsSpace)
    && j < e && AllIn(line, j, e, IsDigit) && (e == |line| || !IsDigit(line[e]))
  }

  /** What `ValueAt` finds is a match. */
  lemma ValueAtMatches(line: string, k: nat) returns (j: nat, e: nat)
    requires k <= |line| && ValueAt(line, k).Some?
    ensures ValueMatch(line, k, j, e) && ValueAt(line, k) == Some(line[j..e])
  {
    j := RunEnd(line, k + 8, IsSpace);
    e := RunEnd(line, j, IsDigit);
  }

  /** Every match is what `ValueAt` finds. */
  lemma MatchValueAt(line: string, k: nat, j: nat, e: nat)
    requires ValueMatch(line, k, j, e)
    ensures ValueAt(line, k) == Some(line[j..e])
  {
    RunEndAt(line, k + 8, j, IsSpace);
    RunEndAt(line, j, e, IsDigit);
  }

  /** No match starts where `ValueAt` finds nothing. */
  lemma NoValueMatch(line: string, k: nat)
    requires k <= |line| && ValueAt(line, k).None?
    ensures forall j': nat, e': nat :: !ValueMatch(line, k, j', e')
  {
    forall j': nat, e': nat ensures !ValueMatch(line, k, j', e') {
      if ValueMatch(line, k, j', e') {
        MatchValueAt(line, k, j', e');
      }
    }
  }

  /** Below the index `Leftmost` picks, no match starts. */
  lemma NoValueMatchBefore(line: string, k: nat)
    requires k <= |line| && forall k' :: 0 <= k' < k ==> ValueAtFn(line)(k').None?
    ensures forall k': nat, j': nat, e': nat :: k' < k ==> !ValueMatch(line, k', j', e')
  {
    forall k': nat, j': nat, e': nat | k' < k ensures !ValueMatch(line, k', j', e') {
      assert ValueAtFn(line)(k') == ValueAt(line, k');
      NoValueMatch(line, k');
    }
  }

  /** Where no match starts, `ValueAt` finds nothing. */
  lemma ValueAtNoneBefore(line: string, k: nat)
    requires k <= |line| && forall k': nat, j': nat, e': nat :: k' < k ==> !ValueMatch(line, k', j', e')
    ensures forall k' :: 0 <= k' < k ==> ValueAtFn(line)(k').None?
  {
    forall k' | 0 <= k' < k ensures ValueAtFn(line)(k').None? {
      assert ValueAtFn(line)(k') == ValueAt(line, k');
      if ValueAt(line, k').Some? {
        var j', e' := ValueAtMatches(line, k');
      }
    }
  }

  /** Captured digits come from a match, and no match starts before them. */
  lemma SearchValueSound(line: string) returns (k: nat, j: nat, e: nat)
    requires SearchValue(line, 0).Some?
    ensures ValueMatch(line, k, j, e) && SearchValue(line, 0) == Some(line[j..e])
    ensures forall k': nat, j': nat, e': nat :: k' < k ==> !ValueMatch(line, k', j', e')
  {
    k := LeftmostWitness(ValueAtFn(line), 0, |line|);
    assert ValueAtFn(line)(k) == ValueAt(line, k);
    j, e := ValueAtMatches(line, k);
    NoValueMatchBefore(line, k);
  }

  /** A line with a match always yields digits; the leftmost match is the one reported. */
  lemma SearchValueFinds(line: string, k: nat, j: nat, e: nat)
    requires ValueMatch(line, k, j, e)
    ensures SearchValue(line, 0).Some?
    ensures (forall k': nat, j': nat, e': nat :: k' < k ==> !ValueMatch(line, k', j', e')) ==>
              SearchValue(line, 0) == Some(line[j..e])
  {
    MatchValueAt(line, k, j, e);
    assert ValueAtFn(line)(k) == ValueAt(line, k);
    if forall k': nat, j': nat, e': nat :: k' < k ==> !ValueMatch(line, k', j', e') {
      ValueAtNoneBefore(line, k);
    }
    LeftmostFinds(ValueAtFn(line), 0, |line|, k);
  }

  /** One access-log hit: the captured source IPv4 address and email. */
  datatype AccessHit = AccessHit(ip: string, email: string)

  /** The end of `\d+` starting at `i`, when it is non-empty and followed by `sep`. */
  function DigitsThen(line: string, i: nat, sep: char): (r: Option<nat>)
    requires i <= |line|
    ensures r.Some? ==> i < r.value < |line| && line[r.value] == sep
    ensures r.Some? ==> forall k :: i <= k < r.value ==> IsDigit(line[k])
  {
    var e := RunEnd(line, i, IsDigit);
    if i < e < |line| && line[e] == sep then Some(e) else None
  }

  /** A digit run from `i` ended by `sep` at `e` is what `DigitsThen` finds. */
  lemma DigitsThenAt(line: string, i: nat, e: nat, sep: char)
    requires !IsDigit(sep) && i < e && AllIn(line, i, e, IsDigit) && e < |line| && line[e] == sep
    ensures DigitsThen(line, i, sep) == Some(e)
  {
    RunEndAt(line, i, e, IsDigit);
  }

  /** ` email: [^\s]` at `g`: where the lazy `.*?` stops. */
  predicate EmailStart(line: string, g: nat) {
    OccursAt(line, " email: ", g) && g + 8 < |line| && !IsSpace(line[g + 8])
  }

  /** The lazy `.*? email: ([^\s]+)` tail, scanned from `m`. */
  function EmailFrom(line: string, m: nat): (r: Option<string>)
    requires m <= |line|
    decreases |line| - m
    ensures r.Some? ==> r.value != [] && forall k :: 0 <= k < |r.value| ==> !IsSpace(r.value[k])
  {
    if EmailStart(line, m) then
      Some(line[m + 8..RunEnd(line, m + 8, NotSpace)])
    else if m < |line| && NotLineEnd(line[m]) then
      EmailFrom(line, m + 1)
    else
      None
  }

  /** `EmailFrom` stops at the first place the tail can match. */
  lemma {:induction false} EmailFromMatches(line: string, m0: nat) returns (m: nat)
    requires m0 <= |line| && EmailFrom(line, m0).Some?
    decreases |line| - m0
    ensures AllIn(line, m0, m, NotLineEnd) && EmailStart(line, m)
    ensures forall g :: m0 <= g < m ==> !EmailStart(line, g)
    ensures EmailFrom(line, m0) == Some(line[m + 8..RunEnd(line, m + 8, NotSpace)])
  {
    if EmailStart(line, m0) {
      m := m0;
    } else {
      m := EmailFromMatches(line, m0 + 1);
    }
  }

  /** Conversely, the first place the tail can match is where `EmailFrom` stops. */
  lemma {:induction false} EmailFromFinds(line: string, m0: nat, m: nat)
    requires AllIn(line, m0, m, NotLineEnd) && EmailStart(line, m)
    requires forall g :: m0 <= g < m ==> !EmailStart(line, g)
    decreases m - m0
    ensures EmailFrom(line, m0) == Some(line[m + 8..RunEnd(line, m + 8, NotSpace)])
  {
    if m0 < m {
      EmailFromFinds(line, m0 + 1, m);
    }
  }

  /** Where ` email: [^\s]` occurs nowhere from `m0` on, the tail captures nothing. */
  lemma {:induction false} EmailFromNone(line: string, m0: nat)
    requires m0 <= |line| && forall g :: m0 <= g ==> !EmailStart(line, g)
    decreases |line| - m0
    ensures EmailFrom(line, m0).None?
  {
    if m0 < |line| {
      EmailFromNone(line, m0 + 1);
    }
  }

  /** `\d+\.\d+\.\d+\.\d+:` starting at `a`: the index of the ':' after the address. */
  function DottedQuadEnd(line: string, a: nat): (r: Option<nat>)
    requires a <= |line|
    ensures r.Some? ==> a < r.value < |line| && line[r.value] == ':'
    ensures r.Some? ==> forall k :: a <= k < r.value ==> IsDigit(line[k]) || line[k] == '.'
  {
    match DigitsThen(line, a, '.')
    case None => None
    case Some(d1) =>
      match DigitsThen(line, d1 + 1, '.')
      case None => None
      case Some(d2) =>
        assert forall k :: a <= k < d2 ==> IsDigit(line[k]) || line[k] == '.';
        match DigitsThen(line, d2 + 1, '.')
        case None => None
        case Some(d3) =>
          assert forall k :: a <= k < d3 ==> IsDigit(line[k]) || line[k] == '.';
          DigitsThen(line, d3 + 1, ':')
  }

  /** `:\d+ accepted .*? email: ([^\s]+)` after the address, whose ':' is at `d4`. */
  function AccessTail(line: string, d4: nat): (r: Option<string>)
    requires d4 < |line|
    ensures r.Some? ==> r.value != [] && forall k :: 0 <= k < |r.value| ==> !IsSpace(r.value[k])
  {
    var pe := RunEnd(line, d4 + 1, IsDigit);
    if d4 + 1 < pe && OccursAt(line, " accepted ", pe) then EmailFrom(line, pe + 10) else None
  }

  /** `from (\d+\.\d+\.\d+\.\d+):\d+ accepted .*? email: ([^\s]+)` tried at index `i`. */
  function AccessAt(line: string, i: nat): (r: Option<AccessHit>)
    requires i <= |line|
    ensures r.Some? ==> r.value.email != [] && forall k :: 0 <= k < |r.value.email| ==> !IsSpace(r.value.email[k])
    ensures r.Some? ==> r.value.ip != [] && forall k :: 0 <= k < |r.value.ip| ==> IsDigit(r.value.ip[k]) || r.value.ip[k] == '.'
  {
    if !OccursAt(line, "from ", i) then None
    else
      match DottedQuadEnd(line, i + 5)
      case None => None
      case Some(d4) =>
        match AccessTail(line, d4)
        case None => None
        case Some(email) => Some(AccessHit(line[i + 5..d4], email))
  }

  /** `AccessAt` at every index of `line`. */
  function AccessAtFn(line: string): nat -> Option<AccessHit> {
    (k: nat) => if k <= |line| then AccessAt(line, k) else None
  }

  /** The leftmost access-log match at or after `i`. */
  function SearchAccess(line: string, i: nat): (r: Option<AccessHit>)
    requires i <= |line|
    ensures r.Some? ==> r.value.email != [] && forall k :: 0 <= k < |r.value.email| ==> !IsSpace(r.value.email[k])
    ensures r.Some? ==> r.value.ip != [] && forall k :: 0 <= k < |r.value.ip| ==> IsDigit(r.value.ip[k]) || r.value.ip[k] == '.'
  {
    LeftmostIs(AccessAtFn(line), i, |line|);
    Leftmost(AccessAtFn(line), i, |line|)
  }

  /** Where the pieces of an access-log match sit: the three dots and the colon of the
      address, the start of " accepted ", the start of " email: " and the end of the email. */
  datatype AccessSplit = AccessSplit(d1: nat, d2: nat, d3: nat, d4: nat, p: nat, m: nat, e: nat)

  /** Four digit runs from `a`, ended by the dots at `d1`, `d2`, `d3` and the ':' at `d4`. */
  predicate QuadMatch(line: string, a: nat, d1: nat, d2: nat, d3: nat, d4: nat) {
    && a < d1 && AllIn(line, a, d1, IsDigit) && d1 < |line| && line[d1] == '.'
    && d1 + 1 < d2 && AllIn(line, d1 + 1, d2, IsDigit) && d2 < |line| && line[d2] == '.'
    && d2 + 1 < d3 && AllIn(line, d2 + 1, d3, IsDigit) && d3 < |line| && line[d3] == '.'
    && d3 + 1 < d4 && AllIn(line, d3 + 1, d4, IsDigit) && d4 < |line| && line[d4] == ':'
  }

  /** After the ':' at `d4`: a digit run, " accepted " at `p`, a gap without line terminators
      that holds no earlier ` email: [^\s]`, " email: " at `m`, and the greedy non-blank
      capture `line[m + 8..e]`. */
  predicate TailMatch(line: string, d4: nat, p: nat, m: nat, e: nat) {
    && d4 + 1 < p && AllIn(line, d4 + 1, p, IsDigit) && OccursAt(line, " accepted ", p)
    && AllIn(line, p + 10, m, NotLineEnd) && (forall g :: p + 10 <= g < m ==> !EmailStart(line, g))
    && EmailStart(line, m)
    && AllIn(line, m + 8, e, NotSpace) && (e == |line| || IsSpace(line[e]))
  }

  /** A match of the access-log pattern starting at `k`, laid out as `s` says. The ip is
      `line[k + 5..s.d4]`, the email `line[s.m + 8..s.e]`. */
  predicate AccessMatch(line: string, k: nat, s: AccessSplit) {
    && OccursAt(line, "from ", k)
    && QuadMatch(line, k + 5, s.d1, s.d2, s.d3, s.d4)
    && TailMatch(line, s.d4, s.p, s.m, s.e)
  }

  /** The captures a match reports. */
  function HitOf(line: string, k: nat, s: AccessSplit): AccessHit
    requires k + 5 <= s.d4 <= |line| && s.m + 8 <= s.e <= |line|
  {
    AccessHit(line[k + 5..s.d4], line[s.m + 8..s.e])
  }

  /** What `DottedQuadEnd` finds is a dotted quad. */
  lemma QuadEndMatches(line: string, a: nat) returns (d1: nat, d2: nat, d3: nat)
    requires a <= |line| && DottedQuadEnd(line, a).Some?
    ensures QuadMatch(line, a, d1, d2, d3, DottedQuadEnd(line, a).value)
  {
    d1 := DigitsThen(line, a, '.').value;
    d2 := DigitsThen(line, d1 + 1, '.').value;
    d3 := DigitsThen(line, d2 + 1, '.').value;
  }

  /** Every dotted quad is what `DottedQuadEnd` finds. */
  lemma MatchQuadEnd(line: string, a: nat, d1: nat, d2: nat, d3: nat, d4: nat)
    requires QuadMatch(line, a, d1, d2, d3, d4)
    ensures DottedQuadEnd(line, a) == Some(d4)
  {
    DigitsThenAt(line, a, d1, '.');
    DigitsThenAt(line, d1 + 1, d2, '.');
    DigitsThenAt(line, d2 + 1, d3, '.');
    DigitsThenAt(line, d3 + 1, d4, ':');
  }

  /** What `AccessTail` finds is a tail match. */
  lemma AccessTailMatches(line: string, d4: nat) returns (p: nat, m: nat, e: nat)
    requires d4 < |line| && AccessTail(line, d4).Some?
    ensures TailMatch(line, d4, p, m, e) && AccessTail(line, d4) == Some(line[m + 8..e])
  {
    p := RunEnd(line, d4 + 1, IsDigit);
    m := EmailFromMatches(line, p + 10);
    e := RunEnd(line, m + 8, NotSpace);
  }

  /** Every tail match is what `AccessTail` finds. */
  lemma MatchAccessTail(line: string, d4: nat, p: nat, m: nat, e: nat)
    requires TailMatch(line, d4, p, m, e)
    ensures AccessTail(line, d4) == Some(line[m + 8..e])
  {
    RunEndAt(line, d4 + 1, p, IsDigit);
    EmailFromFinds(line, p + 10, m);
    RunEndAt(line, m + 8, e, NotSpace);
  }

  /** The pieces `AccessAt` puts together when it finds a hit. */
  lemma AccessAtParts(line: string, k: nat) returns (d4: nat)
    requires k <= |line| && AccessAt(line, k).Some?
    ensures OccursAt(line, "from ", k) && DottedQuadEnd(line, k + 5) == Some(d4)
    ensures AccessTail(line, d4).Some?
  {
    d4 := DottedQuadEnd(line, k + 5).value;
  }

  /** What `AccessAt` finds is a match. */
  lemma AccessAtMatches(line: string, k: nat) returns (s: AccessSplit)
    requires k <= |line| && AccessAt(line, k).Some?
    ensures AccessMatch(line, k, s) && AccessAt(line, k) == Some(HitOf(line, k, s))
  {
    var d4 := AccessAtParts(line, k);
    var d1, d2, d3 := QuadEndMatches(line, k + 5);
    var p, m, e := AccessTailMatches(line, d4);
    s := AccessSplit(d1, d2, d3, d4, p, m, e);
    MatchAccessAt(line, k, s);
  }

  /** Every match is what `AccessAt` finds. */
  lemma MatchAccessAt(line: string, k: nat, s: AccessSplit)
    requires AccessMatch(line, k, s)
    ensures AccessAt(line, k) == Some(HitOf(line, k, s))
  {
    MatchQuadEnd(line, k + 5, s.d1, s.d2, s.d3, s.d4);
    MatchAccessTail(line, s.d4, s.p, s.m, s.e);
  }

  /** No match starts where `AccessAt` finds nothing. */
  lemma NoAccessMatch(line: string, k: nat)
    requires k <= |line| && AccessAt(line, k).None?
    ensures forall s': AccessSplit :: !AccessMatch(line, k, s')
  {
    forall s': AccessSplit ensures !AccessMatch(line, k, s') {
      if AccessMatch(line, k, s') {
        MatchAccessAt(line, k, s');
      }
    }
  }

  /** Below the index `Leftmost` picks, no match starts. */
  lemma NoAccessMatchBefore(line: string, k: nat)
    requires k <= |line| && forall k' :: 0 <= k' < k ==> AccessAtFn(line)(k').None?
    ensures forall k': nat, s': AccessSplit :: k' < k ==> !AccessMatch(line, k', s')
  {
    forall k': nat, s': AccessSplit | k' < k ensures !AccessMatch(line, k', s') {
      assert AccessAtFn(line)(k') == AccessAt(line, k');
      NoAccessMatch(line, k');
    }
  }

  /** Where no match starts, `AccessAt` finds nothing. */
  lemma AccessAtNoneBefore(line: string, k: nat)
    requires k <= |line| && forall k': nat, s': AccessSplit :: k' < k ==> !AccessMatch(line, k', s')
    ensures forall k' :: 0 <= k' < k ==> AccessAtFn(line)(k').None?
  {
    forall k' | 0 <= k' < k ensures AccessAtFn(line)(k').None? {
      assert AccessAtFn(line)(k') == AccessAt(line, k');
      if AccessAt(line, k').Some? {
        var s' := AccessAtMatches(line, k');
      }
    }
  }

  /** An access-log hit comes from a match, and no match starts before it. */
  lemma SearchAccessSound(line: string) returns (k: nat, s: AccessSplit)
    requires SearchAccess(line, 0).Some?
    ensures AccessMatch(line, k, s) && SearchAccess(line, 0) == Some(HitOf(line, k, s))
    ensures forall k': nat, s': AccessSplit :: k' < k ==> !AccessMatch(line, k', s')
  {
    k := LeftmostWitness(AccessAtFn(line), 0, |line|);
    assert AccessAtFn(line)(k) == AccessAt(line, k);
    s := AccessAtMatches(line, k);
    NoAccessMatchBefore(line, k);
  }

  /** A line with a match always yields a hit; the leftmost match is the one reported. */
  lemma SearchAccessFinds(line: string, k: nat, s: AccessSplit)
    requires AccessMatch(line, k, s)
    ensures SearchAccess(line, 0).Some?
    ensures (forall k': nat, s': AccessSplit :: k' < k ==> !AccessMatch(line, k', s')) ==>
              SearchAccess(line, 0) == Some(HitOf(line, k, s))
  {
    MatchAccessAt(line, k, s);
    assert AccessAtFn(line)(k) == AccessAt(line, k);
    if forall k': nat, s': AccessSplit :: k' < k ==> !AccessMatch(line, k', s') {
      AccessAtNoneBefore(line, k);
    }
    LeftmostFinds(AccessAtFn(line), 0, |line|, k);
  }

  /** " email: " needs the blank before it: a tail with only one space between "accepted"
      and "email:" captures nothing. */
  lemma EmailNeedsLeadingSpace(line: string)
    requires line == "email: bob"
    ensures EmailFrom(line, 0).None?
  {
    forall g | 0 <= g ensures !EmailStart(line, g) {
      if g + 8 < |line| {
        assert line[g..g + 8][0] == line[g];
        assert (g == 0 || g == 1) && line[0] == 'e' && line[1] == 'm';
      }
    }
    EmailFromNone(line, 0);
  }

  // ---------------------------------------------------------------------------
  // parseStatsOutput as a fold over the output's lines

  const TwoTo64: int := 0x1_0000_0000_0000_0000

  /** The table change of one value line, given the pending stat name. */
  function ApplyStat(users: map<string, User>, stat: string, value: uint64, now: int): (r: map<string, User>)
    ensures var email := ExtractEmailFromStatName(stat);
            var old_ := Lookup(users, email);
            if stat == "" || email == "" || (!Contains(stat, "downlink") && !Contains(stat, "uplink")) then
              r == users
            else
              && r.Keys == users.Keys + {email}
              && (forall e :: e in users && e != email ==> r[e] == users[e])
              && r[email].email == (if email in users then users[email].email else email)
              && r[email].id == old_.id && r[email].ip == old_.ip
              && r[email].connected && r[email].lastSeen == now
              && (if Contains(stat, "downlink") then
                    r[email].uplink == old_.uplink
                    && r[email].downlink == (if value == 0 then old_.downlink else value)
                  else
                    r[email].downlink == old_.downlink
                    && r[email].uplink == (if value == 0 then old_.uplink else value))
    ensures KeyedByEmail(users) ==> KeyedByEmail(r)
  {
    if stat == "" then users
    else
      var email := ExtractEmailFromStatName(stat);
      if email == "" then users
      else if Contains(stat, "downlink") then Upsert(users, email, "", true, value, 0, now)
      else if Contains(stat, "uplink") then Upsert(users, email, "", true, 0, value, now)
      else users
  }

  /** The table after a (possibly aborted) statistics pass; `ok` is false when a value
      overflowed std::stoull and the pass stopped there. */
  datatype StatsRun = StatsRun(users: map<string, User>, ok: bool)

  /** A line `std::stoull` throws on: not a name line, and its value capture does not fit in
      a `uint64_t`. */
  predicate Overflows(line: string) {
    && SearchName(line, 0).None? && SearchValue(line, 0).Some?
    && DecimalValue(SearchValue(line, 0).value) >= TwoTo64
  }

  /** The lines of `parseStatsOutput`, processed in order; `pending` is `currentStat`. */
  function ParseStats(users: map<string, User>, lines: seq<string>, pending: string, now: int): (r: StatsRun)
    decreases |lines|
    ensures users.Keys <= r.users.Keys
    ensures !r.ok <==> exists k :: 0 <= k < |lines| && Overflows(lines[k])
  {
    if lines == [] then StatsRun(users, true)
    else
      match SearchName(lines[0], 0)
      case Some(name) => ParseStats(users, lines[1..], name, now)
      case None =>
        match SearchValue(lines[0], 0)
        case None => ParseStats(users, lines[1..], pending, now)
        case Some(digits) =>
          var v := DecimalValue(digits);
          if v >= TwoTo64 then StatsRun(users, false)
          else ParseStats(ApplyStat(users, pending, v, now), lines[1..], "", now)
  }

  /** A name line only records the pending name, even when it also matches the value pattern. */
  lemma NameLineTakesPriority(users: map<string, User>, line: string, rest: seq<string>, pending: string, now: int)
    requires SearchName(line, 0).Some?
    ensures ParseStats(users, [line] + rest, pending, now) == ParseStats(users, rest, SearchName(line, 0).value, now)
  {
    assert ([line] + rest)[1..] == rest;
  }

  /** A value line with no name line since the previous value line changes nothing. */
  lemma ValueLineNeedsName(users: map<string, User>, line: string, rest: seq<string>, now: int)
    requires SearchName(line, 0).None? && SearchValue(line, 0).Some?
    requires DecimalValue(SearchValue(line, 0).value) < TwoTo64
    ensures ParseStats(users, [line] + rest, "", now) == ParseStats(users, rest, "", now)
  {
    assert ([line] + rest)[1..] == rest;
  }

  /** One value line never removes a user, and the entry it touches is connected and seen
      at `now`. */
  lemma ApplyStatEffect(users: map<string, User>, stat: string, value: uint64, now: int)
    ensures var r := ApplyStat(users, stat, value, now);
            && users.Keys <= r.Keys
            && forall e :: e in r ==> (e in users && r[e] == users[e]) || (r[e].connected && r[e].lastSeen == now)
  {
  }

  /** A pass never removes a user, keeps the table keyed by email, and every entry it touched
      is connected and seen at `now`; untouched entries are as they were. */
  lemma {:induction false} StatsPassEffect(users: map<string, User>, lines: seq<string>, pending: string, now: int)
    ensures var r := ParseStats(users, lines, pending, now).users;
            && users.Keys <= r.Keys
            && (KeyedByEmail(users) ==> KeyedByEmail(r))
            && forall e :: e in r ==> (e in users && r[e] == users[e]) || (r[e].connected && r[e].lastSeen == now)
    decreases |lines|
  {
    if lines != [] {
      match SearchName(lines[0], 0)
      case Some(name) => StatsPassEffect(users, lines[1..], name, now);
      case None =>
        match SearchValue(lines[0], 0)
        case None => StatsPassEffect(users, lines[1..], pending, now);
        case Some(digits) =>
          var v := DecimalValue(digits);
          if v < TwoTo64 {
            var u1 := ApplyStat(users, pending, v, now);
            assert ParseStats(users, lines, pending, now) == ParseStats(u1, lines[1..], "", now);
            ApplyStatEffect(users, pending, v, now);
            StatsPassEffect(u1, lines[1..], "", now);
          }
    }
  }

  // ---------------------------------------------------------------------------
  // parseAccessLog as a fold over the log's lines

  /** One access-log line: a hit on a known user refreshes its ip and lastSeen and keeps
      its `connected` flag; anything else leaves the table alone. */
  function AccessStep(users: map<string, User>, line: string, now: int): (r: map<string, User>)
    ensures r.Keys == users.Keys
  {
    match SearchAccess(line, 0)
    case None => users
    case Some(hit) =>
      var user := Lookup(users, hit.email);
      if user.email != "" then Upsert(users, hit.email, hit.ip, user.connected, 0, 0, now) else users
  }

  /** On a table keyed by email, a hit on a known user sets exactly its ip and lastSeen; a
      line that is not a hit, or a hit on an unknown email, changes nothing. */
  lemma AccessStepEffect(users: map<string, User>, line: string, now: int)
    requires KeyedByEmail(users)
    ensures var r := AccessStep(users, line, now);
            match SearchAccess(line, 0)
            case None => r == users
            case Some(hit) =>
              if hit.email in users then r == users[hit.email := users[hit.email].(ip := hit.ip, lastSeen := now)]
              else r == users
  {
    match SearchAccess(line, 0)
    case None =>
    case Some(hit) =>
      LookupKnown(users, hit.email);
      if hit.email in users {
        var r := AccessStep(users, line, now);
        var u := users[hit.email];
        assert r[hit.email] == u.(ip := hit.ip, lastSeen := now);
      }
  }

  /** The lines of the access log, in file order. */
  function ParseAccess(users: map<string, User>, lines: seq<string>, now: int): (r: map<string, User>)
    decreases |lines|
    ensures r.Keys == users.Keys
  {
    if lines == [] then users else ParseAccess(AccessStep(users, lines[0], now), lines[1..], now)
  }

  /** Processing a log in two pieces is processing it whole. */
  lemma {:induction false} ParseAccessAppend(users: map<string, User>, a: seq<string>, b: seq<string>, now: int)
    ensures ParseAccess(users, a + b, now) == ParseAccess(ParseAccess(users, a, now), b, now)
    decreases |a|
  {
    if a == [] {
      assert a + b == b;
    } else {
      assert (a + b)[0] == a[0] && (a + b)[1..] == a[1..] + b;
      ParseAccessAppend(AccessStep(users, a[0], now), a[1..], b, now);
    }
  }

  /** The access log never creates or removes a user and never changes a user's id, email,
      connected flag or counters. */
  lemma {:induction false} ParseAccessKeepsIdentity(users: map<string, User>, lines: seq<string>, now: int)
    requires KeyedByEmail(users)
    ensures var r := ParseAccess(users, lines, now);
            && r.Keys == users.Keys && KeyedByEmail(r)
            && forall e :: e in r ==>
                 && r[e].id == users[e].id && r[e].email == users[e].email
                 && r[e].connected == users[e].connected
                 && r[e].downlink == users[e].downlink && r[e].uplink == users[e].uplink
    decreases |lines|
  {
    if lines != [] {
      var u1 := AccessStep(users, lines[0], now);
      AccessStepEffect(users, lines[0], now);
      ParseAccessKeepsIdentity(u1, lines[1..], now);
    }
  }

  /** Lines that hit no user `e` leave `e`'s entry as it was. */
  lemma {:induction false} ParseAccessUntouched(users: map<string, User>, lines: seq<string>, e: string, now: int)
    requires KeyedByEmail(users) && e in users
    requires forall k :: 0 <= k < |lines| ==> SearchAccess(lines[k], 0).None? || SearchAccess(lines[k], 0).value.email != e
    ensures e in ParseAccess(users, lines, now) && ParseAccess(users, lines, now)[e] == users[e]
    decreases |lines|
  {
    if lines != [] {
      var u1 := AccessStep(users, lines[0], now);
      AccessStepEffect(users, lines[0], now);
      assert SearchAccess(lines[0], 0).None? || SearchAccess(lines[0], 0).value.email != e;
      assert forall k :: 0 <= k < |lines[1..]| ==> lines[1..][k] == lines[k + 1];
      ParseAccessUntouched(u1, lines[1..], e, now);
    }
  }

  /** The last line that hits a known user decides its stored ip. */
  lemma LastHitWins(users: map<string, User>, before: seq<string>, line: string, after: seq<string>, now: int)
    requires KeyedByEmail(users)
    requires SearchAccess(line, 0).Some? && SearchAccess(line, 0).value.email in users
    requires forall k :: 0 <= k < |after| ==>
               SearchAccess(after[k], 0).None? || SearchAccess(after[k], 0).value.email != SearchAccess(line, 0).value.email
    ensures var hit := SearchAccess(line, 0).value;
            var r := ParseAccess(users, before + [line] + after, now);
            hit.email in r && r[hit.email].ip == hit.ip && r[hit.email].lastSeen == now
  {
    var hit := SearchAccess(line, 0).value;
    ParseAccessAppend(users, before + [line], after, now);
    ParseAccessAppend(users, before, [line], now);
    var u1 := ParseAccess(users, before, now);
    ParseAccessKeepsIdentity(users, before, now);
    var u2 := ParseAccess(u1, [line], now);
    assert u2 == AccessStep(u1, line, now);
    AccessStepEffect(u1, line, now);
    ParseAccessUntouched(u2, after, hit.email, now);
  }

  // ---------------------------------------------------------------------------
  // The client, acting on a shared peer table

  class Client {
    /** `config.accessLogPath`. */
    const accessLogPath: string
    /** The table shared with the rest of the program (`State& state`). */
    const state: PeerTable.State

    constructor (accessLogPath: string, state: PeerTable.State)
      ensures this.accessLogPath == accessLogPath && this.state == state
    {
      this.accessLogPath := accessLogPath;
      this.state := state;
    }

    /** `parseStatsOutput` over the output's lines; `ok` is false when a value overflowed
        std::stoull, which aborts the pass and makes `queryStats` report failure. */
    method ParseStatsOutput(lines: seq<string>, now: int) returns (ok: bool)
      requires state.Valid()
      modifies state
      ensures state.Valid()
      ensures StatsRun(state.users, ok) == ParseStats(old(state.users), lines, "", now)
    {
      var currentStat := "";
      var i := 0;
      while i < |lines|
        invariant 0 <= i <= |lines| && state.Valid()
        invariant ParseStats(state.users, lines[i..], currentStat, now) == ParseStats(old(state.users), lines, "", now)
      {
        var line := lines[i];
        assert lines[i..][1..] == lines[i + 1..];
        var name := SearchName(line, 0);
        if name.Some? {
          currentStat := name.value;
        } else {
          var digits := SearchValue(line, 0);
          if digits.Some? {
            var currentValue := DecimalValue(digits.value);
            if currentValue >= TwoTo64 {
              return false;
            }
            if currentStat != "" {
              var email := ExtractEmailFromStatName(currentStat);
              if email != "" {
                if Contains(currentStat, "downlink") {
                  state.UpdateUser(email, "", true, currentValue, 0, now);
                } else if Contains(currentStat, "uplink") {
                  state.UpdateUser(email, "", true, 0, currentValue, now);
                }
              }
            }
            currentStat := "";
          }
        }
        i := i + 1;
      }
      return true;
    }

    /** `parseAccessLog`; `file` is the log's lines, or None when it cannot be opened. */
    method ParseAccessLog(file: Option<seq<string>>, now: int)
      requires state.Valid()
      modifies state
      ensures state.Valid()
      ensures state.users == if accessLogPath == "" || file.None? then old(state.users)
                             else ParseAccess(old(state.users), file.value, now)
    {
      if accessLogPath == "" {
        return;
      }
      if file.None? {
        return;
      }
      var lines := file.value;
      var i := 0;
      while i < |lines|
        invariant 0 <= i <= |lines| && state.Valid()
        invariant ParseAccess(state.users, lines[i..], now) == ParseAccess(old(state.users), lines, now)
      {
        assert lines[i..][1..] == lines[i + 1..];
        var hit := SearchAccess(lines[i], 0);
        if hit.Some? {
          var user := state.GetUser(hit.value.email);
          if user.email != "" {
            state.UpdateUser(hit.value.email, hit.value.ip, user.connected, 0, 0, now);
          }
        }
        i := i + 1;
      }
    }
  }
}
