/** The query interpreter of the search controller: `parsePriceFilter`, which
    reads an informal price constraint out of the lower-cased query with five
    regular expressions tried in a fixed order, and `cleanQuery`, which deletes
    keywords, hyphens and digit runs in one left-to-right pass and trims.

    Each regular expression is modelled twice: as an executable matcher that
    scans for the leftmost match, and as a declarative statement of what a
    match at a position is (`NumberSpan`, `BetweenSpan`); the matchers are
    proved to find exactly the leftmost declarative match. */
module PriceQuery {
  import opened JsText
  import opened JsNumber

  /** The object `parsePriceFilter` returns when it does not return null:
      `{max}`, `{min}` or `{min, max}`. */
  datatype PriceFilter = AtMost(max: nat) | AtLeast(min: nat) | Between(min: nat, max: nat)

  /** A half-open range of positions `[start, end)` of the lower-cased query. */
  datatype Span = Span(start: nat, end: nat)

  // ---------------------------------------------------------------------
  // Declarative reading of the regular expressions

  /** `s[i..j]` is matched by `\s*`. */
  ghost predicate SpaceRun(s: string, i: int, j: int) {
    0 <= i <= j <= |s| && forall k :: i <= k < j ==> IsSpace(s[k])
  }

  /** `s[sp.start..sp.end]` is what a greedy `(\d+)` captures: a non-empty run
      of digits not followed by another digit. */
  ghost predicate DigitRun(s: string, sp: Span) {
    sp.start < sp.end <= |s|
    && (forall k :: sp.start <= k < sp.end ==> IsDigit(s[k]))
    && (sp.end == |s| || !IsDigit(s[sp.end]))
  }

  /** `/kw\s*(\d+)/` matches at `p` with the capture `num`. */
  ghost predicate NumberSpan(s: string, kw: string, p: int, num: Span) {
    OccursAt(s, kw, p) && SpaceRun(s, p + |kw|, num.start) && DigitRun(s, num)
  }

  ghost predicate NumberMatchAt(s: string, kw: string, p: int) {
    exists num :: NumberSpan(s, kw, p, num)
  }

  ghost predicate HasNumberMatch(s: string, kw: string) {
    exists p :: NumberMatchAt(s, kw, p)
  }

  /** `n` is the number `s.match(/kw\s*(\d+)/)[1]` denotes: the capture of
      the leftmost match. */
  ghost predicate LeftmostNumber(s: string, kw: string, n: nat) {
    exists p, num ::
      && NumberSpan(s, kw, p, num)
      && (forall q :: 0 <= q < p ==> !NumberMatchAt(s, kw, q))
      && n == DecimalValue(s[num.start..num.end])
  }

  /** The `(and|-)` of the between pattern occupies `sep`. */
  ghost predicate Separator(s: string, sep: Span) {
    || (OccursAt(s, "and", sep.start) && sep.end == sep.start + 3)
    || (OccursAt(s, "-", sep.start) && sep.end == sep.start + 1)
  }

  /** `/between\s*(\d+)\s*(and|-)\s*(\d+)/` matches at `p` with the captures
      `lo` and `hi`. */
  ghost predicate BetweenSpan(s: string, p: int, lo: Span, sep: Span, hi: Span) {
    && OccursAt(s, "between", p)
    && SpaceRun(s, p + 7, lo.start) && DigitRun(s, lo)
    && SpaceRun(s, lo.end, sep.start) && Separator(s, sep)
    && SpaceRun(s, sep.end, hi.start) && DigitRun(s, hi)
  }

  ghost predicate BetweenMatchAt(s: string, p: int) {
    exists lo, sep, hi :: BetweenSpan(s, p, lo, sep, hi)
  }

  ghost predicate HasBetweenMatch(s: string) {
    exists p :: BetweenMatchAt(s, p)
  }

  /** `n1` and `n2` are the two numbers of the leftmost between match. */
  ghost predicate LeftmostBetween(s: string, n1: nat, n2: nat) {
    exists p, lo, sep, hi ::
      && BetweenSpan(s, p, lo, sep, hi)
      && (forall q :: 0 <= q < p ==> !BetweenMatchAt(s, q))
      && n1 == DecimalValue(s[lo.start..lo.end])
      && n2 == DecimalValue(s[hi.start..hi.end])
  }

  // ---------------------------------------------------------------------
  // Executable matchers

  /** First position at or after `i` that does not hold white space. */
  function SkipSpaces(s: string, i: nat): (j: nat)
    requires i <= |s|
    decreases |s| - i
    ensures i <= j <= |s|
    ensures forall k :: i <= k < j ==> IsSpace(s[k])
    ensures j < |s| ==> !IsSpace(s[j])
  {
    if i == |s| || !IsSpace(s[i]) then i else SkipSpaces(s, i + 1)
  }

  /** End of the run of digits that starts at `i`. */
  function DigitsEnd(s: string, i: nat): (e: nat)
    requires i <= |s|
    decreases |s| - i
    ensures i <= e <= |s|
    ensures forall k :: i <= k < e ==> IsDigit(s[k])
    ensures e < |s| ==> !IsDigit(s[e])
  {
    if i == |s| || !IsDigit(s[i]) then i else DigitsEnd(s, i + 1)
  }

  /** A space run that ends at a character other than white space ends where
      `SkipSpaces` stops. */
  lemma SpaceRunEnd(s: string, i: nat, j: int)
    requires SpaceRun(s, i, j) && j < |s| && !IsSpace(s[j])
    ensures j == SkipSpaces(s, i)
  {
  }

  lemma DigitRunEnd(s: string, sp: Span)
    requires DigitRun(s, sp)
    ensures sp.end == DigitsEnd(s, sp.start)
  {
  }

  /** Matches `/kw\s*(\d+)/` anchored at `p`. */
  function NumberAt(s: string, kw: string, p: nat): (r: Option<Span>)
    requires p <= |s|
  {
    if p + |kw| <= |s| && s[p..p + |kw|] == kw then
      var j := SkipSpaces(s, p + |kw|);
      var e := DigitsEnd(s, j);
      if j < e then Some(Span(j, e)) else None
    else None
  }

  /** The anchored matcher finds a match exactly when there is one, and its
      capture is the only one possible. */
  lemma NumberAtCorrect(s: string, kw: string, p: nat)
    requires p <= |s|
    ensures NumberAt(s, kw, p).Some? ==> NumberSpan(s, kw, p, NumberAt(s, kw, p).value)
    ensures forall num :: NumberSpan(s, kw, p, num) ==> NumberAt(s, kw, p) == Some(num)
    ensures NumberAt(s, kw, p).Some? <==> NumberMatchAt(s, kw, p)
  {
    forall num | NumberSpan(s, kw, p, num) ensures NumberAt(s, kw, p) == Some(num) {
      SpaceRunEnd(s, p + |kw|, num.start);
      DigitRunEnd(s, num);
    }
    if NumberAt(s, kw, p).Some? {
      assert NumberSpan(s, kw, p, NumberAt(s, kw, p).value);
    }
  }

  /** Scans positions `from`, `from + 1`, ... for the leftmost match. */
  function FindNumber(s: string, kw: string, from: nat): (r: Option<(nat, Span)>)
    requires from <= |s|
    decreases |s| - from
    ensures r.Some? ==> from <= r.value.0 && NumberSpan(s, kw, r.value.0, r.value.1)
    ensures r.Some? ==> forall q :: from <= q < r.value.0 ==> !NumberMatchAt(s, kw, q)
    ensures r.None? ==> forall q :: from <= q ==> !NumberMatchAt(s, kw, q)
  {
    NumberAtCorrect(s, kw, from);
    match NumberAt(s, kw, from)
    case Some(num) => Some((from, num))
    case None =>
      if from == |s| then
        assert forall q :: from < q ==> !OccursAt(s, kw, q);
        None
      else
        FindNumber(s, kw, from + 1)
  }

  /** `+s.match(/kw\s*(\d+)/)[1]`, or `None` where `match` returns null. */
  function MatchNumber(s: string, kw: string): (r: Option<nat>)
    ensures r.Some? <==> HasNumberMatch(s, kw)
    ensures r.Some? ==> LeftmostNumber(s, kw, r.value)
  {
    match FindNumber(s, kw, 0)
    case Some((p, num)) =>
      assert NumberMatchAt(s, kw, p);
      Some(DecimalValue(s[num.start..num.end]))
    case None => None
  }

  /** Matches `(and|-)` at `m`, trying `and` first. */
  function SeparatorAt(s: string, m: nat): (r: Option<Span>)
    requires m <= |s|
  {
    if m + 3 <= |s| && s[m..m + 3] == "and" then Some(Span(m, m + 3))
    else if m < |s| && s[m] == '-' then Some(Span(m, m + 1))
    else None
  }

  /** Matches `/between\s*(\d+)\s*(and|-)\s*(\d+)/` anchored at `p`. */
  function BetweenAt(s: string, p: nat): (r: Option<(Span, Span, Span)>)
    requires p <= |s|
  {
    if p + 7 <= |s| && s[p..p + 7] == "between" then
      var a := SkipSpaces(s, p + 7);
      var b := DigitsEnd(s, a);
      if a == b then None
      else
        match SeparatorAt(s, SkipSpaces(s, b))
        case None => None
        case Some(sep) =>
          var c := SkipSpaces(s, sep.end);
          var d := DigitsEnd(s, c);
          if c == d then None else Some((Span(a, b), sep, Span(c, d)))
    else None
  }

  lemma SeparatorStart(s: string, sep: Span)
    requires Separator(s, sep)
    ensures sep.start < |s| && !IsSpace(s[sep.start])
    ensures sep.end <= |s| && SeparatorAt(s, sep.start) == Some(sep)
  {
    if OccursAt(s, "and", sep.start) {
      assert s[sep.start] == s[sep.start..sep.start + 3][0] == 'a';
    } else {
      assert s[sep.start] == s[sep.start..sep.start + 1][0] == '-';
    }
  }

  /** Any between match at `p` is the one the anchored matcher returns. */
  lemma BetweenAtComplete(s: string, p: nat, lo: Span, sep: Span, hi: Span)
    requires p <= |s| && BetweenSpan(s, p, lo, sep, hi)
    ensures BetweenAt(s, p) == Some((lo, sep, hi))
  {
    SpaceRunEnd(s, p + 7, lo.start);
    DigitRunEnd(s, lo);
    SeparatorStart(s, sep);
    SpaceRunEnd(s, lo.end, sep.start);
    SpaceRunEnd(s, sep.end, hi.start);
    DigitRunEnd(s, hi);
  }

  /** What the anchored matcher returns is a between match. */
  lemma BetweenAtSound(s: string, p: nat)
    requires p <= |s| && BetweenAt(s, p).Some?
    ensures BetweenSpan(s, p, BetweenAt(s, p).value.0, BetweenAt(s, p).value.1, BetweenAt(s, p).value.2)
  {
    var (lo, sep, hi) := BetweenAt(s, p).value;
    var m := SkipSpaces(s, lo.end);
    assert SeparatorAt(s, m) == Some(sep);
    assert Separator(s, sep);
  }

  lemma BetweenAtCorrect(s: string, p: nat)
    requires p <= |s|
    ensures BetweenAt(s, p).Some? <==> BetweenMatchAt(s, p)
    ensures BetweenAt(s, p).Some? ==>
      BetweenSpan(s, p, BetweenAt(s, p).value.0, BetweenAt(s, p).value.1, BetweenAt(s, p).value.2)
  {
    if BetweenAt(s, p).Some? {
      BetweenAtSound(s, p);
    } else if BetweenMatchAt(s, p) {
      var lo, sep, hi :| BetweenSpan(s, p, lo, sep, hi);
      BetweenAtComplete(s, p, lo, sep, hi);
    }
  }

  function FindBetween(s: string, from: nat): (r: Option<(nat, Span, Span, Span)>)
    requires from <= |s|
    decreases |s| - from
    ensures r.Some? ==> from <= r.value.0 && BetweenSpan(s, r.value.0, r.value.1, r.value.2, r.value.3)
    ensures r.Some? ==> forall q :: from <= q < r.value.0 ==> !BetweenMatchAt(s, q)
    ensures r.None? ==> forall q :: from <= q ==> !BetweenMatchAt(s, q)
  {
    BetweenAtCorrect(s, from);
    match BetweenAt(s, from)
    case Some((lo, sep, hi)) => Some((from, lo, sep, hi))
    case None =>
      if from == |s| then
        NoBetweenAtEnd(s);
        None
      else
        FindBetween(s, from + 1)
  }

  /** No between match starts at or after the end of the string. */
  lemma NoBetweenAtEnd(s: string)
    ensures forall q :: |s| <= q ==> !BetweenMatchAt(s, q)
  {
    assert forall q :: |s| <= q ==> !OccursAt(s, "between", q);
  }

  /** The two captured numbers of `s.match(/between.../)`. */
  function MatchBetween(s: string): (r: Option<(nat, nat)>)
    ensures r.Some? <==> HasBetweenMatch(s)
    ensures r.Some? ==> LeftmostBetween(s, r.value.0, r.value.1)
  {
    match FindBetween(s, 0)
    case Some((p, lo, sep, hi)) =>
      assert BetweenMatchAt(s, p);
      Some((DecimalValue(s[lo.start..lo.end]), DecimalValue(s[hi.start..hi.end])))
    case None => None
  }

  // ---------------------------------------------------------------------
  // parsePriceFilter

  /** `parsePriceFilter(query)`: on the lower-cased query, "under" (else
      "below") gives an upper bound; otherwise "above" (else "over") gives a
      lower bound; otherwise "between N1 and|- N2" gives both, in the order
      written; otherwise null. */
  function ParsePriceFilter(q: string): (r: Option<PriceFilter>)
    ensures var s := Lower(q);
      r.Some? && r.value.AtMost? <==> HasNumberMatch(s, "under") || HasNumberMatch(s, "below")
    ensures var s := Lower(q);
      r.Some? && r.value.AtMost? ==>
        LeftmostNumber(s, if HasNumberMatch(s, "under") then "under" else "below", r.value.max)
    ensures var s := Lower(q);
      r.Some? && r.value.AtLeast? <==>
        && !HasNumberMatch(s, "under") && !HasNumberMatch(s, "below")
        && (HasNumberMatch(s, "above") || HasNumberMatch(s, "over"))
    ensures var s := Lower(q);
      r.Some? && r.value.AtLeast? ==>
        LeftmostNumber(s, if HasNumberMatch(s, "above") then "above" else "over", r.value.min)
    ensures var s := Lower(q);
      r.Some? && r.value.Between? <==>
        && !HasNumberMatch(s, "under") && !HasNumberMatch(s, "below")
        && !HasNumberMatch(s, "above") && !HasNumberMatch(s, "over")
        && HasBetweenMatch(s)
    ensures var s := Lower(q);
      r.Some? && r.value.Between? ==> LeftmostBetween(s, r.value.min, r.value.max)
  {
    var s := Lower(q);
    var under := MatchNumber(s, "under");
    var upper := if under.Some? then under else MatchNumber(s, "below");
    if upper.Some? then Some(AtMost(upper.value))
    else
      var above := MatchNumber(s, "above");
      var lower := if above.Some? then above else MatchNumber(s, "over");
      if lower.Some? then Some(AtLeast(lower.value))
      else
        match MatchBetween(s)
        case Some((n1, n2)) => Some(Between(n1, n2))
        case None => None
  }

  /** The leftmost capture is unique, so `LeftmostNumber` names one number. */
  lemma LeftmostNumberUnique(s: string, kw: string, n1: nat, n2: nat)
    requires LeftmostNumber(s, kw, n1) && LeftmostNumber(s, kw, n2)
    ensures n1 == n2
  {
    var p1, num1 :| NumberSpan(s, kw, p1, num1)
      && (forall q :: 0 <= q < p1 ==> !NumberMatchAt(s, kw, q))
      && n1 == DecimalValue(s[num1.start..num1.end]);
    var p2, num2 :| NumberSpan(s, kw, p2, num2)
      && (forall q :: 0 <= q < p2 ==> !NumberMatchAt(s, kw, q))
      && n2 == DecimalValue(s[num2.start..num2.end]);
    assert NumberMatchAt(s, kw, p1) && NumberMatchAt(s, kw, p2);
    assert p1 == p2;
    NumberAtCorrect(s, kw, p1);
  }

  /** A match of "under" decides the result whatever else the query says. */
  lemma UnderWins(q: string, n: nat)
    requires LeftmostNumber(Lower(q), "under", n)
    ensures ParsePriceFilter(q) == Some(AtMost(n))
  {
    var s := Lower(q);
    var p, num :| NumberSpan(s, "under", p, num)
      && (forall q :: 0 <= q < p ==> !NumberMatchAt(s, "under", q))
      && n == DecimalValue(s[num.start..num.end]);
    assert NumberMatchAt(s, "under", p);
    LeftmostNumberUnique(s, "under", n, ParsePriceFilter(q).value.max);
  }

  /** An inverted range is passed through in the order written. */
  lemma BetweenNotReordered(q: string, n1: nat, n2: nat)
    requires var s := Lower(q);
      && !HasNumberMatch(s, "under") && !HasNumberMatch(s, "below")
      && !HasNumberMatch(s, "above") && !HasNumberMatch(s, "over")
      && LeftmostBetween(s, n1, n2)
    ensures ParsePriceFilter(q) == Some(Between(n1, n2))
  {
    var s := Lower(q);
    var r := ParsePriceFilter(q);
    var p, lo, sep, hi :| BetweenSpan(s, p, lo, sep, hi)
      && (forall q :: 0 <= q < p ==> !BetweenMatchAt(s, q))
      && n1 == DecimalValue(s[lo.start..lo.end])
      && n2 == DecimalValue(s[hi.start..hi.end]);
    assert BetweenMatchAt(s, p);
    var m1, m2 := r.value.min, r.value.max;
    var p', lo', sep', hi' :| BetweenSpan(s, p', lo', sep', hi')
      && (forall q :: 0 <= q < p' ==> !BetweenMatchAt(s, q))
      && m1 == DecimalValue(s[lo'.start..lo'.end])
      && m2 == DecimalValue(s[hi'.start..hi'.end]);
    assert BetweenMatchAt(s, p');
    assert p == p';
    BetweenAtComplete(s, p, lo, sep, hi);
    BetweenAtComplete(s, p, lo', sep', hi');
  }

  // ---------------------------------------------------------------------
  // cleanQuery

  /** `kw` occurs at `i` ignoring ASCII case, as under the `i` flag. */
  predicate KeywordAt(s: string, kw: string, i: nat)
    decreases |kw|
  {
    kw == [] || (i < |s| && LowerChar(s[i]) == kw[0] && KeywordAt(s, kw[1..], i + 1))
  }

  /** The keyword alternatives of `(under|below|above|over|between|and|-|\d+)`,
      in the order the pattern tries them. */
  const CleanKeywords: seq<string> := ["under", "below", "above", "over", "between", "and"]

  /** The first of the keywords from index `j` on that occurs at `i`. */
  function FirstKeyword(s: string, i: nat, j: nat): (r: Option<nat>)
    decreases |CleanKeywords| - j
    ensures r.Some? ==> j <= r.value < |CleanKeywords| && KeywordAt(s, CleanKeywords[r.value], i)
  {
    if j >= |CleanKeywords| then None
    else if KeywordAt(s, CleanKeywords[j], i) then Some(j)
    else FirstKeyword(s, i, j + 1)
  }

  /** No keyword from `j` on occurs before the one `FirstKeyword` finds. */
  lemma {:induction false} FirstKeywordFirst(s: string, i: nat, j: nat)
    decreases |CleanKeywords| - j
    ensures var r := FirstKeyword(s, i, j);
      && (r.Some? ==> forall k :: j <= k < r.value ==> !KeywordAt(s, CleanKeywords[k], i))
      && (r.None? ==> forall k :: j <= k < |CleanKeywords| ==> !KeywordAt(s, CleanKeywords[k], i))
  {
    if j < |CleanKeywords| && !KeywordAt(s, CleanKeywords[j], i) {
      assert FirstKeyword(s, i, j) == FirstKeyword(s, i, j + 1);
      FirstKeywordFirst(s, i, j + 1);
    }
  }

  /** Length of the match of `/(under|below|above|over|between|and|-|\d+)/i`
      that starts at `i`, or 0 when none starts there: alternatives are tried
      in order, keywords first. */
  function CleanMatchLength(s: string, i: nat): (n: nat)
    requires i < |s|
    ensures i + n <= |s|
    ensures IsDigit(s[i]) || s[i] == '-' ==> n > 0
  {
    var kw := FirstKeyword(s, i, 0);
    if kw.Some? then
      KeywordFits(s, CleanKeywords[kw.value], i);
      |CleanKeywords[kw.value]|
    else if s[i] == '-' then 1
    else if IsDigit(s[i]) then DigitsEnd(s, i) - i
    else 0
  }

  lemma {:induction false} KeywordFits(s: string, kw: string, i: nat)
    requires KeywordAt(s, kw, i) && (kw != [] || i <= |s|)
    ensures i + |kw| <= |s|
    decreases |kw|
  {
    if kw != [] {
      KeywordFits(s, kw[1..], i + 1);
    }
  }

  /** The global replace applied to `s[i..]`: each match found scanning left
      to right is deleted and the scan resumes after it. */
  function Scrub(s: string, i: nat): (r: string)
    requires i <= |s|
    decreases |s| - i
    ensures forall k :: 0 <= k < |r| ==> !IsDigit(r[k]) && r[k] != '-'
    ensures IsSubsequence(r, s[i..])
  {
    if i == |s| then []
    else
      var n := CleanMatchLength(s, i);
      if n > 0 then
        var r := Scrub(s, i + n);
        SubsequenceDrop(r, s[i + n..], s[i..i + n]);
        assert s[i..i + n] + s[i + n..] == s[i..];
        r
      else
        var r := Scrub(s, i + 1);
        assert s[i..][1..] == s[i + 1..];
        [s[i]] + r
  }

  /** Trimming deletes characters only at the ends. */
  lemma TrimSubsequence(s: string)
    ensures IsSubsequence(Trim(s), s)
  {
    var a, r := LeadingSpaces(s), Trim(s);
    PrefixSubsequence(s[a..], |r|);
    assert s[a..][..|r|] == r;
    SubsequenceDrop(r, s[a..], s[..a]);
    assert s[..a] + s[a..] == s;
  }

  /** Trimming a text without digits and '-' gives one without them. */
  lemma TrimKeepsClean(t: string)
    requires forall k :: 0 <= k < |t| ==> !IsDigit(t[k]) && t[k] != '-'
    ensures forall k :: 0 <= k < |Trim(t)| ==> !IsDigit(Trim(t)[k]) && Trim(t)[k] != '-'
  {
    var r := Trim(t);
    assert forall k :: 0 <= k < |r| ==> r[k] == t[LeadingSpaces(t) + k];
  }

  /** Trimming a subsequence of `q` gives a subsequence of `q`. */
  lemma TrimStaysSubsequence(t: string, q: string)
    requires IsSubsequence(t, q[0..])
    ensures IsSubsequence(Trim(t), q)
  {
    TrimSubsequence(t);
    assert q[0..] == q;
    SubsequenceTransitive(Trim(t), t, q);
  }

  /** `cleanQuery(query)`: the scrubbed query, trimmed. */
  function CleanQuery(q: string): (r: string)
    ensures forall k :: 0 <= k < |r| ==> !IsDigit(r[k]) && r[k] != '-'
    ensures r != [] ==> !IsSpace(r[0]) && !IsSpace(r[|r| - 1])
    ensures IsSubsequence(r, q)
  {
    var scrubbed := Scrub(q, 0);
    TrimKeepsClean(scrubbed);
    TrimStaysSubsequence(scrubbed, q);
    Trim(scrubbed)
  }

  // ---------------------------------------------------------------------
  // Declarative reading of the cleaning pattern and of the global replace

  /** Alternative `j` of the cleaning pattern, with the `i` flag, matches
      `s[p..p + n]`. Nothing follows the group, so the greedy `\d+` takes the
      whole digit run. */
  ghost predicate AlternativeMatch(s: string, p: nat, j: nat, n: nat) {
    if j < 6 then n == |CleanKeywords[j]| && p + n <= |s| && Lower(s[p..p + n]) == CleanKeywords[j]
    else if j == 6 then n == 1 && p < |s| && s[p] == '-'
    else j == 7 && DigitRun(s, Span(p, p + n))
  }

  /** The pattern matches `s[p..p + n]`: alternation takes the first
      alternative that matches at `p`. */
  ghost predicate PatternMatch(s: string, p: nat, n: nat) {
    exists j ::
      && 0 <= j < 8 && AlternativeMatch(s, p, j, n)
      && forall j', m :: 0 <= j' < j ==> !AlternativeMatch(s, p, j', m)
  }

  /** The spans lie in `s[i..]`, in order and without overlap. */
  ghost predicate SpansInOrder(s: string, i: nat, spans: seq<Span>)
    decreases |spans|
  {
    && i <= |s|
    && (spans != [] ==>
          && i <= spans[0].start < spans[0].end <= |s|
          && SpansInOrder(s, spans[0].end, spans[1..]))
  }

  /** Each span is the leftmost match of the pattern at or after the point
      where the previous one ended, and no match starts after the last. */
  ghost predicate LeftmostMatches(s: string, i: nat, spans: seq<Span>)
    decreases |spans|
  {
    if spans == [] then forall p, n :: i <= p ==> !PatternMatch(s, p, n)
    else
      var m := spans[0];
      && m.start <= m.end
      && PatternMatch(s, m.start, m.end - m.start)
      && (forall p, n :: i <= p < m.start ==> !PatternMatch(s, p, n))
      && LeftmostMatches(s, m.end, spans[1..])
  }

  /** `spans` are the matches the global replace deletes from `s[i..]`. */
  ghost predicate ReplaceSpans(s: string, i: nat, spans: seq<Span>) {
    SpansInOrder(s, i, spans) && LeftmostMatches(s, i, spans)
  }

  /** What is left of `s[i..]` once the spans are cut out. */
  ghost function Remaining(s: string, i: nat, spans: seq<Span>): string
    requires SpansInOrder(s, i, spans)
    decreases |spans|
  {
    if spans == [] then s[i..]
    else s[i..spans[0].start] + Remaining(s, spans[0].end, spans[1..])
  }

  /** The same spans as `LeftmostMatches`, read off `CleanMatchLength`. */
  ghost predicate ScanMatches(s: string, i: nat, spans: seq<Span>)
    requires SpansInOrder(s, i, spans)
    decreases |spans|
  {
    if spans == [] then forall p :: i <= p < |s| ==> CleanMatchLength(s, p) == 0
    else
      var m := spans[0];
      && CleanMatchLength(s, m.start) == m.end - m.start
      && (forall p :: i <= p < m.start ==> CleanMatchLength(s, p) == 0)
      && ScanMatches(s, m.end, spans[1..])
  }

  /** `KeywordAt` is a case-insensitive occurrence of the keyword. */
  lemma {:induction false} KeywordAtIff(s: string, kw: string, i: nat)
    requires i <= |s|
    ensures KeywordAt(s, kw, i) <==> i + |kw| <= |s| && Lower(s[i..i + |kw|]) == kw
    decreases |kw|
  {
    if kw != [] && i < |s| {
      KeywordAtIff(s, kw[1..], i + 1);
      if i + |kw| <= |s| {
        var t := Lower(s[i..i + |kw|]);
        assert t[1..] == Lower(s[i + 1..i + |kw|]);
        assert t == kw <==> t[0] == kw[0] && t[1..] == kw[1..] by {
          if t[0] == kw[0] && t[1..] == kw[1..] {
            assert t == [t[0]] + t[1..] && kw == [kw[0]] + kw[1..];
          }
        }
      }
    }
  }

  lemma KeywordAlternative(s: string, p: nat, j: nat)
    requires p <= |s| && j < 6
    ensures forall m :: AlternativeMatch(s, p, j, m) <==> m == |CleanKeywords[j]| && KeywordAt(s, CleanKeywords[j], p)
  {
    KeywordAtIff(s, CleanKeywords[j], p);
  }

  lemma DigitAlternative(s: string, p: nat)
    requires p < |s|
    ensures forall m :: AlternativeMatch(s, p, 7, m) <==> IsDigit(s[p]) && m == DigitsEnd(s, p) - p
  {
    forall m | AlternativeMatch(s, p, 7, m) ensures m == DigitsEnd(s, p) - p {
      DigitRunEnd(s, Span(p, p + m));
    }
  }

  /** Every alternative matches a non-empty text inside `s`. */
  lemma AlternativeInside(s: string, p: nat, j: nat, n: nat)
    requires AlternativeMatch(s, p, j, n)
    ensures 0 < n && p + n <= |s|
  {
  }

  /** The first alternative that matches at `p` decides the match length. */
  lemma FirstAlternativeLength(s: string, p: nat, j: nat, n: nat)
    requires p < |s| && j < 8 && AlternativeMatch(s, p, j, n)
    requires forall j', m :: 0 <= j' < j ==> !AlternativeMatch(s, p, j', m)
    ensures n == CleanMatchLength(s, p)
  {
    FirstKeywordFirst(s, p, 0);
    forall j' | 0 <= j' < j && j' < 6 ensures !KeywordAt(s, CleanKeywords[j'], p) {
      KeywordAlternative(s, p, j');
      assert !AlternativeMatch(s, p, j', |CleanKeywords[j']|);
    }
    if j < 6 {
      KeywordAlternative(s, p, j);
    } else if j == 7 {
      assert !AlternativeMatch(s, p, 6, 1);
      DigitAlternative(s, p);
    }
  }

  /** A positive `CleanMatchLength` is the length of a match of the pattern. */
  lemma CleanMatchLengthMatches(s: string, p: nat)
    requires p < |s| && CleanMatchLength(s, p) > 0
    ensures PatternMatch(s, p, CleanMatchLength(s, p))
  {
    var len := CleanMatchLength(s, p);
    FirstKeywordFirst(s, p, 0);
    forall j | 0 <= j < 6 {
      KeywordAlternative(s, p, j);
    }
    DigitAlternative(s, p);
    var kw := FirstKeyword(s, p, 0);
    var j: nat := if kw.Some? then kw.value else if s[p] == '-' then 6 else 7;
    assert AlternativeMatch(s, p, j, len);
    forall j', m | 0 <= j' < j ensures !AlternativeMatch(s, p, j', m) {
    }
  }

  /** `CleanMatchLength` is the length of the pattern's match at `p`, and 0
      exactly when the pattern does not match there. */
  lemma CleanMatchLengthCorrect(s: string, p: nat)
    requires p < |s|
    ensures forall n :: PatternMatch(s, p, n) <==> 0 < n == CleanMatchLength(s, p)
  {
    forall n | PatternMatch(s, p, n) ensures 0 < n == CleanMatchLength(s, p) {
      var j :| 0 <= j < 8 && AlternativeMatch(s, p, j, n)
        && forall j', m :: 0 <= j' < j ==> !AlternativeMatch(s, p, j', m);
      AlternativeInside(s, p, j, n);
      FirstAlternativeLength(s, p, j, n);
    }
    if CleanMatchLength(s, p) > 0 {
      CleanMatchLengthMatches(s, p);
    }
  }

  lemma PatternInside(s: string, p: nat, n: nat)
    requires PatternMatch(s, p, n)
    ensures 0 < n && p + n <= |s|
  {
    var j :| 0 <= j < 8 && AlternativeMatch(s, p, j, n);
    AlternativeInside(s, p, j, n);
  }

  /** One step of the scan: a match is skipped, ... */
  lemma ScrubSkipsMatch(s: string, i: nat, e: nat)
    requires i < |s| && CleanMatchLength(s, i) > 0 && e == i + CleanMatchLength(s, i)
    ensures Scrub(s, i) == Scrub(s, e)
  {
  }

  /** ... and any other character is kept. */
  lemma ScrubKeepsChar(s: string, i: nat)
    requires i < |s| && CleanMatchLength(s, i) == 0
    ensures Scrub(s, i) == [s[i]] + Scrub(s, i + 1)
  {
  }

  lemma RemainingStep(s: string, i: nat, spans: seq<Span>)
    requires SpansInOrder(s, i, spans) && spans != []
    ensures Remaining(s, i, spans) == s[i..spans[0].start] + Remaining(s, spans[0].end, spans[1..])
  {
  }

  /** The scan cuts out the spans `CleanMatchLength` finds. */
  lemma {:induction false} ScanRemoves(s: string, i: nat, spans: seq<Span>)
    requires SpansInOrder(s, i, spans) && ScanMatches(s, i, spans)
    ensures Scrub(s, i) == Remaining(s, i, spans)
    decreases |s| - i, 1
  {
    if i == |s| {
      assert spans == [] && s[i..] == [];
    } else if CleanMatchLength(s, i) > 0 {
      ScanAtMatch(s, i, spans);
    } else {
      ScanAtNoMatch(s, i, spans);
    }
  }

  /** A match at the scan position is the next span, and it is cut out. */
  lemma {:induction false} ScanAtMatch(s: string, i: nat, spans: seq<Span>)
    requires SpansInOrder(s, i, spans) && ScanMatches(s, i, spans)
    requires i < |s| && CleanMatchLength(s, i) > 0
    ensures Scrub(s, i) == Remaining(s, i, spans)
    decreases |s| - i, 0
  {
    ScanFirstSpan(s, i, spans);
    ScrubSkipsMatch(s, i, spans[0].end);
    ScanRemoves(s, spans[0].end, spans[1..]);
  }

  /** A match at the scan position is the first span. */
  lemma ScanFirstSpan(s: string, i: nat, spans: seq<Span>)
    requires SpansInOrder(s, i, spans) && ScanMatches(s, i, spans)
    requires i < |s| && CleanMatchLength(s, i) > 0
    ensures spans != [] && spans[0] == Span(i, i + CleanMatchLength(s, i))
    ensures SpansInOrder(s, spans[0].end, spans[1..]) && ScanMatches(s, spans[0].end, spans[1..])
    ensures Remaining(s, i, spans) == Remaining(s, spans[0].end, spans[1..])
  {
    RemainingStep(s, i, spans);
    assert s[i..i] == [];
  }

  /** Without a match at the scan position its character is kept. */
  lemma {:induction false} ScanAtNoMatch(s: string, i: nat, spans: seq<Span>)
    requires SpansInOrder(s, i, spans) && ScanMatches(s, i, spans)
    requires i < |s| && CleanMatchLength(s, i) == 0
    ensures Scrub(s, i) == Remaining(s, i, spans)
    decreases |s| - i, 0
  {
    ScanStepsPast(s, i, spans);
    ScanRemoves(s, i + 1, spans);
    RemainingKeeps(s, i, spans);
    ScrubKeepsChar(s, i);
  }

  /** Where the scan finds no match, the next span starts further on. */
  lemma ScanStepsPast(s: string, i: nat, spans: seq<Span>)
    requires SpansInOrder(s, i, spans) && ScanMatches(s, i, spans)
    requires i < |s| && CleanMatchLength(s, i) == 0
    ensures spans != [] ==> i < spans[0].start
    ensures SpansInOrder(s, i + 1, spans) && ScanMatches(s, i + 1, spans)
  {
  }

  /** A character before the next span is kept. */
  lemma RemainingKeeps(s: string, i: nat, spans: seq<Span>)
    requires SpansInOrder(s, i, spans) && i < |s| && (spans != [] ==> i < spans[0].start)
    ensures SpansInOrder(s, i + 1, spans)
    ensures Remaining(s, i, spans) == [s[i]] + Remaining(s, i + 1, spans)
  {
    if spans == [] {
      assert s[i..] == [s[i]] + s[i + 1..];
    } else {
      RemainingStep(s, i, spans);
      RemainingStep(s, i + 1, spans);
      assert s[i..spans[0].start] == [s[i]] + s[i + 1..spans[0].start];
    }
  }

  /** The spans of the global replace are the ones the scan finds. */
  lemma {:induction false} ReplaceIsScan(s: string, i: nat, spans: seq<Span>)
    requires ReplaceSpans(s, i, spans)
    ensures ScanMatches(s, i, spans)
    decreases |spans|
  {
    var stop := if spans == [] then |s| else spans[0].start;
    forall p | i <= p < stop ensures CleanMatchLength(s, p) == 0 {
      CleanMatchLengthCorrect(s, p);
      assert !PatternMatch(s, p, CleanMatchLength(s, p));
    }
    if spans != [] {
      var m := spans[0];
      CleanMatchLengthCorrect(s, m.start);
      ReplaceIsScan(s, m.end, spans[1..]);
    }
  }

  /** The scan deletes exactly the matches of the global replace: whatever
      spans satisfy `ReplaceSpans`, `Scrub` leaves what lies between them. */
  lemma ScrubDeletesSpans(s: string, i: nat, spans: seq<Span>)
    requires ReplaceSpans(s, i, spans)
    ensures Scrub(s, i) == Remaining(s, i, spans)
  {
    ReplaceIsScan(s, i, spans);
    ScanRemoves(s, i, spans);
  }

  /** The global replace always has its spans. */
  lemma {:induction false} ReplaceSpansExist(s: string, i: nat)
    requires i <= |s|
    ensures exists spans :: ReplaceSpans(s, i, spans)
    decreases |s| - i
  {
    if i == |s| {
      forall p, n | i <= p ensures !PatternMatch(s, p, n) {
        if PatternMatch(s, p, n) {
          PatternInside(s, p, n);
        }
      }
      assert ReplaceSpans(s, i, []);
    } else {
      CleanMatchLengthCorrect(s, i);
      var n := CleanMatchLength(s, i);
      if n > 0 {
        ReplaceSpansExist(s, i + n);
        var rest :| ReplaceSpans(s, i + n, rest);
        var spans := [Span(i, i + n)] + rest;
        assert spans[1..] == rest;
        assert ReplaceSpans(s, i, spans);
      } else {
        ReplaceSpansExist(s, i + 1);
        var spans :| ReplaceSpans(s, i + 1, spans);
        assert ReplaceSpans(s, i, spans);
      }
    }
  }

  /** `cleanQuery` is the query with the global replace's matches cut out,
      trimmed. */
  lemma CleanQueryDeletesMatches(q: string, spans: seq<Span>)
    requires ReplaceSpans(q, 0, spans)
    ensures CleanQuery(q) == Trim(Remaining(q, 0, spans))
  {
    ScrubDeletesSpans(q, 0, spans);
  }

  /** A query in which no keyword occurs, ignoring case, and which has no digit
      and no '-' comes back from `cleanQuery` only trimmed. */
  lemma CleanPlainQuery(q: string)
    requires forall k :: 0 <= k < |q| ==> !IsDigit(q[k]) && q[k] != '-'
    requires forall k, j :: 0 <= k && 0 <= j < |CleanKeywords| ==> !OccursAt(Lower(q), CleanKeywords[j], k)
    ensures Scrub(q, 0) == q
    ensures CleanQuery(q) == Trim(q)
  {
    forall p | 0 <= p < |q| ensures CleanMatchLength(q, p) == 0 {
      PlainPosition(q, p);
    }
    assert SpansInOrder(q, 0, []) && ScanMatches(q, 0, []);
    ScanRemoves(q, 0, []);
  }

  /** The pattern matches nowhere in such a query. */
  lemma PlainPosition(q: string, p: nat)
    requires p < |q| && !IsDigit(q[p]) && q[p] != '-'
    requires forall j :: 0 <= j < |CleanKeywords| ==> !OccursAt(Lower(q), CleanKeywords[j], p)
    ensures CleanMatchLength(q, p) == 0
  {
    forall j | 0 <= j < |CleanKeywords| ensures !KeywordAt(q, CleanKeywords[j], p) {
      AbsentKeywordAt(q, CleanKeywords[j], p);
    }
  }

  lemma AbsentKeywordAt(q: string, kw: string, p: nat)
    requires p <= |q| && !OccursAt(Lower(q), kw, p)
    ensures !KeywordAt(q, kw, p)
  {
    KeywordAtIff(q, kw, p);
    if p + |kw| <= |q| {
      assert Lower(q)[p..p + |kw|] == Lower(q[p..p + |kw|]);
    }
  }

  // ---------------------------------------------------------------------
  // Consequences of matching without word boundaries

  /** A keyword whose first letter does not occur in the query never matches. */
  lemma AbsentKeyword(s: string, kw: string)
    requires kw != [] && forall i :: 0 <= i < |s| ==> s[i] != kw[0]
    ensures !HasNumberMatch(s, kw)
  {
    forall p | 0 <= p && p + |kw| <= |s| ensures !OccursAt(s, kw, p) {
      assert s[p..p + |kw|][0] == s[p];
    }
  }

  lemma CoverHasNoOtherKeyword()
    ensures Lower("cover 3") == "cover 3"
    ensures !HasNumberMatch("cover 3", "under")
    ensures !HasNumberMatch("cover 3", "below")
    ensures !HasNumberMatch("cover 3", "above")
  {
    AbsentKeyword("cover 3", "under");
    AbsentKeyword("cover 3", "below");
    AbsentKeyword("cover 3", "above");
  }

  lemma CoverHasOver()
    ensures LeftmostNumber("cover 3", "over", 3)
  {
    var s := "cover 3";
    assert s[1..5] == "over";
    assert s[0..4][0] != "over"[0];
    assert !NumberMatchAt(s, "over", 0);
    assert s[6..7] == "3";
    assert DecimalValue("3") == 3 by { assert "3"[..0] == []; }
    assert NumberSpan(s, "over", 1, Span(6, 7));
  }

  /** Without an upper-bound keyword, the leftmost "over" number is the
      minimum when "above" does not match. */
  lemma OverGivesMinimum(q: string, n: nat)
    requires var s := Lower(q);
      && !HasNumberMatch(s, "under") && !HasNumberMatch(s, "below")
      && !HasNumberMatch(s, "above") && LeftmostNumber(s, "over", n)
    ensures ParsePriceFilter(q) == Some(AtLeast(n))
  {
    var s := Lower(q);
    var r := ParsePriceFilter(q);
    var p, num :| NumberSpan(s, "over", p, num)
      && (forall q :: 0 <= q < p ==> !NumberMatchAt(s, "over", q))
      && n == DecimalValue(s[num.start..num.end]);
    assert NumberMatchAt(s, "over", p);
    LeftmostNumberUnique(s, "over", n, r.value.min);
  }

  /** "cover 3" contains "over 3", so it asks for a minimum price of 3. */
  lemma CoverIsOver()
    ensures ParsePriceFilter("cover 3") == Some(AtLeast(3))
  {
    CoverHasNoOtherKeyword();
    CoverHasOver();
    OverGivesMinimum("cover 3", 3);
  }

  /** No white space is needed between keyword and number. */
  lemma UnderGlued()
    ensures ParsePriceFilter("under500") == Some(AtMost(500))
  {
    var s := Lower("under500");
    assert s == "under500";
    assert SkipSpaces(s, 5) == 5;
    assert DigitsEnd(s, 5) == 8;
    assert NumberAt(s, "under", 0) == Some(Span(5, 8));
    assert s[5..8] == "500";
    assert DecimalValue("500") == 500 by {
      assert "500"[..2] == "50" && "50"[..1] == "5" && "5"[..0] == [];
    }
  }

  /** The pattern does not match at a character that is no digit, no '-'
      and not the first letter of a keyword. */
  lemma NoMatchHere(s: string, p: nat)
    requires p < |s| && !IsDigit(s[p]) && s[p] != '-'
    requires var c := LowerChar(s[p]); c != 'u' && c != 'b' && c != 'a' && c != 'o'
    ensures CleanMatchLength(s, p) == 0
  {
    forall j | 0 <= j < |CleanKeywords| ensures !KeywordAt(s, CleanKeywords[j], p) {
      assert CleanKeywords[j][0] in "uabo";
    }
  }

  /** An 'o' that does not start "over" starts no match either. */
  lemma NoOverHere(s: string, p: nat)
    requires p < |s| && LowerChar(s[p]) == 'o' && !KeywordAt(s, "over", p)
    ensures CleanMatchLength(s, p) == 0
  {
    forall j | 0 <= j < |CleanKeywords| ensures !KeywordAt(s, CleanKeywords[j], p) {
      assert j != 3 ==> CleanKeywords[j][0] in "uba";
    }
  }

  /** A 'u' that does not start "under" starts no match either. */
  lemma NoUnderHere(s: string, p: nat)
    requires p < |s| && LowerChar(s[p]) == 'u' && !KeywordAt(s, "under", p)
    ensures CleanMatchLength(s, p) == 0
  {
    forall j | 0 <= j < |CleanKeywords| ensures !KeywordAt(s, CleanKeywords[j], p) {
      assert j != 0 ==> CleanKeywords[j][0] in "bao";
    }
  }

  /** "under" is the first alternative the pattern tries. */
  lemma UnderHere(s: string, p: nat)
    requires p < |s| && KeywordAt(s, "under", p)
    ensures CleanMatchLength(s, p) == 5
  {
    assert CleanKeywords[0] == "under";
  }

  /** A digit starts the `\d+` alternative: no keyword starts with a digit. */
  lemma DigitsHere(s: string, p: nat)
    requires p < |s| && IsDigit(s[p])
    ensures CleanMatchLength(s, p) == DigitsEnd(s, p) - p
  {
  }

  /** No match starts in `s[i..j]`. */
  predicate NoMatchFrom(s: string, i: nat, j: nat)
    requires i <= j <= |s|
    decreases j - i
  {
    i == j || (CleanMatchLength(s, i) == 0 && NoMatchFrom(s, i + 1, j))
  }

  /** A stretch where no match starts is kept as it is. */
  lemma {:induction false} ScrubKeepsRun(s: string, i: nat, j: nat)
    requires i <= j <= |s| && NoMatchFrom(s, i, j)
    ensures Scrub(s, i) == s[i..j] + Scrub(s, j)
    decreases j - i
  {
    if i < j {
      assert NoMatchFrom(s, i + 1, j);
      assert Scrub(s, i) == [s[i]] + Scrub(s, i + 1) by {
        ScrubKeepsChar(s, i);
      }
      ScrubKeepsRun(s, i + 1, j);
      assert s[i..j] == [s[i]] + s[i + 1..j];
      AppendAssoc([s[i]], s[i + 1..j], Scrub(s, j));
    }
  }

  /** The scan of "shoes under 500" keeps "shoes " ... */
  lemma ShoesPrefix(s: string)
    requires s == "shoes under 500"
    ensures Scrub(s, 0) == s[0..6] + Scrub(s, 6)
  {
    NoMatchHere(s, 5);
    NoMatchHere(s, 4);
    NoMatchHere(s, 3);
    NoOverHere(s, 2);
    NoMatchHere(s, 1);
    NoMatchHere(s, 0);
    assert NoMatchFrom(s, 4, 6);
    assert NoMatchFrom(s, 2, 6);
    assert NoMatchFrom(s, 0, 6);
    ScrubKeepsRun(s, 0, 6);
  }

  /** ... deletes "under" ... */
  lemma ShoesUnder(s: string)
    requires s == "shoes under 500"
    ensures Scrub(s, 6) == Scrub(s, 11)
  {
    UnderHere(s, 6);
    ScrubSkipsMatch(s, 6, 11);
  }

  /** ... keeps the following space and deletes "500". */
  lemma ShoesPrice(s: string)
    requires s == "shoes under 500"
    ensures Scrub(s, 11) == s[11..12]
  {
    NoMatchHere(s, 11);
    ScrubKeepsChar(s, 11);
    DigitsHere(s, 12);
    assert DigitsEnd(s, 12) == 15;
    ScrubSkipsMatch(s, 12, 15);
  }

  /** `cleanQuery("shoes under 500")` is "shoes": the keyword and the
      number go, and the spaces left behind are trimmed. */
  lemma CleanShoesUnder(q: string)
    requires q == "shoes under 500"
    ensures CleanQuery(q) == "shoes"
  {
    ShoesPrefix(q);
    ShoesUnder(q);
    ShoesPrice(q);
    assert q[0..6] + q[11..12] == "shoes  ";
    TrimShoes(Scrub(q, 0));
  }

  lemma TrimShoes(t: string)
    requires t == "shoes  "
    ensures Trim(t) == "shoes"
  {
    assert LeadingSpaces(t) == 0;
    assert TrailingStart(t[..6]) == 5 by {
      assert t[..6][..5] == "shoes";
    }
    assert TrailingStart(t) == 5;
  }

  /** The last three characters of "ununderder" are kept. */
  lemma ScrubLastThree(s: string)
    requires s == "ununderder"
    ensures Scrub(s, 7) == "der"
  {
    NoMatchHere(s, 9);
    ScrubKeepsChar(s, 9);
    NoMatchHere(s, 8);
    ScrubKeepsChar(s, 8);
    NoMatchHere(s, 7);
    ScrubKeepsChar(s, 7);
  }

  /** From its third character on, the scan of "ununderder" deletes "under"
      and keeps "der". */
  lemma ScrubTail(s: string)
    requires s == "ununderder"
    ensures Scrub(s, 2) == "der"
  {
    ScrubLastThree(s);
    UnderHere(s, 2);
    ScrubSkipsMatch(s, 2, 7);
  }

  /** The scan of "ununderder" keeps "un", deletes "under" and keeps "der". */
  lemma ScrubExample(s: string)
    requires s == "ununderder"
    ensures Scrub(s, 0) == "under"
  {
    ScrubTail(s);
    NoMatchHere(s, 1);
    ScrubKeepsChar(s, 1);
    NoUnderHere(s, 0);
    ScrubKeepsChar(s, 0);
  }

  /** Deleting "under" from the middle of "ununderder" joins its two halves
      into a new "under", which a second pass would delete: the cleaner is
      not idempotent and its output may still hold a keyword. */
  lemma CleanNotIdempotent(q: string)
    requires q == "ununderder"
    ensures CleanQuery(q) == "under"
    ensures CleanQuery(CleanQuery(q)) == []
  {
    ScrubExample(q);
    var u := Scrub(q, 0);
    TrimKeepsTrimmed(u);
    assert CleanQuery(q) == u;
    CleanKeyword(u);
  }

  lemma CleanKeyword(u: string)
    requires u == "under"
    ensures CleanQuery(u) == []
  {
    assert CleanMatchLength(u, 0) == 5;
  }
}
