/** The parts of the relational engine's behaviour that the handlers' queries
    depend on, stated as functions over a sequence of rows: `ORDER BY` (a
    stable insertion sort under a total preorder) and `LIKE` pattern
    matching. */
module Relational {
  import opened JsText

  ghost predicate Connex<T(!new)>(le: (T, T) -> bool) {
    forall a, b :: le(a, b) || le(b, a)
  }

  ghost predicate Transitive<T(!new)>(le: (T, T) -> bool) {
    forall a, b, c :: le(a, b) && le(b, c) ==> le(a, c)
  }

  predicate SortedBy<T>(s: seq<T>, le: (T, T) -> bool) {
    forall i, j :: 0 <= i < j < |s| ==> le(s[i], s[j])
  }

  /** Inserts `x` before the first element it is `le` to. */
  function Insert<T>(x: T, s: seq<T>, le: (T, T) -> bool): (r: seq<T>)
    ensures multiset(r) == multiset(s) + multiset{x}
    ensures |r| == |s| + 1
  {
    if s == [] then [x]
    else if le(x, s[0]) then [x] + s
    else
      assert s == [s[0]] + s[1..];
      [s[0]] + Insert(x, s[1..], le)
  }

  lemma {:induction false} InsertSorted<T(!new)>(x: T, s: seq<T>, le: (T, T) -> bool)
    requires Connex(le) && Transitive(le)
    requires SortedBy(s, le)
    ensures SortedBy(Insert(x, s, le), le)
  {
    if s != [] && !le(x, s[0]) {
      SortedTail(s, le);
      InsertSorted(x, s[1..], le);
      assert le(s[0], x);
      assert forall k :: 0 <= k < |s[1..]| ==> le(s[0], s[1..][k]);
      InsertAbove(s[0], x, s[1..], le);
      SortedCons(s[0], Insert(x, s[1..], le), le);
    }
  }

  lemma SortedTail<T>(s: seq<T>, le: (T, T) -> bool)
    requires s != [] && SortedBy(s, le)
    ensures SortedBy(s[1..], le)
  {
    forall i, j | 0 <= i < j < |s[1..]| ensures le(s[1..][i], s[1..][j]) {
      assert s[1..][i] == s[i + 1] && s[1..][j] == s[j + 1];
    }
  }

  /** A lower bound of `x` and of every element of `t` bounds the insertion. */
  lemma InsertAbove<T>(y: T, x: T, t: seq<T>, le: (T, T) -> bool)
    requires le(y, x) && forall k :: 0 <= k < |t| ==> le(y, t[k])
    ensures forall k :: 0 <= k < |Insert(x, t, le)| ==> le(y, Insert(x, t, le)[k])
  {
    var r := Insert(x, t, le);
    forall k | 0 <= k < |r| ensures le(y, r[k]) {
      assert r[k] in multiset(r);
      if r[k] != x {
        assert r[k] in multiset(t);
        var j :| 0 <= j < |t| && t[j] == r[k];
      }
    }
  }

  lemma SortedCons<T>(a: T, rest: seq<T>, le: (T, T) -> bool)
    requires SortedBy(rest, le) && forall k :: 0 <= k < |rest| ==> le(a, rest[k])
    ensures SortedBy([a] + rest, le)
  {
    var r := [a] + rest;
    forall i, j | 0 <= i < j < |r| ensures le(r[i], r[j]) {
      if i == 0 {
        assert r[j] == rest[j - 1];
      } else {
        assert r[i] == rest[i - 1] && r[j] == rest[j - 1];
      }
    }
  }

  /** `ORDER BY` under `le`: rows that compare equal keep their table order. */
  function SortBy<T>(s: seq<T>, le: (T, T) -> bool): (r: seq<T>)
    ensures multiset(r) == multiset(s)
    ensures |r| == |s|
  {
    if s == [] then []
    else
      assert s == [s[0]] + s[1..];
      Insert(s[0], SortBy(s[1..], le), le)
  }

  /** The rows `ORDER BY` returns are a permutation of its input in order. */
  lemma {:induction false} SortBySorted<T(!new)>(s: seq<T>, le: (T, T) -> bool)
    requires Connex(le) && Transitive(le)
    ensures SortedBy(SortBy(s, le), le)
    ensures multiset(SortBy(s, le)) == multiset(s)
  {
    if s != [] {
      SortBySorted(s[1..], le);
      InsertSorted(s[0], SortBy(s[1..], le), le);
    }
  }

  /** One step of a `WHERE` filter: the head is kept when it is selected, and
      what the tail keeps stays as it is. */
  lemma FilterStep<T>(s: seq<T>, rest: seq<T>, sel: T -> bool, r: seq<T>)
    requires s != [] && |rest| < |s|
    requires forall x :: multiset(rest)[x] == if sel(x) then multiset(s[1..])[x] else 0
    requires IsSubsequence(rest, s[1..])
    requires r == if sel(s[0]) then [s[0]] + rest else rest
    ensures forall x :: multiset(r)[x] == if sel(x) then multiset(s)[x] else 0
    ensures forall x :: x in r <==> x in s && sel(x)
    ensures |r| <= |s|
    ensures IsSubsequence(r, s)
  {
    FilterCount(s, rest, sel, r);
    FilterMembers(s, sel, r);
    if sel(s[0]) {
      assert r[1..] == rest;
    } else {
      SubsequenceCons(rest, s);
    }
  }

  lemma FilterCount<T>(s: seq<T>, rest: seq<T>, sel: T -> bool, r: seq<T>)
    requires s != []
    requires forall x :: multiset(rest)[x] == if sel(x) then multiset(s[1..])[x] else 0
    requires r == if sel(s[0]) then [s[0]] + rest else rest
    ensures forall x :: multiset(r)[x] == if sel(x) then multiset(s)[x] else 0
  {
    assert multiset(s) == multiset{s[0]} + multiset(s[1..]) by {
      assert s == [s[0]] + s[1..];
    }
    if sel(s[0]) {
      assert multiset(r) == multiset{s[0]} + multiset(rest);
    }
  }

  /** Counting as a filter does, the kept elements are the selected ones. */
  lemma FilterMembers<T>(s: seq<T>, sel: T -> bool, r: seq<T>)
    requires forall x :: multiset(r)[x] == if sel(x) then multiset(s)[x] else 0
    ensures forall x :: x in r <==> x in s && sel(x)
  {
    forall x ensures x in r <==> x in s && sel(x) {
      assert x in r <==> multiset(r)[x] > 0;
      assert x in s <==> multiset(s)[x] > 0;
    }
  }

  /** Lexicographic order on strings by code point. */
  predicate LexLe(a: string, b: string) {
    a == [] || (b != [] && (a[0] < b[0] || (a[0] == b[0] && LexLe(a[1..], b[1..]))))
  }

  lemma {:induction false} LexLeConnex(a: string, b: string)
    ensures LexLe(a, b) || LexLe(b, a)
  {
    if a != [] && b != [] && a[0] == b[0] {
      LexLeConnex(a[1..], b[1..]);
    }
  }

  lemma {:induction false} LexLeTransitive(a: string, b: string, c: string)
    requires LexLe(a, b) && LexLe(b, c)
    ensures LexLe(a, c)
  {
    if a != [] && b != [] && c != [] && a[0] == b[0] && b[0] == c[0] {
      LexLeTransitive(a[1..], b[1..], c[1..]);
    }
  }

  /** Comparing rows by a string key, as `ORDER BY name` does, is a total
      preorder. */
  lemma KeyOrderTotal<T(!new)>(le: (T, T) -> bool, key: T -> string)
    requires forall a, b :: le(a, b) == LexLe(key(a), key(b))
    ensures Connex(le) && Transitive(le)
  {
    forall a, b ensures le(a, b) || le(b, a) {
      LexLeConnex(key(a), key(b));
    }
    forall a, b, c | le(a, b) && le(b, c) ensures le(a, c) {
      LexLeTransitive(key(a), key(b), key(c));
    }
  }

  /** `LIKE`: `%` matches any run, `_` one character, `\` escapes the next
      character; other characters match themselves exactly. */
  predicate LikeMatch(p: string, t: string)
    decreases |p| + |t|
  {
    if p == [] then t == []
    else if p[0] == '%' then LikeMatch(p[1..], t) || (t != [] && LikeMatch(p, t[1..]))
    else if p[0] == '_' then t != [] && LikeMatch(p[1..], t[1..])
    else if p[0] == '\\' && |p| >= 2 then t != [] && t[0] == p[1] && LikeMatch(p[2..], t[1..])
    else t != [] && t[0] == p[0] && LikeMatch(p[1..], t[1..])
  }

  /** A term in which `LIKE` gives no character a special meaning. */
  predicate PlainTerm(w: string) {
    forall i :: 0 <= i < |w| ==> w[i] != '%' && w[i] != '_' && w[i] != '\\'
  }

  lemma {:induction false} LikePrefix(w: string, t: string)
    requires PlainTerm(w)
    ensures LikeMatch(w + "%", t) <==> |w| <= |t| && t[..|w|] == w
  {
    if w == [] {
      LikeAnything(t);
      assert w + "%" == "%";
    } else {
      assert (w + "%")[0] == w[0];
      assert (w + "%")[1..] == w[1..] + "%";
      assert PlainTerm(w[1..]) by {
        forall i | 0 <= i < |w[1..]| ensures w[1..][i] != '%' && w[1..][i] != '_' && w[1..][i] != '\\' {
          assert w[1..][i] == w[i + 1];
        }
      }
      if t != [] {
        LikePrefix(w[1..], t[1..]);
        if |w| <= |t| {
          assert t[..|w|] == [t[0]] + t[1..][..|w| - 1];
        }
      }
    }
  }

  lemma {:induction false} LikeAnything(t: string)
    ensures LikeMatch("%", t)
  {
    assert "%"[1..] == [];
    if t != [] {
      LikeAnything(t[1..]);
    }
  }

  lemma {:induction false} LikeLeadingPercent(q: string, t: string)
    ensures LikeMatch("%" + q, t) <==> exists i :: 0 <= i <= |t| && LikeMatch(q, t[i..])
  {
    var p := "%" + q;
    assert p[1..] == q;
    if t == [] {
      assert t[0..] == t;
    } else {
      LikeLeadingPercent(q, t[1..]);
      assert t[0..] == t;
      if exists i :: 0 <= i <= |t| && LikeMatch(q, t[i..]) {
        var i :| 0 <= i <= |t| && LikeMatch(q, t[i..]);
        if i > 0 {
          assert t[1..][i - 1..] == t[i..];
        }
      }
      if exists i :: 0 <= i <= |t[1..]| && LikeMatch(q, t[1..][i..]) {
        var i :| 0 <= i <= |t[1..]| && LikeMatch(q, t[1..][i..]);
        assert t[1..][i..] == t[i + 1..];
      }
    }
  }

  /** The relational search path's `name LIKE '%term%'` is a substring test
      when the term holds no `%`, `_` or `\`. */
  lemma LikeContains(w: string, t: string)
    requires PlainTerm(w)
    ensures LikeMatch("%" + w + "%", t) <==> Contains(t, w)
  {
    assert "%" + w + "%" == "%" + (w + "%");
    LikeLeadingPercent(w + "%", t);
    if Contains(t, w) {
      var i :| OccursAt(t, w, i);
      LikePrefix(w, t[i..]);
      assert t[i..][..|w|] == t[i..i + |w|];
    }
    if exists i :: 0 <= i <= |t| && LikeMatch(w + "%", t[i..]) {
      var i :| 0 <= i <= |t| && LikeMatch(w + "%", t[i..]);
      LikePrefix(w, t[i..]);
      assert t[i..][..|w|] == t[i..i + |w|];
      assert OccursAt(t, w, i);
    }
  }

  /** An `_` left in the term matches any character: "a_c" is not a substring
      of "xabcx", yet `'%a_c%'` matches it. */
  lemma LikeUnderscoreIsWildcard()
    ensures LikeMatch("%a_c%", "xabcx")
    ensures !Contains("xabcx", "a_c")
  {
    assert "%a_c%"[1..] == "a_c%";
    assert "xabcx"[1..] == "abcx";
    assert LikeMatch("a_c%", "abcx") by {
      assert "a_c%"[1..] == "_c%" && "abcx"[1..] == "bcx";
      assert "_c%"[1..] == "c%" && "bcx"[1..] == "cx";
      assert "c%"[1..] == "%" && "cx"[1..] == "x";
      LikeAnything("x");
    }
    forall i | 0 <= i <= 2 ensures !OccursAt("xabcx", "a_c", i) {
      assert "xabcx"[i..i + 3][1] == "xabcx"[i + 1] != '_';
    }
  }
}
