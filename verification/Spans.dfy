/** The fragment list of the reassembly buffer as a value: intervals of stream positions. */
module Spans {
  import opened SeqArith

  datatype Span = Span(lo: int, hi: int)

  predicate InSpan(p: int, s: Span) {
    s.lo <= p < s.hi
  }

  ghost predicate Covered(s: seq<Span>, p: int) {
    exists i :: 0 <= i < |s| && InSpan(p, s[i])
  }

  /** Sorted, non-empty, and with a gap between any two neighbours. */
  ghost predicate Canonical(s: seq<Span>) {
    && (forall i :: 0 <= i < |s| ==> s[i].lo < s[i].hi)
    && (forall i, j :: 0 <= i < j < |s| ==> s[i].hi < s[j].lo)
  }

  ghost predicate Within(s: seq<Span>, lo: int, hi: int) {
    forall i :: 0 <= i < |s| ==> lo <= s[i].lo && s[i].hi <= hi
  }

  /** CanMerge: the intervals overlap or touch. */
  predicate Touch(a: Span, b: Span) {
    a.lo <= b.hi && b.lo <= a.hi
  }

  /** MergeFragments. */
  function Merge(a: Span, b: Span): Span {
    Span(if a.lo <= b.lo then a.lo else b.lo, if a.hi <= b.hi then b.hi else a.hi)
  }

  /** One interval put into the list: skip what ends before it, swallow what it touches. */
  ghost function Put(s: seq<Span>, x: Span): seq<Span> {
    if s == [] then [x]
    else if s[0].hi < x.lo then [s[0]] + Put(s[1..], x)
    else if x.hi < s[0].lo then [x] + s
    else Put(s[1..], Merge(x, s[0]))
  }

  lemma {:induction false} PutWithin(s: seq<Span>, x: Span, lo: int, hi: int)
    requires Within(s, lo, hi) && lo <= x.lo && x.hi <= hi
    ensures Within(Put(s, x), lo, hi)
  {
    if s != [] {
      assert Within(s[1..], lo, hi);
      if s[0].hi < x.lo {
        PutWithin(s[1..], x, lo, hi);
      } else if x.hi >= s[0].lo {
        PutWithin(s[1..], Merge(x, s[0]), lo, hi);
      }
    }
  }

  /** The list stays sorted, disjoint and non-touching. */
  lemma {:induction false} PutCanonical(s: seq<Span>, x: Span)
    requires Canonical(s) && x.lo < x.hi
    ensures Canonical(Put(s, x))
    ensures Put(s, x) != [] && Put(s, x)[0].lo == if s != [] && s[0].lo < x.lo then s[0].lo else x.lo
  {
    if s != [] {
      TailCanonical(s);
      if s[0].hi < x.lo {
        PutCanonical(s[1..], x);
      } else if x.hi >= s[0].lo {
        PutCanonical(s[1..], Merge(x, s[0]));
      }
    }
  }

  lemma CoveredCons(x: Span, s: seq<Span>, p: int)
    ensures Covered([x] + s, p) <==> InSpan(p, x) || Covered(s, p)
  {
    if InSpan(p, x) {
      assert InSpan(p, ([x] + s)[0]);
    }
    if Covered(s, p) {
      var i :| 0 <= i < |s| && InSpan(p, s[i]);
      assert ([x] + s)[i + 1] == s[i];
    }
  }

  lemma NotCovered(p: int)
    ensures !Covered([], p)
  {}

  lemma TailCanonical(s: seq<Span>)
    requires Canonical(s) && s != []
    ensures Canonical(s[1..]) && s[0].lo < s[0].hi
  {}

  /** ... and covers exactly what it covered before, and the new interval. */
  lemma {:induction false} PutCovers(s: seq<Span>, x: Span, p: int)
    requires Canonical(s) && x.lo < x.hi
    ensures Covered(Put(s, x), p) <==> Covered(s, p) || InSpan(p, x)
  {
    hide Canonical, Covered;
    if s == [] {
      assert [x] + [] == [x];
      CoveredCons(x, [], p);
      NotCovered(p);
    } else {
      assert s == [s[0]] + s[1..];
      TailCanonical(s);
      CoveredCons(s[0], s[1..], p);
      if s[0].hi < x.lo {
        PutCovers(s[1..], x, p);
        CoveredCons(s[0], Put(s[1..], x), p);
      } else if x.hi < s[0].lo {
        CoveredCons(x, s, p);
      } else {
        PutCovers(s[1..], Merge(x, s[0]), p);
      }
    }
  }

  /** Only one canonical list covers a given set of positions. */
  lemma {:induction false} CanonicalUnique(s: seq<Span>, t: seq<Span>)
    requires Canonical(s) && Canonical(t)
    requires forall p :: Covered(s, p) <==> Covered(t, p)
    ensures s == t
  {
    if s == [] || t == [] {
      if s != [] {
        FirstCovered(s);
      }
      if t != [] {
        FirstCovered(t);
      }
    } else {
      FirstRun(s, t);
      FirstRun(t, s);
      assert s == [s[0]] + s[1..] && t == [t[0]] + t[1..];
      forall p
        ensures Covered(s[1..], p) <==> Covered(t[1..], p)
      {
        CoveredCons(s[0], s[1..], p);
        CoveredCons(t[0], t[1..], p);
      }
      CanonicalUnique(s[1..], t[1..]);
    }
  }

  lemma FirstCovered(s: seq<Span>)
    requires Canonical(s) && s != []
    ensures Covered(s, s[0].lo)
  {
    assert InSpan(s[0].lo, s[0]);
  }

  lemma FirstRun(s: seq<Span>, t: seq<Span>)
    requires Canonical(s) && Canonical(t) && s != [] && t != []
    requires forall p :: Covered(s, p) <==> Covered(t, p)
    ensures t[0].lo <= s[0].lo && s[0].hi <= t[0].hi
  {
    assert InSpan(s[0].lo, s[0]) && Covered(s, s[0].lo);
    assert InSpan(t[0].lo, t[0]) && Covered(t, t[0].lo);
    if t[0].hi < s[0].hi {
      assert !Covered(t, t[0].hi);
      assert InSpan(t[0].hi, s[0]);
    }
  }

  /** What the receiver may hand out: the run of covered positions that starts at `lo`. */
  ghost function Run(s: seq<Span>, lo: int): int {
    if s != [] && s[0].lo == lo then s[0].hi - s[0].lo else 0
  }

  lemma RunIsMaximal(s: seq<Span>, lo: int)
    requires Canonical(s) && (s != [] ==> lo <= s[0].lo)
    ensures 0 <= Run(s, lo)
    ensures forall p :: lo <= p < lo + Run(s, lo) ==> Covered(s, p)
    ensures !Covered(s, lo + Run(s, lo))
  {
    forall p | lo <= p < lo + Run(s, lo)
      ensures Covered(s, p)
    {
      assert InSpan(p, s[0]);
    }
  }

  /** A put never shortens the run. */
  lemma PutRun(s: seq<Span>, x: Span, lo: int)
    requires Canonical(s) && x.lo < x.hi && lo <= x.lo && (s != [] ==> lo <= s[0].lo)
    ensures Run(s, lo) <= Run(Put(s, x), lo)
  {
    PutCanonical(s, x);
    if Run(Put(s, x), lo) < Run(s, lo) {
      var p := lo + Run(Put(s, x), lo);
      RunIsMaximal(Put(s, x), lo);
      assert InSpan(p, s[0]) && Covered(s, p);
      PutCovers(s, x, p);
    }
  }

  lemma PutFacts(s: seq<Span>, x: Span, lo: int, hi: int)
    requires Canonical(s) && Within(s, lo, hi) && lo <= x.lo < x.hi <= hi
    ensures Put(s, x) != [] && Within(Put(s, x), lo, hi)
    ensures Run(s, lo) <= Run(Put(s, x), lo) && (Run(s, lo) > 0 ==> Put(s, x)[0].lo == lo)
  {
    PutWithin(s, x, lo, hi);
    PutRun(s, x, lo);
    PutCanonical(s, x);
  }

  /** The first `n` positions of the run are given away. */
  ghost function Cut(s: seq<Span>, n: nat): seq<Span>
    requires n > 0 ==> s != []
  {
    if n == 0 then s
    else if s[0].hi - s[0].lo == n then s[1..]
    else [Span(s[0].lo + n, s[0].hi)] + s[1..]
  }

  lemma CoveredBehind(s: seq<Span>, p: int)
    requires Canonical(s) && s != [] && Covered(s[1..], p)
    ensures s[0].hi < p
  {}

  lemma CutCovers(s: seq<Span>, lo: int, n: nat)
    requires Canonical(s) && (s != [] ==> lo <= s[0].lo) && n <= Run(s, lo)
    ensures n > 0 ==> s != []
    ensures Canonical(Cut(s, n)) && (Cut(s, n) != [] ==> lo + n <= Cut(s, n)[0].lo)
    ensures Run(Cut(s, n), lo + n) == Run(s, lo) - n
    ensures forall p :: Covered(Cut(s, n), p) <==> Covered(s, p) && lo + n <= p
  {
    hide Covered;
    forall p
      ensures Covered(Cut(s, n), p) <==> Covered(s, p) && lo + n <= p
    {
      if n == 0 {
        CoveredAbove(s, lo, p);
      } else {
        CutCoversAt(s, lo, n, p);
      }
    }
  }

  lemma CoveredAbove(s: seq<Span>, lo: int, p: int)
    requires Canonical(s) && (s != [] ==> lo <= s[0].lo)
    ensures Covered(s, p) ==> lo <= p
  {}

  lemma CutCoversAt(s: seq<Span>, lo: int, n: nat, p: int)
    requires Canonical(s) && s != [] && lo <= s[0].lo && 0 < n <= Run(s, lo)
    ensures Covered(Cut(s, n), p) <==> Covered(s, p) && lo + n <= p
  {
    hide Covered;
    assert s == [s[0]] + s[1..];
    CoveredCons(s[0], s[1..], p);
    if Covered(s[1..], p) {
      CoveredBehind(s, p);
    }
    if s[0].hi - s[0].lo != n {
      CoveredCons(Span(s[0].lo + n, s[0].hi), s[1..], p);
    }
  }

  lemma CutWithin(s: seq<Span>, lo: int, hi: int, n: nat)
    requires Canonical(s) && Within(s, lo, hi) && n <= Run(s, lo)
    ensures n > 0 ==> s != []
    ensures Within(Cut(s, n), lo + n, hi)
  {}

  // ---- Put, one list element at a time

  /** After `i` elements `x` has become `cur`, and those from `j` on have been swallowed. */
  ghost predicate PutAt(s: seq<Span>, x: Span, j: nat, i: nat, cur: Span)
    requires j <= i <= |s|
  {
    Put(s, x) == s[..j] + Put(s[i..], cur)
  }

  lemma SkipStep(s: seq<Span>, x: Span, i: nat, cur: Span)
    requires i < |s| && s[i].hi < cur.lo && PutAt(s, x, i, i, cur)
    ensures PutAt(s, x, i + 1, i + 1, cur)
  {
    assert s[i..][1..] == s[i + 1..];
    assert s[..i] + ([s[i]] + Put(s[i + 1..], cur)) == s[..i + 1] + Put(s[i + 1..], cur);
  }

  lemma SwallowStep(s: seq<Span>, x: Span, j: nat, i: nat, cur: Span)
    requires j <= i < |s| && Touch(cur, s[i]) && PutAt(s, x, j, i, cur)
    ensures PutAt(s, x, j, i + 1, Merge(cur, s[i]))
  {
    assert s[i..][1..] == s[i + 1..];
  }

  lemma StopStep(s: seq<Span>, x: Span, j: nat, i: nat, cur: Span)
    requires j <= i <= |s| && (i < |s| ==> cur.hi < s[i].lo && s[i].lo <= s[i].hi && cur.lo <= cur.hi) &&
      PutAt(s, x, j, i, cur)
    ensures Put(s, x) == s[..j] + [cur] + s[i..]
  {
    assert s[..j] + ([cur] + s[i..]) == s[..j] + [cur] + s[i..];
  }

  /** The loop has skipped `j` elements and swallowed those from `j` up to `i`. */
  ghost predicate Reached(s: seq<Span>, x: Span, j: nat, i: nat) {
    && j <= i <= |s|
    && (j > 0 ==> s[j - 1].hi < x.lo)
    && (j < i ==> x.lo <= s[j].hi && s[i - 1].lo <= x.hi)
  }

  ghost function Joined(s: seq<Span>, x: Span, j: nat, i: nat): Span
    requires j <= i <= |s|
  {
    if j < i then Span(if x.lo <= s[j].lo then x.lo else s[j].lo, if x.hi <= s[i - 1].hi then s[i - 1].hi else x.hi)
      else x
  }

  lemma JoinedWithin(s: seq<Span>, x: Span, j: nat, i: nat, lo: int, hi: int)
    requires Canonical(s) && Within(s, lo, hi) && lo <= x.lo < x.hi <= hi && j <= i <= |s|
    ensures lo <= Joined(s, x, j, i).lo < Joined(s, x, j, i).hi <= hi
  {}

  lemma Swallow(s: seq<Span>, x: Span, j: nat, i: nat)
    requires Canonical(s) && Reached(s, x, j, i) && i < |s| && Touch(Joined(s, x, j, i), s[i])
    ensures Reached(s, x, j, i + 1) && Joined(s, x, j, i + 1) == Merge(Joined(s, x, j, i), s[i])
  {}

  /** An element that does not touch lies behind the part swallowed so far, or is skipped. */
  lemma Pass(s: seq<Span>, x: Span, j: nat, i: nat)
    requires Canonical(s) && x.lo < x.hi && Reached(s, x, j, i) && i < |s| && !Touch(Joined(s, x, j, i), s[i])
    ensures if j < i || x.hi <= s[i].lo then Joined(s, x, j, i).hi < s[i].lo else s[i].hi < x.lo
  {}

  lemma StepBack(s: seq<Span>, x: Span, j: nat, i: nat)
    requires Canonical(s) && x.lo < x.hi && Reached(s, x, j, i)
    ensures j < i ==> Reached(s, x, j, i - 1) && Touch(Joined(s, x, j, i - 1), s[i - 1])
    ensures j < i ==> Joined(s, x, j, i) == Merge(Joined(s, x, j, i - 1), s[i - 1])
    ensures 0 < j == i ==> Reached(s, x, i - 1, i - 1)
  {}

  lemma {:induction false} PutReached(s: seq<Span>, x: Span, j: nat, i: nat)
    requires Canonical(s) && x.lo < x.hi && Reached(s, x, j, i)
    ensures PutAt(s, x, j, i, Joined(s, x, j, i))
    decreases i
  {
    hide Canonical;
    StepBack(s, x, j, i);
    if j < i {
      PutReached(s, x, j, i - 1);
      SwallowStep(s, x, j, i - 1, Joined(s, x, j, i - 1));
    } else if i > 0 {
      PutReached(s, x, i - 1, i - 1);
      SkipStep(s, x, i - 1, x);
    } else {
      assert s[0..] == s;
    }
  }

  /** Where the loop stops, the list is what Put says. */
  lemma PutFormula(s: seq<Span>, x: Span, j: nat, i: nat)
    requires Canonical(s) && x.lo < x.hi && Reached(s, x, j, i)
    requires i < |s| ==> Joined(s, x, j, i).hi < s[i].lo
    ensures Put(s, x) == s[..j] + [Joined(s, x, j, i)] + s[i..]
  {
    PutReached(s, x, j, i);
    StopStep(s, x, j, i, Joined(s, x, j, i));
  }

  // ---- the bytes behind the intervals

  /** The positions covered, as a set. */
  ghost function Cover(s: seq<Span>): set<int> {
    set i, p | 0 <= i < |s| && s[i].lo <= p < s[i].hi && InSpan(p, s[i]) :: p
  }

  lemma CoverIsCovered(s: seq<Span>, p: int)
    ensures p in Cover(s) <==> Covered(s, p)
  {
    if Covered(s, p) {
      var i :| 0 <= i < |s| && InSpan(p, s[i]);
    }
    if p in Cover(s) {
      var i :| 0 <= i < |s| && s[i].lo <= p < s[i].hi;
      assert InSpan(p, s[i]);
    }
  }

  ghost function Range(x: Span): set<int> {
    set p | x.lo <= p < x.hi && InSpan(p, x) :: p
  }

  lemma CoverPut(s: seq<Span>, x: Span)
    requires Canonical(s) && x.lo < x.hi
    ensures Cover(Put(s, x)) == Cover(s) + Range(x)
  {
    forall p
      ensures p in Cover(Put(s, x)) <==> p in Cover(s) || InSpan(p, x)
    {
      CoverIsCovered(Put(s, x), p);
      CoverIsCovered(s, p);
      PutCovers(s, x, p);
    }
  }

  ghost function Above(cover: set<int>, lo: int): set<int> {
    set p | p in cover && lo <= p
  }

  lemma CoverCut(s: seq<Span>, lo: int, n: nat)
    requires Canonical(s) && (s != [] ==> lo <= s[0].lo) && n <= Run(s, lo)
    ensures n > 0 ==> s != []
    ensures Cover(Cut(s, n)) == Above(Cover(s), lo + n)
  {
    CutCovers(s, lo, n);
    forall p
      ensures p in Cover(Cut(s, n)) <==> p in Above(Cover(s), lo + n)
    {
      CoverIsCovered(Cut(s, n), p);
      CoverIsCovered(s, p);
    }
  }

  lemma CoverWithin(s: seq<Span>, lo: int, hi: int)
    requires Within(s, lo, hi)
    ensures forall p :: p in Cover(s) ==> lo <= p < hi
  {}

  /** The bytes from position `lo` on. */
  ghost function From(m: map<int, byte>, lo: int): map<int, byte> {
    map p | p in m && lo <= p :: m[p]
  }

  /** The payload of a segment by stream position. */
  ghost function Payload(bytes: seq<byte>, pos: int): map<int, byte> {
    var range := Range(Span(pos, pos + |bytes|));
    map p | p in range :: bytes[p - pos]
  }
}
