/** Span splicing as both redactors do it: Python's clamping slices, the
    right-to-left replacement loop, the stable "sort by start, descending" of
    the span list, and a left-to-right rebuild that the loop is proved to agree
    with whenever the spans are disjoint. */
module Spans {

  /** A pending replacement: the half-open range [start, end) of the text and
      the placeholder string that takes its place. */
  datatype Span = Span(start: nat, end: nat, replacement: string)

  // ---------------------------------------------------------------------
  // Python slicing with non-negative indices

  /** `s[:i]`: the first i characters, or all of s when i is past its end. */
  function Take(s: string, i: nat): (r: string)
  {
    if i <= |s| then s[..i] else s
  }

  /** `s[i:]`: what follows the first i characters, empty when i is past the end. */
  function Drop(s: string, i: nat): (r: string)
  {
    if i <= |s| then s[i..] else []
  }

  /** `s[i:j]`. */
  function Slice(s: string, i: nat, j: nat): string
  {
    Drop(Take(s, j), i)
  }

  // ---------------------------------------------------------------------
  // The replacement loop

  /** One turn of the loop: `text[:start] + replacement + text[end:]`. */
  function Splice(s: string, sp: Span): string
  {
    Take(s, sp.start) + sp.replacement + Drop(s, sp.end)
  }

  /** The text after splicing every span of the list, first one first. */
  function ApplyAll(s: string, spans: seq<Span>): string
    decreases |spans|
  {
    if spans == [] then s else ApplyAll(Splice(s, spans[0]), spans[1..])
  }

  /** The loop that rebinds the text once per span, in list order. */
  method ReplaceSpans(text: string, spans: seq<Span>) returns (r: string)
    ensures r == ApplyAll(text, spans)
  {
    r := text;
    for i := 0 to |spans|
      invariant ApplyAll(r, spans[i..]) == ApplyAll(text, spans)
    {
      assert spans[i..][1..] == spans[i + 1..];
      r := Take(r, spans[i].start) + spans[i].replacement + Drop(r, spans[i].end);
    }
  }

  // ---------------------------------------------------------------------
  // Sorting by start, descending, keeping the list order of equal starts

  ghost predicate SortedDesc(s: seq<Span>)
  {
    forall i, j :: 0 <= i < j < |s| ==> s[i].start >= s[j].start
  }

  /** The spans of s that start at k, in the order s lists them. */
  function WithStart(s: seq<Span>, k: nat): seq<Span>
    decreases |s|
  {
    if s == [] then []
    else (if s[0].start == k then [s[0]] else []) + WithStart(s[1..], k)
  }

  /** Puts x in front of the first span of s that does not start after it. */
  function Insert(x: Span, s: seq<Span>): (r: seq<Span>)
    requires SortedDesc(s)
    ensures SortedDesc(r)
    ensures |r| == |s| + 1
    ensures multiset(r) == multiset(s) + multiset{x}
    ensures r[0] == x || (s != [] && r[0] == s[0])
    decreases |s|
  {
    if s == [] || x.start >= s[0].start then
      ConsSorted(x, s);
      [x] + s
    else
      SortedTail(s);
      var rest := Insert(x, s[1..]);
      assert s == [s[0]] + s[1..];
      assert multiset(s) == multiset{s[0]} + multiset(s[1..]);
      assert multiset([s[0]] + rest) == multiset{s[0]} + multiset(rest);
      ConsSorted(s[0], rest);
      [s[0]] + rest
  }

  lemma SortedTail(s: seq<Span>)
    requires SortedDesc(s) && s != []
    ensures SortedDesc(s[1..])
  {
    var t := s[1..];
    forall i, j | 0 <= i < j < |t|
      ensures t[i].start >= t[j].start
    {
      assert t[i] == s[i + 1] && t[j] == s[j + 1];
    }
  }

  lemma ConsSorted(y: Span, t: seq<Span>)
    requires SortedDesc(t) && (t == [] || y.start >= t[0].start)
    ensures SortedDesc([y] + t)
  {
    var r := [y] + t;
    forall i, j | 0 <= i < j < |r|
      ensures r[i].start >= r[j].start
    {
      assert r[j] == t[j - 1];
      if i > 0 { assert r[i] == t[i - 1]; }
    }
  }

  /** Insert keeps, for every start, the earlier-collected spans in front:
      x joins the group of its own start at the front. */
  lemma {:induction false} InsertWithStart(x: Span, s: seq<Span>, k: nat)
    requires SortedDesc(s)
    ensures WithStart(Insert(x, s), k) == (if x.start == k then [x] else []) + WithStart(s, k)
    decreases |s|
  {
    if s == [] || x.start >= s[0].start {
      assert Insert(x, s) == [x] + s;
      WithStartCons(x, s, k);
    } else {
      SortedTail(s);
      var rest := Insert(x, s[1..]);
      assert Insert(x, s) == [s[0]] + rest;
      InsertWithStart(x, s[1..], k);
      assert s == [s[0]] + s[1..];
      WithStartBehind(x, s[0], rest, s[1..], k);
    }
  }

  /** x placed behind a span y that starts after it still heads the group
      of its own start. */
  lemma WithStartBehind(x: Span, y: Span, rest: seq<Span>, t: seq<Span>, k: nat)
    requires x.start < y.start
    requires WithStart(rest, k) == (if x.start == k then [x] else []) + WithStart(t, k)
    ensures WithStart([y] + rest, k) == (if x.start == k then [x] else []) + WithStart([y] + t, k)
  {
    WithStartCons(y, rest, k);
    WithStartCons(y, t, k);
    var w := WithStart(t, k);
    if x.start == k {
      assert [] + ([x] + w) == [x] + w;
      assert [] + w == w;
    } else {
      var h := if y.start == k then [y] else [];
      assert [] + w == w;
      assert [] + (h + w) == h + w;
    }
  }

  lemma WithStartCons(y: Span, t: seq<Span>, k: nat)
    ensures WithStart([y] + t, k) == (if y.start == k then [y] else []) + WithStart(t, k)
  {
    assert ([y] + t)[0] == y;
    assert ([y] + t)[1..] == t;
  }

  /** Python's `spans.sort(reverse=True, key=start)`: a stable sort, so spans
      with equal starts keep the order in which they were collected. */
  function SortByStartDesc(s: seq<Span>): (r: seq<Span>)
    ensures SortedDesc(r)
    ensures multiset(r) == multiset(s)
    ensures forall k :: WithStart(r, k) == WithStart(s, k)
    decreases |s|
  {
    if s == [] then []
    else
      var sorted := SortByStartDesc(s[1..]);
      assert s == [s[0]] + s[1..];
      assert forall k :: WithStart(Insert(s[0], sorted), k) == WithStart(s, k) by {
        forall k ensures WithStart(Insert(s[0], sorted), k) == WithStart(s, k) {
          InsertWithStart(s[0], sorted, k);
        }
      }
      Insert(s[0], sorted)
  }

  /** The sort's contract leaves it no choice: any list sorted by descending
      start that keeps, for every start, the same spans in the same order as
      the input is the sort's result. */
  lemma {:induction false} SortIsUnique(s: seq<Span>, t: seq<Span>)
    requires SortedDesc(t)
    requires forall k :: WithStart(t, k) == WithStart(s, k)
    ensures t == SortByStartDesc(s)
  {
    var r := SortByStartDesc(s);
    SortedDeterminedByGroups(t, r);
  }

  lemma {:induction false} SortedDeterminedByGroups(t: seq<Span>, r: seq<Span>)
    requires SortedDesc(t) && SortedDesc(r)
    requires forall k :: WithStart(t, k) == WithStart(r, k)
    ensures t == r
    decreases |t| + |r|
  {
    if t == [] {
      if r != [] {
        WithStartOfHead(r);
        assert false;
      }
    } else if r == [] {
      WithStartOfHead(t);
      assert false;
    } else {
      // The leading spans carry the largest start of each list, so they match.
      var kt, kr := t[0].start, r[0].start;
      if kt < kr {
        assert WithStart(r, kr) != [];
        WithStartAbsent(t, kr);
        assert false;
      } else if kr < kt {
        assert WithStart(t, kt) != [];
        WithStartAbsent(r, kt);
        assert false;
      }
      assert t[0] == WithStart(t, kt)[0] == WithStart(r, kt)[0] == r[0];
      forall k
        ensures WithStart(t[1..], k) == WithStart(r[1..], k)
      {
        var head := if kt == k then [t[0]] else [];
        assert WithStart(t, k) == head + WithStart(t[1..], k);
        assert WithStart(r, k) == head + WithStart(r[1..], k);
        assert (head + WithStart(t[1..], k))[|head|..] == WithStart(t[1..], k);
        assert (head + WithStart(r[1..], k))[|head|..] == WithStart(r[1..], k);
      }
      SortedDeterminedByGroups(t[1..], r[1..]);
      assert t == [t[0]] + t[1..] && r == [r[0]] + r[1..];
    }
  }

  lemma WithStartOfHead(s: seq<Span>)
    requires s != []
    ensures WithStart(s, s[0].start) != []
  {
  }

  /** A list sorted by descending start has no span starting above its head. */
  lemma {:induction false} WithStartAbsent(s: seq<Span>, k: nat)
    requires SortedDesc(s) && s != [] && s[0].start < k
    ensures WithStart(s, k) == []
    decreases |s|
  {
    if |s| > 1 {
      WithStartAbsent(s[1..], k);
    }
  }

  // ---------------------------------------------------------------------
  // Disjoint spans and the left-to-right rebuild

  /** Non-empty and within a text of length n. */
  predicate InBounds(sp: Span, n: nat)
  {
    sp.start < sp.end <= n
  }

  predicate Disjoint(a: Span, b: Span)
  {
    a.end <= b.start || b.end <= a.start
  }

  /** Pairwise disjoint, non-empty spans within a text of length n, in any order. */
  predicate Separate(spans: seq<Span>, n: nat)
  {
    && (forall i :: 0 <= i < |spans| ==> InBounds(spans[i], n))
    && (forall i, j :: 0 <= i < j < |spans| ==> Disjoint(spans[i], spans[j]))
  }

  /** Every span ends at or before each earlier span of the list starts. */
  predicate DescChain(d: seq<Span>, n: nat)
  {
    && (forall i :: 0 <= i < |d| ==> InBounds(d[i], n))
    && (forall i, j :: 0 <= i < j < |d| ==> d[j].end <= d[i].start)
  }

  /** Every span starts at or after from, and after each earlier span ends. */
  predicate AscChain(a: seq<Span>, from: nat, n: nat)
  {
    && (forall i :: 0 <= i < |a| ==> from <= a[i].start && InBounds(a[i], n))
    && (forall i, j :: 0 <= i < j < |a| ==> a[i].end <= a[j].start)
  }

  function Reverse(s: seq<Span>): (r: seq<Span>)
    ensures |r| == |s|
    decreases |s|
  {
    if s == [] then [] else Reverse(s[1..]) + [s[0]]
  }

  lemma {:induction false} ReverseAt(s: seq<Span>, k: nat)
    requires k < |s|
    ensures Reverse(s)[k] == s[|s| - 1 - k]
    decreases |s|
  {
    if k < |s| - 1 {
      ReverseAt(s[1..], k);
    }
  }

  lemma ReverseOfDescChain(d: seq<Span>, n: nat)
    requires DescChain(d, n)
    ensures AscChain(Reverse(d), 0, n)
  {
    var a := Reverse(d);
    forall i | 0 <= i < |a|
      ensures InBounds(a[i], n)
    {
      ReverseAt(d, i);
    }
    forall i, j | 0 <= i < j < |a|
      ensures a[i].end <= a[j].start
    {
      ReverseAt(d, i);
      ReverseAt(d, j);
    }
  }

  /** The reference the replacement loop is measured against: walk the spans in
      ascending order, copy each gap of the ORIGINAL text, then the span's
      placeholder, and finally the tail after the last span. */
  function Rebuild(s: string, asc: seq<Span>, from: nat): string
    decreases |asc|
  {
    if asc == [] then Drop(s, from)
    else Slice(s, from, asc[0].start) + asc[0].replacement + Rebuild(s, asc[1..], asc[0].end)
  }

  /** Text appended after all the spans of a chain rides along unchanged. */
  lemma {:induction false} ApplyAllAppend(v: string, w: string, d: seq<Span>)
    requires DescChain(d, |v|)
    ensures ApplyAll(v + w, d) == ApplyAll(v, d) + w
    decreases |d|
  {
    if d != [] {
      var y := d[0];
      assert Splice(v + w, y) == Splice(v, y) + w by {
        assert Take(v + w, y.start) == Take(v, y.start);
        assert Drop(v + w, y.end) == Drop(v, y.end) + w;
      }
      assert DescChain(d[1..], |Splice(v, y)|) by {
        forall i | 0 <= i < |d[1..]|
          ensures d[1..][i].end <= y.start
        {
          assert d[1..][i] == d[i + 1];
        }
      }
      ApplyAllAppend(Splice(v, y), w, d[1..]);
    }
  }

  /** A span after the end of a chain extends it. */
  lemma AscChainSnoc(a: seq<Span>, x: Span, from: nat, n: nat)
    requires from <= x.start < x.end <= n && AscChain(a, from, x.start)
    ensures AscChain(a + [x], from, n)
  {
    var ax := a + [x];
    forall i | 0 <= i < |ax|
      ensures from <= ax[i].start && InBounds(ax[i], n)
    {
      if i < |a| { assert ax[i] == a[i]; }
    }
    forall i, j | 0 <= i < j < |ax|
      ensures ax[i].end <= ax[j].start
    {
      assert ax[i] == a[i];
      if j < |a| { assert ax[j] == a[j]; }
    }
  }

  /** `s[i:j]` within bounds is the ordinary subsequence. */
  lemma SliceWithin(s: string, i: nat, j: nat)
    requires i <= j <= |s|
    ensures Slice(s, i, j) == s[i..j]
  {
  }

  /** Cutting the text after j does not change `s[i:j]`. */
  lemma SliceOfPrefix(s: string, k: nat, i: nat, j: nat)
    requires i <= j <= k <= |s|
    ensures Slice(s[..k], i, j) == Slice(s, i, j)
  {
    assert s[..k][i..j] == s[i..j];
  }

  /** Peeling the last span off a rebuild. */
  lemma {:induction false} RebuildSnoc(s: string, a: seq<Span>, x: Span, from: nat)
    requires from <= x.start < x.end <= |s| && AscChain(a, from, x.start)
    ensures Rebuild(s, a + [x], from) == Rebuild(s[..x.start], a, from) + x.replacement + s[x.end..]
    decreases |a|
  {
    var p := s[..x.start];
    if a == [] {
      assert [x][1..] == [];
      SliceWithin(s, from, x.start);
      calc {
        Rebuild(s, [x], from);
        Slice(s, from, x.start) + x.replacement + Rebuild(s, [], x.end);
        s[from..x.start] + x.replacement + s[x.end..];
      }
      assert a + [x] == [x];
    } else {
      RebuildSnocStep(s, a, x, from);
    }
  }

  lemma {:induction false} RebuildSnocStep(s: string, a: seq<Span>, x: Span, from: nat)
    requires from <= x.start < x.end <= |s| && AscChain(a, from, x.start) && a != []
    ensures Rebuild(s, a + [x], from) == Rebuild(s[..x.start], a, from) + x.replacement + s[x.end..]
    decreases |a|, 0
  {
    var p := s[..x.start];
    var a0, tail := a[0], a[1..];
    AscChainTail(a, from, x.start);
    RebuildSnoc(s, tail, x, a0.end);
    SliceOfPrefix(s, x.start, from, a0.start);
    var g, rep, xr, rest := Slice(s, from, a0.start), a0.replacement, x.replacement, s[x.end..];
    var r := Rebuild(p, tail, a0.end);
    assert (a + [x])[0] == a0;
    assert (a + [x])[1..] == tail + [x];
    RebuildUnfold(s, a + [x], from);
    RebuildUnfold(p, a, from);
    assert Rebuild(s, a + [x], from) == g + rep + (r + xr + rest);
    assert Rebuild(p, a, from) == g + rep + r;
    ConcatAssoc(g + rep, r + xr, rest);
    ConcatAssoc(g + rep, r, xr);
  }

  /** Concatenation is associative; stated once so that proofs can name the
      step instead of leaving the solver to find it. */
  lemma ConcatAssoc<T>(x: seq<T>, y: seq<T>, z: seq<T>)
    ensures x + y + z == x + (y + z)
  {
  }

  /** The empty sequence is a left unit of concatenation. */
  lemma EmptyConcat<T>(x: seq<T>)
    ensures [] + x == x
  {
  }

  lemma RebuildUnfold(s: string, a: seq<Span>, from: nat)
    requires a != []
    ensures Rebuild(s, a, from) == Slice(s, from, a[0].start) + a[0].replacement + Rebuild(s, a[1..], a[0].end)
  {
  }

  /** Dropping the first span of a chain leaves a chain that starts after it ends. */
  lemma AscChainTail(a: seq<Span>, from: nat, n: nat)
    requires AscChain(a, from, n) && a != []
    ensures AscChain(a[1..], a[0].end, n)
  {
    var tail := a[1..];
    forall i | 0 <= i < |tail|
      ensures a[0].end <= tail[i].start && InBounds(tail[i], n)
    {
      assert tail[i] == a[i + 1];
    }
    forall i, j | 0 <= i < j < |tail|
      ensures tail[i].end <= tail[j].start
    {
      assert tail[i] == a[i + 1] && tail[j] == a[j + 1];
    }
  }

  /** Right-to-left splicing of a chain equals the left-to-right rebuild over
      the same spans in ascending order. */
  lemma {:induction false} RightToLeftIsRebuild(s: string, d: seq<Span>)
    requires DescChain(d, |s|)
    ensures AscChain(Reverse(d), 0, |s|)
    ensures ApplyAll(s, d) == Rebuild(s, Reverse(d), 0)
    decreases |d|
  {
    ReverseOfDescChain(d, |s|);
    if d != [] {
      var x, rest := d[0], d[1..];
      var head, tail := s[..x.start], x.replacement + s[x.end..];
      DescChainTail(d, |s|);
      SpliceSplit(s, x);
      ApplyAllAppend(head, tail, rest);
      RightToLeftIsRebuild(head, rest);
      RebuildSnoc(s, Reverse(rest), x, 0);
      var r := Rebuild(head, Reverse(rest), 0);
      assert Reverse(d) == Reverse(rest) + [x];
      assert ApplyAll(s, d) == ApplyAll(head + tail, rest);
      assert ApplyAll(s, d) == r + (x.replacement + s[x.end..]);
      assert Rebuild(s, Reverse(d), 0) == r + x.replacement + s[x.end..];
      ConcatAssoc(r, x.replacement, s[x.end..]);
    }
  }

  /** The spans after the head of a chain all end before the head starts. */
  lemma DescChainTail(d: seq<Span>, n: nat)
    requires DescChain(d, n) && d != []
    ensures DescChain(d[1..], d[0].start)
  {
    var rest := d[1..];
    forall i | 0 <= i < |rest|
      ensures InBounds(rest[i], d[0].start)
    {
      assert rest[i] == d[i + 1];
    }
    forall i, j | 0 <= i < j < |rest|
      ensures rest[j].end <= rest[i].start
    {
      assert rest[i] == d[i + 1] && rest[j] == d[j + 1];
    }
  }

  lemma SpliceSplit(s: string, x: Span)
    requires x.start <= x.end <= |s|
    ensures Splice(s, x) == s[..x.start] + (x.replacement + s[x.end..])
  {
  }

  /** Inserting a span that overlaps none of a chain keeps it a chain. */
  lemma {:induction false} InsertKeepsChain(x: Span, t: seq<Span>, n: nat)
    requires DescChain(t, n) && InBounds(x, n)
    requires forall y :: y in t ==> Disjoint(x, y)
    ensures DescChain(Insert(x, t), n)
    decreases |t|
  {
    if t == [] || x.start >= t[0].start {
      // every span of t starts at or before x, so it ends before x starts
      forall j | 0 <= j < |t|
        ensures t[j].end <= x.start
      {
        assert t[j] in t;
      }
      ConsKeepsChain(x, t, n);
    } else {
      var t0 := t[0];
      assert t0 in t;
      DescChainRest(t, n);
      assert forall y :: y in t[1..] ==> y in t;
      InsertKeepsChain(x, t[1..], n);
      InsertEndsBefore(x, t[1..], t0.start);
      ConsKeepsChain(t0, Insert(x, t[1..]), n);
    }
  }

  /** The rest of a chain is a chain whose spans all end before its head starts. */
  lemma DescChainRest(t: seq<Span>, n: nat)
    requires DescChain(t, n) && t != []
    ensures DescChain(t[1..], n)
    ensures forall j :: 0 <= j < |t[1..]| ==> t[1..][j].end <= t[0].start
  {
    forall i, j | 0 <= i < j < |t[1..]|
      ensures t[1..][j].end <= t[1..][i].start
    {
      assert t[1..][i] == t[i + 1] && t[1..][j] == t[j + 1];
    }
    forall j | 0 <= j < |t[1..]|
      ensures t[1..][j].end <= t[0].start
    {
      assert t[1..][j] == t[j + 1];
    }
  }

  /** Insertion adds no span, so a bound on every end survives it. */
  lemma InsertEndsBefore(x: Span, u: seq<Span>, b: nat)
    requires SortedDesc(u)
    requires x.end <= b && forall j :: 0 <= j < |u| ==> u[j].end <= b
    ensures forall j :: 0 <= j < |Insert(x, u)| ==> Insert(x, u)[j].end <= b
  {
    var rest := Insert(x, u);
    forall j | 0 <= j < |rest|
      ensures rest[j].end <= b
    {
      assert rest[j] in multiset(rest);
      if rest[j] != x {
        assert rest[j] in multiset(u);
        var k :| 0 <= k < |u| && u[k] == rest[j];
      }
    }
  }

  /** A span that starts after every span of a chain ends can lead it. */
  lemma ConsKeepsChain(x: Span, t: seq<Span>, n: nat)
    requires DescChain(t, n) && InBounds(x, n)
    requires forall j :: 0 <= j < |t| ==> t[j].end <= x.start
    ensures DescChain([x] + t, n)
  {
    var r := [x] + t;
    forall i | 0 <= i < |r|
      ensures InBounds(r[i], n)
    {
      if i > 0 { assert r[i] == t[i - 1]; }
    }
    forall i, j | 0 <= i < j < |r|
      ensures r[j].end <= r[i].start
    {
      assert r[j] == t[j - 1];
      if i > 0 { assert r[i] == t[i - 1]; }
    }
  }

  /** Sorting pairwise disjoint spans by descending start yields a chain. */
  lemma {:induction false} SortSeparateIsChain(s: seq<Span>, n: nat)
    requires Separate(s, n)
    ensures DescChain(SortByStartDesc(s), n)
    decreases |s|
  {
    if s != [] {
      var tail := s[1..];
      assert Separate(tail, n) by {
        forall i, j | 0 <= i < j < |tail|
          ensures Disjoint(tail[i], tail[j])
        {
          assert tail[i] == s[i + 1] && tail[j] == s[j + 1];
        }
      }
      SortSeparateIsChain(tail, n);
      var sorted := SortByStartDesc(tail);
      forall y | y in sorted
        ensures Disjoint(s[0], y)
      {
        assert y in multiset(sorted);
        assert y in tail;
        var k :| 0 <= k < |tail| && tail[k] == y;
        assert s[k + 1] == y;
      }
      InsertKeepsChain(s[0], sorted, n);
    }
  }

  /** The guarantee the right-to-left order is there for: with pairwise
      disjoint, non-empty, in-bounds spans, sorting and splicing gives exactly
      the left-to-right rebuild, so every character outside the spans is copied
      from the original text in order and every span becomes its placeholder. */
  lemma CleanRedaction(s: string, spans: seq<Span>)
    requires Separate(spans, |s|)
    ensures AscChain(Reverse(SortByStartDesc(spans)), 0, |s|)
    ensures ApplyAll(s, SortByStartDesc(spans)) == Rebuild(s, Reverse(SortByStartDesc(spans)), 0)
  {
    SortSeparateIsChain(spans, |s|);
    RightToLeftIsRebuild(s, SortByStartDesc(spans));
  }

  /** As written, overlapping spans are not resolved: the second splice uses
      offsets of the original text on the already-rewritten text. Two identical
      DATE spans over "01/02/2020" drop the " o" that lies outside both. */
  lemma DuplicateSpanDropsText()
    ensures ApplyAll("on 01/02/2020 ok", [Span(3, 13, "{{DATE}}"), Span(3, 13, "{{DATE}}")])
         == "on {{DATE}}k"
  {
    var once := Splice("on 01/02/2020 ok", Span(3, 13, "{{DATE}}"));
    assert once == "on {{DATE}} ok";
    assert Splice(once, Span(3, 13, "{{DATE}}")) == "on {{DATE}}k";
  }

  /** Nested spans leak the text they were meant to hide. The recogniser's
      PERSON span over "Rao" is collected before the NAME_PREFIX match over
      the whole of "Ms. Rao Sharma"; the sort puts the inner span first, its
      placeholder lengthens the text, and the outer splice then keeps the
      tail from offset 14 of the rewritten text, which is " Sharma". */
  lemma NestedSpanLeaksText()
    ensures var spans := [Span(4, 7, "{{PERSON}}"), Span(0, 14, "{{NAME_PREFIX}}")];
            ApplyAll("Ms. Rao Sharma", SortByStartDesc(spans)) == "{{NAME_PREFIX}} Sharma"
  {
    NestedSortOrder(Span(4, 7, "{{PERSON}}"), Span(0, 14, "{{NAME_PREFIX}}"));
    NestedSplices();
  }

  lemma NestedSortOrder(inner: Span, outer: Span)
    requires outer.start < inner.start
    ensures SortByStartDesc([inner, outer]) == [inner, outer]
  {
    assert [inner, outer][1..] == [outer];
    assert SortByStartDesc([outer]) == [outer] by {
      assert [outer][1..] == [];
    }
  }

  lemma NestedSplices()
    ensures ApplyAll("Ms. Rao Sharma", [Span(4, 7, "{{PERSON}}"), Span(0, 14, "{{NAME_PREFIX}}")])
         == "{{NAME_PREFIX}} Sharma"
  {
    var inner, outer := Span(4, 7, "{{PERSON}}"), Span(0, 14, "{{NAME_PREFIX}}");
    var text := "Ms. Rao Sharma";
    var once := Splice(text, inner);
    assert once == "Ms. {{PERSON}} Sharma" by {
      assert Take(text, 4) == "Ms. ";
      assert Drop(text, 7) == " Sharma";
    }
    assert Splice(once, outer) == "{{NAME_PREFIX}} Sharma" by {
      assert Take(once, 0) == [];
      assert Drop(once, 14) == " Sharma";
    }
    assert [inner, outer][1..] == [outer];
    assert ApplyAll(text, [inner, outer]) == ApplyAll(once, [outer]);
    assert ApplyAll(once, [outer]) == ApplyAll(Splice(once, outer), []);
  }
}
