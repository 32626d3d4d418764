/**
  When the parts that `obtain_content_ranges` of `wsgidav/util.py` consolidates to are disjoint,
  and its total therefore the number of bytes asked for.
*/
module Consolidation {
  import opened Ranges

  /** Ranges of the file, in order. */
  predicate Proper(s: seq<Range>, size: nat) {
    Sorted(s) && forall i :: 0 <= i < |s| ==> Inside(s[i], size)
  }

  /** The range before a gap ends short of the next one, and an earlier range reaches over the gap. */
  predicate Bridges(s: seq<Range>, i: int, j: int) {
    0 <= i < j < |s| - 1 && s[j].last + 1 < s[j + 1].first && s[i].last + 1 >= s[j + 1].first
  }

  /** No gap between neighbours is bridged by an earlier range. */
  ghost predicate NoBridge(s: seq<Range>) {
    forall i, j :: !Bridges(s, i, j)
  }

  predicate Meets(a: Range, b: Range) {
    a.first <= b.last && b.first <= a.last
  }

  predicate Disjoint(parts: seq<Part>) {
    forall i, j :: 0 <= i < j < |parts| ==> !Meets(parts[i].range, parts[j].range)
  }

  // ---------------------------------------------------------------- one turn of the outer loop

  /** The inner loop over all of a list. */
  function Take(a: seq<Range>, r: Range): (Range, seq<Range>) {
    Absorb(a, r, |a|)
  }

  lemma {:induction false} AbsorbSuffix(a: seq<Range>, b: seq<Range>, r: Range)
    ensures var t, u := Absorb(a + b, r, |a|), Take(a, r);
            t == (u.0, u.1 + b)
    decreases |a|
  {
    if a != [] {
      var n := |a| - 1;
      var c, x := a[..n], a[n];
      assert a == c + [x];
      assert a + b == c + ([x] + b) && (a + b)[n] == x;
      if Apart(r, x) {
        AbsorbSuffix(c, [x] + b, r);
        AbsorbSuffix(c, [x], r);
        assert Take(c, r).1 + ([x] + b) == (Take(c, r).1 + [x]) + b;
      } else {
        assert (a + b)[..n] + (a + b)[n + 1..] == c + b;
        assert a[..n] + a[n + 1..] == c;
        AbsorbSuffix(c, b, Merge(r, x));
      }
    }
  }

  /** The last entry is passed over or taken in; then the others have their turn. */
  lemma TakeStep(a: seq<Range>, x: Range, r: Range)
    ensures Take(a + [x], r) == if Apart(r, x) then (Take(a, r).0, Take(a, r).1 + [x]) else Take(a, Merge(r, x))
  {
    var s := a + [x];
    assert s[|a|] == x && s[..|a|] == a && s[|a| + 1..] == [];
    if Apart(r, x) {
      AbsorbSuffix(a, [x], r);
    } else {
      assert s[..|a|] + s[|a| + 1..] == a;
    }
  }

  lemma ConsolidateTake(a: seq<Range>, r: Range)
    ensures var t := Take(a, r);
            Consolidate(a + [r]) == [Part(t.0, t.0.last - t.0.first + 1)] + Consolidate(t.1)
  {
    var s := a + [r];
    assert s[..|s| - 1] == a && s[|s| - 1] == r;
  }

  /** A list and the range popped off its end. */
  predicate Popped(a: seq<Range>, r: Range, size: nat) {
    Proper(a, size) && Inside(r, size) && forall i :: 0 <= i < |a| ==> a[i].first <= r.first
  }

  /** What stays is among what was there, in order; what is taken reaches at least as far as before. */
  lemma {:induction false} TakeSpec(a: seq<Range>, r: Range, size: nat)
    requires Popped(a, r, size)
    ensures var t := Take(a, r);
            && Proper(t.1, size) && Inside(t.0, size) && t.0.first <= r.first && r.last <= t.0.last
            && (forall e :: e in t.1 ==> e in a)
    decreases |a|
  {
    if a != [] {
      var c, x := a[..|a| - 1], a[|a| - 1];
      assert a == c + [x];
      PopNext(c, x, r, size);
      assert forall i :: 0 <= i < |c| ==> Before(c[i], x);
      TakeStep(c, x, r);
      if Apart(r, x) {
        TakeSpec(c, r, size);
        var rest := Take(c, r).1;
        forall i | 0 <= i < |rest| ensures Before(rest[i], x) { assert rest[i] in c; }
      } else {
        TakeSpec(c, Merge(r, x), size);
      }
    }
  }

  // ---------------------------------------------------------------- no bridge, then disjoint

  /** All of a list ends more than one short of a position. */
  predicate EndsBefore(a: seq<Range>, first: int) {
    forall i :: 0 <= i < |a| ==> a[i].last + 1 < first
  }

  lemma {:induction false} NothingTaken(a: seq<Range>, r: Range)
    requires EndsBefore(a, r.first)
    ensures Take(a, r) == (r, a)
    decreases |a|
  {
    if a != [] {
      var c, x := a[..|a| - 1], a[|a| - 1];
      assert a == c + [x];
      TakeStep(c, x, r);
      NothingTaken(c, r);
    }
  }

  lemma PrefixHasNoBridge(a: seq<Range>, b: seq<Range>)
    requires NoBridge(a + b)
    ensures NoBridge(a)
  {
    forall i, j ensures !Bridges(a, i, j) {
      assert !Bridges(a + b, i, j);
    }
  }

  /** Without a bridge, what stands before a gap ends before it. */
  lemma GapEndsAll(c: seq<Range>, x: Range)
    requires NoBridge(c + [x])
    ensures c != [] && c[|c| - 1].last + 1 < x.first ==> EndsBefore(c, x.first)
  {
    if c != [] && c[|c| - 1].last + 1 < x.first {
      forall i | 0 <= i < |c| ensures c[i].last + 1 < x.first {
        assert !Bridges(c + [x], i, |c| - 1);
      }
    }
  }

  lemma PopNext(c: seq<Range>, x: Range, r: Range, size: nat)
    requires Popped(c + [x], r, size)
    ensures Popped(c, r, size)
    ensures !Apart(r, x) ==> Popped(c, Merge(r, x), size) && Merge(r, x).first == x.first
  {
    var a := c + [x];
    assert a[|c|] == x && forall i :: 0 <= i < |c| ==> a[i] == c[i];
    assert forall i :: 0 <= i < |c| ==> Before(a[i], a[|c|]);
  }

  /** Without a bridge a turn takes what is joined to the popped range, and all that stays ends before it. */
  lemma {:induction false} TurnWithoutBridge(a: seq<Range>, r: Range, size: nat)
    requires Popped(a, r, size) && NoBridge(a)
    requires a != [] && a[|a| - 1].last + 1 < r.first ==> EndsBefore(a, r.first)
    ensures NoBridge(Take(a, r).1) && EndsBefore(Take(a, r).1, Take(a, r).0.first)
    decreases |a|
  {
    if a != [] {
      var c, x := a[..|a| - 1], a[|a| - 1];
      assert a == c + [x];
      if Apart(r, x) {
        NothingTaken(a, r);
      } else {
        TakeStep(c, x, r);
        PrefixHasNoBridge(c, [x]);
        GapEndsAll(c, x);
        PopNext(c, x, r, size);
        TurnWithoutBridge(c, Merge(r, x), size);
      }
    }
  }

  lemma {:induction false} NoBridgeIsDisjoint(s: seq<Range>, size: nat)
    requires Proper(s, size) && NoBridge(s)
    ensures Disjoint(Consolidate(s))
    decreases |s|
  {
    if s != [] {
      var a, r := s[..|s| - 1], s[|s| - 1];
      assert s == a + [r];
      forall i | 0 <= i < |a| ensures a[i].first <= r.first { assert Before(s[i], r); }
      PrefixHasNoBridge(a, [r]);
      GapEndsAll(a, r);
      TurnWithoutBridge(a, r, size);
      TakeSpec(a, r, size);
      ConsolidateTake(a, r);
      var t := Take(a, r);
      TakeShrinks(a, r);
      NoBridgeIsDisjoint(t.1, size);
      PartsEndBefore(t.1, t.0, size);
      DisjointCons(Part(t.0, t.0.last - t.0.first + 1), Consolidate(t.1));
    }
  }

  lemma {:induction false} PartsEndBefore(rest: seq<Range>, taken: Range, size: nat)
    requires Proper(rest, size) && EndsBefore(rest, taken.first)
    ensures forall j :: 0 <= j < |Consolidate(rest)| ==> !Meets(taken, Consolidate(rest)[j].range)
  {
    forall j | 0 <= j < |Consolidate(rest)| ensures !Meets(taken, Consolidate(rest)[j].range) {
      PartEnds(rest, size, j);
    }
  }

  lemma TakeShrinks(a: seq<Range>, r: Range)
    ensures |Take(a, r).1| <= |a|
  {
  }

  lemma DisjointCons(p: Part, rest: seq<Part>)
    ensures Disjoint([p] + rest) <==> Disjoint(rest) && forall j :: 0 <= j < |rest| ==> !Meets(p.range, rest[j].range)
  {
    var all := [p] + rest;
    if Disjoint(all) {
      forall i, j | 0 <= i < j < |rest| ensures !Meets(rest[i].range, rest[j].range) {
        assert all[i + 1] == rest[i] && all[j + 1] == rest[j];
      }
      forall j | 0 <= j < |rest| ensures !Meets(p.range, rest[j].range) { assert all[0] == p && all[j + 1] == rest[j]; }
    }
    if Disjoint(rest) && forall j :: 0 <= j < |rest| ==> !Meets(p.range, rest[j].range) {
      forall i, j | 0 <= i < j < |all| ensures !Meets(all[i].range, all[j].range) {
        assert all[j] == rest[j - 1];
        if i > 0 { assert all[i] == rest[i - 1]; }
      }
    }
  }

  /** A part ends where one of the ranges ends. */
  lemma {:induction false} PartEnds(s: seq<Range>, size: nat, j: nat)
    requires Proper(s, size) && j < |Consolidate(s)|
    ensures var p := Consolidate(s)[j].range; exists i :: 0 <= i < |s| && s[i].last == p.last
    decreases |s|
  {
    var a, r := s[..|s| - 1], s[|s| - 1];
    assert s == a + [r];
    forall i | 0 <= i < |a| ensures a[i].first <= r.first { assert Before(s[i], r); }
    ConsolidateTake(a, r);
    TakeSpec(a, r, size);
    TakeShrinks(a, r);
    var t := Take(a, r);
    if j == 0 {
      TakeEnds(a, r, size);
    } else {
      PartEnds(t.1, size, j - 1);
      var i :| 0 <= i < |t.1| && t.1[i].last == Consolidate(t.1)[j - 1].range.last;
      assert t.1[i] in a;
      var k :| 0 <= k < |a| && a[k] == t.1[i];
      assert s[k] == a[k];
    }
  }

  lemma {:induction false} TakeEnds(a: seq<Range>, r: Range, size: nat)
    requires Popped(a, r, size)
    ensures exists i :: 0 <= i <= |a| && Take(a, r).0.last == (a + [r])[i].last
    decreases |a|
  {
    if a == [] {
      assert (a + [r])[0] == r;
    } else {
      var c, x := a[..|a| - 1], a[|a| - 1];
      assert a == c + [x];
      TakeStep(c, x, r);
      var q := if Apart(r, x) then r else Merge(r, x);
      TakeEnds(c, q, size);
      var i :| 0 <= i <= |c| && Take(c, q).0.last == (c + [q])[i].last;
      if i < |c| {
        assert (a + [r])[i] == c[i];
      } else {
        assert (a + [r])[|a|] == r && (a + [r])[|c|] == x;
      }
    }
  }

  // ---------------------------------------------------------------- a bridge, then an overlap

  /** A range that stays starts inside the part taken. */
  predicate Swallows(t: (Range, seq<Range>)) {
    exists k :: 0 <= k < |t.1| && t.0.first <= t.1[k].first <= t.0.last
  }

  /** A range that reaches the popped one is taken in. */
  lemma {:induction false} ReachingIsTaken(a: seq<Range>, r: Range, size: nat, i: nat)
    requires Popped(a, r, size) && i < |a| && a[i].last >= r.first - 1
    ensures Take(a, r).0.first <= a[i].first && a[i].last <= Take(a, r).0.last
    decreases |a|
  {
    var c, x := a[..|a| - 1], a[|a| - 1];
    assert a == c + [x];
    TakeStep(c, x, r);
    var q := if Apart(r, x) then r else Merge(r, x);
    if i < |c| {
      ReachingIsTaken(c, q, size, i);
    } else {
      TakeSpec(c, q, size);
    }
  }

  /** The last range ends short of the popped one, an earlier one does not: the last stays inside what is taken. */
  lemma BridgeSwallows(a: seq<Range>, r: Range, size: nat, i: nat)
    requires Popped(a, r, size) && i < |a| - 1 && a[|a| - 1].last + 1 < r.first && a[i].last + 1 >= r.first
    ensures Swallows(Take(a, r))
  {
    var c, x := a[..|a| - 1], a[|a| - 1];
    assert a == c + [x];
    TakeStep(c, x, r);
    ReachingIsTaken(c, r, size, i);
    assert Before(a[i], x);
    assert Take(a, r).1[|Take(c, r).1|] == x;
  }

  lemma {:induction false} NothingOrLower(a: seq<Range>, r: Range, size: nat)
    requires Popped(a, r, size)
    ensures Take(a, r) == (r, a) || exists k :: 0 <= k < |a| && Take(a, r).0.first <= a[k].first
    decreases |a|
  {
    if a != [] {
      var c, x := a[..|a| - 1], a[|a| - 1];
      assert a == c + [x];
      TakeStep(c, x, r);
      if Apart(r, x) {
        NothingOrLower(c, r, size);
        if Take(c, r) != (r, c) {
          var k :| 0 <= k < |c| && Take(c, r).0.first <= c[k].first;
          assert a[k] == c[k];
        }
      } else {
        TakeSpec(c, Merge(r, x), size);
        assert Take(a, r).0.first <= a[|c|].first;
      }
    }
  }

  lemma KeepsMore(t: (Range, seq<Range>), x: Range)
    ensures Swallows(t) ==> Swallows((t.0, t.1 + [x]))
    ensures !NoBridge(t.1) ==> !NoBridge(t.1 + [x])
  {
    if Swallows(t) {
      var k :| 0 <= k < |t.1| && t.0.first <= t.1[k].first <= t.0.last;
      assert (t.1 + [x])[k] == t.1[k];
    }
    if NoBridge(t.1 + [x]) { PrefixHasNoBridge(t.1, [x]); }
  }

  /** The gap stands just before the popped range's neighbour, which stays. */
  lemma LastGapStays(a: seq<Range>, r: Range, size: nat, i: nat)
    requires Popped(a, r, size) && Bridges(a, i, |a| - 2) && Apart(r, a[|a| - 1])
    ensures Swallows(Take(a, r)) || !NoBridge(Take(a, r).1)
  {
    var n := |a| - 2;
    var d, y, x := a[..n], a[n], a[n + 1];
    assert a[..n + 1] == d + [y] && a == (d + [y]) + [x];
    assert Before(y, x) && Apart(r, y);
    TakeStep(d + [y], x, r);
    TakeStep(d, y, r);
    var t := Take(a, r);
    assert t.1 == Take(d, r).1 + [y] + [x];
    NothingOrLower(d, r, size);
    TakeSpec(d, r, size);
    if Take(d, r) == (r, d) {
      assert t.1 == a;
    } else {
      var k :| 0 <= k < |d| && t.0.first <= d[k].first;
      assert Before(a[k], y);
      assert t.1[|Take(d, r).1|] == y;
    }
  }

  /** A bridge ends in an overlap at once or stays for a later turn. */
  lemma {:induction false} BridgeShows(a: seq<Range>, r: Range, size: nat, i: nat, j: nat)
    requires Popped(a, r, size) && Bridges(a, i, j)
    ensures Swallows(Take(a, r)) || !NoBridge(Take(a, r).1)
    decreases |a|
  {
    var c, x := a[..|a| - 1], a[|a| - 1];
    assert a == c + [x];
    TakeStep(c, x, r);
    var q := if Apart(r, x) then r else Merge(r, x);
    if j + 1 < |c| {
      assert Bridges(c, i, j);
      BridgeShows(c, q, size, i, j);
      KeepsMore(Take(c, q), x);
    } else if Apart(r, x) {
      LastGapStays(a, r, size, i);
    } else {
      BridgeSwallows(c, q, size, i);
    }
  }

  lemma {:induction false} BridgeIsNotDisjoint(s: seq<Range>, size: nat, i: nat, j: nat)
    requires Proper(s, size) && Bridges(s, i, j)
    ensures !Disjoint(Consolidate(s))
    decreases |s|
  {
    var a, r := s[..|s| - 1], s[|s| - 1];
    assert s == a + [r];
    forall k | 0 <= k < |a| ensures a[k].first <= r.first { assert Before(s[k], r); }
    if j == |a| - 1 {
      BridgeSwallows(a, r, size, i);
    } else {
      assert Bridges(a, i, j);
      BridgeShows(a, r, size, i, j);
    }
    TakeSpec(a, r, size);
    TakeShrinks(a, r);
    ConsolidateTake(a, r);
    var t := Take(a, r);
    var p, rest := Part(t.0, t.0.last - t.0.first + 1), Consolidate(t.1);
    DisjointCons(p, rest);
    if Swallows(t) {
      SwallowedMeets(t, size);
    } else {
      var i', j' :| Bridges(t.1, i', j');
      BridgeIsNotDisjoint(t.1, size, i', j');
    }
  }

  lemma SwallowedMeets(t: (Range, seq<Range>), size: nat)
    requires Proper(t.1, size) && Inside(t.0, size) && Swallows(t)
    ensures exists j :: 0 <= j < |Consolidate(t.1)| && Meets(t.0, Consolidate(t.1)[j].range)
  {
    var k :| 0 <= k < |t.1| && t.0.first <= t.1[k].first <= t.0.last;
    var x, rest := t.1[k].first, Consolidate(t.1);
    assert Inside(t.1[k], size);
    assert Covers(t.1, x);
    ConsolidateSpec(t.1, size, x);
    var j :| 0 <= j < |RangesIn(rest)| && RangesIn(rest)[j].first <= x <= RangesIn(rest)[j].last;
    assert Meets(t.0, rest[j].range);
  }

  /** The parts are disjoint exactly if no gap between neighbours is bridged by an earlier range. */
  lemma DisjointIff(s: seq<Range>, size: nat)
    requires Proper(s, size)
    ensures Disjoint(Consolidate(s)) <==> NoBridge(s)
  {
    if NoBridge(s) {
      NoBridgeIsDisjoint(s, size);
    } else {
      var i, j :| Bridges(s, i, j);
      BridgeIsNotDisjoint(s, size, i, j);
    }
  }

  // ---------------------------------------------------------------- the total

  predicate Within(r: Range, x: int) {
    r.first <= x <= r.last
  }

  function Span(r: Range): set<int> {
    set x | r.first <= x <= r.last && Within(r, x)
  }

  lemma {:induction false} SpanSize(r: Range)
    requires r.first <= r.last + 1
    ensures |Span(r)| == r.last - r.first + 1
    decreases r.last - r.first + 1
  {
    if r.first <= r.last {
      var s := Range(r.first, r.last - 1);
      SpanSize(s);
      assert Span(r) == Span(s) + {r.last};
    } else {
      assert Span(r) == {};
    }
  }

  /** The byte positions in the parts. */
  function Positions(parts: seq<Part>, size: nat): set<int> {
    set x | 0 <= x < size && Covers(RangesIn(parts), x)
  }

  lemma PositionsSnoc(q: seq<Part>, p: Part, size: nat)
    requires Sound(p, size)
    ensures Positions(q + [p], size) == Positions(q, size) + Span(p.range)
  {
    assert RangesIn(q + [p]) == RangesIn(q) + [p.range];
    forall x ensures x in Positions(q + [p], size) <==> x in Positions(q, size) + Span(p.range) {
      CoversConcat(RangesIn(q), [p.range], x);
      CoversOne(p.range, x);
    }
  }

  lemma DisjointSnoc(q: seq<Part>, p: Part)
    ensures Disjoint(q + [p]) <==> Disjoint(q) && forall i :: 0 <= i < |q| ==> !Meets(q[i].range, p.range)
  {
    var all := q + [p];
    assert all[|q|] == p && forall i :: 0 <= i < |q| ==> all[i] == q[i];
  }

  lemma CommonPosition(q: seq<Part>, p: Part, size: nat)
    requires Sound(p, size) && forall i :: 0 <= i < |q| ==> Sound(q[i], size)
    ensures Positions(q, size) * Span(p.range) == {} <==> forall i :: 0 <= i < |q| ==> !Meets(q[i].range, p.range)
  {
    if x :| x in Positions(q, size) * Span(p.range) {
      var i :| 0 <= i < |RangesIn(q)| && RangesIn(q)[i].first <= x <= RangesIn(q)[i].last;
      assert Meets(q[i].range, p.range);
    }
    if i :| 0 <= i < |q| && Meets(q[i].range, p.range) {
      var x := Max(q[i].range.first, p.range.first);
      assert RangesIn(q)[i] == q[i].range;
      assert x in Positions(q, size) * Span(p.range);
    }
  }

  /** The total counts every position once exactly if the parts are disjoint, and never counts too little. */
  lemma {:induction false} TotalCounts(parts: seq<Part>, size: nat)
    requires forall i :: 0 <= i < |parts| ==> Sound(parts[i], size)
    ensures |Positions(parts, size)| <= TotalOf(parts)
    ensures |Positions(parts, size)| == TotalOf(parts) <==> Disjoint(parts)
  {
    if parts == [] {
      assert Positions(parts, size) == {};
    } else {
      var q, p := parts[..|parts| - 1], parts[|parts| - 1];
      assert parts == q + [p];
      TotalCounts(q, size);
      PositionsSnoc(q, p, size);
      SpanSize(p.range);
      DisjointSnoc(q, p);
      CommonPosition(q, p, size);
      var a, b := Positions(q, size), Span(p.range);
      assert |a + b| + |a * b| == |a| + |b|;
    }
  }

  /** Of sorted ranges, the total is the number of positions exactly if there is no bridge. */
  lemma TotalIsCountIff(s: seq<Range>, size: nat)
    requires Proper(s, size)
    ensures |Positions(Consolidate(s), size)| == TotalOf(Consolidate(s)) <==> NoBridge(s)
  {
    var parts := Consolidate(s);
    ConsolidateSpec(s, size, 0);
    TotalCounts(parts, size);
    DisjointIff(s, size);
  }

  /** And those positions are the bytes asked for. */
  lemma PositionsAsked(specs: seq<Specifier>, size: nat)
    requires !SomeUnsatisfiable(specs, size)
    ensures Positions(Consolidate(Sort(RangesOf(specs, size))), size) == set x | 0 <= x < size && SomeAsks(specs, size, x)
  {
    forall x { PartsCover(specs, size, x); }
  }

  /** The total of a request is the number of bytes asked for exactly if its sorted ranges have no bridge. */
  lemma {:induction false} RequestTotalIff(specs: seq<Specifier>, size: nat)
    requires !SomeUnsatisfiable(specs, size)
    ensures var s := Sort(RangesOf(specs, size));
            |(set x | 0 <= x < size && SomeAsks(specs, size, x))| == TotalOf(Consolidate(s)) <==> NoBridge(s)
  {
    SortedRanges(specs, size, 0);
    TotalIsCountIff(Sort(RangesOf(specs, size)), size);
    PositionsAsked(specs, size);
  }
}
