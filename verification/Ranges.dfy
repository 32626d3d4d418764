/**
  Byte ranges (section 2.1 of RFC 7233): `obtain_content_ranges` of `wsgidav/util.py` from the
  parsed specifiers on.
*/
module Ranges {
  import opened Wrappers

  /** What the regular expressions find in one specifier: "first-", "first-last", "-count", or nothing. */
  datatype Specifier = From(first: nat) | FromTo(first: nat, last: nat) | Suffix(count: nat) | Neither

  /** First and last byte position. */
  datatype Range = Range(first: int, last: int)

  datatype Part = Part(range: Range, length: int)

  function Min(a: int, b: int): int { if a < b then a else b }

  function Max(a: int, b: int): int { if a < b then b else a }

  function SuffixRange(count: nat, size: nat): Range {
    Range(Max(size - count, 0), size - 1)
  }

  // ---------------------------------------------------------------- what is asked for

  predicate Unsatisfiable(s: Specifier, size: nat) {
    (s.From? || s.FromTo?) && s.first >= size
  }

  /**
    Whether a specifier asks for a byte position. A "first-last" with first > last is read by
    the second regular expression as the suffix "-last".
  */
  predicate Asks(s: Specifier, size: nat, x: int) {
    match s
    case From(f) => f <= x < size
    case FromTo(f, l) => if f <= l then f <= x <= l && x < size else 0 <= x && size - l <= x < size
    case Suffix(n) => 0 <= x && size - n <= x < size
    case Neither => false
  }

  /** The positions a specifier names as it is written. */
  predicate Names(s: Specifier, size: nat, x: int) {
    match s
    case From(f) => f <= x < size
    case FromTo(f, l) => f <= x <= l && x < size
    case Suffix(n) => 0 <= x && size - n <= x < size
    case Neither => false
  }

  predicate InOrder(s: Specifier) {
    s.FromTo? ==> s.first <= s.last || s.last == 0
  }

  /** A specifier is read as it is written exactly if its positions are in order, or the second is 0. */
  lemma {:induction false} ReadAsWrittenIff(s: Specifier, size: nat)
    requires !Unsatisfiable(s, size)
    ensures (forall x :: Asks(s, size, x) <==> Names(s, size, x)) <==> InOrder(s)
  {
    assert s.FromTo? && s.first > s.last > 0 ==> Asks(s, size, size - 1) && !Names(s, size, size - 1);
  }

  /** The positions each kind of specifier asks for. */
  lemma {:induction false} AskedPositions(f: nat, l: nat, n: nat, size: nat, x: int)
    ensures Asks(From(f), size, x) <==> f <= x < size
    ensures f <= l ==> (Asks(FromTo(f, l), size, x) <==> f <= x <= l && x < size)
    ensures f > l ==> (Asks(FromTo(f, l), size, x) <==> Asks(Suffix(l), size, x))
    ensures Asks(Suffix(n), size, x) <==> 0 <= x && size - n <= x < size
    ensures !Asks(Neither, size, x)
  {
  }

  /** Answered 416: a request in which some first position lies behind the file. */
  lemma {:induction false} UnsatisfiableIff(specs: seq<Specifier>, size: nat)
    ensures SomeUnsatisfiable(specs, size) <==>
              exists i, f :: 0 <= i < |specs| && f >= size && (specs[i] == From(f) || (specs[i].FromTo? && specs[i].first == f))
  {
    if i :| 0 <= i < |specs| && Unsatisfiable(specs[i], size) {
      assert specs[i].first >= size && (specs[i] == From(specs[i].first) || (specs[i].FromTo? && specs[i].first == specs[i].first));
    }
    if i, f :| 0 <= i < |specs| && f >= size && (specs[i] == From(f) || (specs[i].FromTo? && specs[i].first == f)) {
      assert Unsatisfiable(specs[i], size);
    }
  }

  predicate SomeNames(specs: seq<Specifier>, size: nat, x: int) {
    exists i :: 0 <= i < |specs| && Names(specs[i], size, x)
  }

  lemma {:induction false} AllInOrder(specs: seq<Specifier>, size: nat, x: int)
    requires !SomeUnsatisfiable(specs, size) && forall i :: 0 <= i < |specs| ==> InOrder(specs[i])
    ensures SomeAsks(specs, size, x) <==> SomeNames(specs, size, x)
  {
    forall i | 0 <= i < |specs| ensures Asks(specs[i], size, x) <==> Names(specs[i], size, x) {
      ReadAsWrittenIff(specs[i], size);
    }
  }

  /** "5-3" of ten bytes asks for the last three. */
  lemma ReversedRangeIsSuffix()
    ensures forall x :: Asks(FromTo(5, 3), 10, x) <==> 7 <= x < 10
  {
  }

  predicate Covers(ranges: seq<Range>, x: int) {
    exists i :: 0 <= i < |ranges| && ranges[i].first <= x <= ranges[i].last
  }

  /** A range of the file, possibly the empty one at its end. */
  predicate Inside(r: Range, size: nat) {
    0 <= r.first <= r.last + 1 <= size && (r.first <= r.last || r.first == size)
  }

  predicate IsEmpty(r: Range) {
    r.first > r.last
  }

  function RangeOf(s: Specifier, size: nat): Option<Range> {
    match s
    case From(f) => Some(Range(f, size - 1))
    case FromTo(f, l) => if f <= l then Some(Range(f, Min(l, size - 1))) else Some(SuffixRange(l, size))
    case Suffix(n) => Some(SuffixRange(n, size))
    case Neither => None
  }

  function RangesOf(specs: seq<Specifier>, size: nat): seq<Range> {
    if specs == [] then []
    else RangesOf(specs[..|specs| - 1], size)
         + match RangeOf(specs[|specs| - 1], size) case None => [] case Some(r) => [r]
  }

  lemma CoversConcat(a: seq<Range>, b: seq<Range>, x: int)
    ensures Covers(a + b, x) <==> Covers(a, x) || Covers(b, x)
  {
    if Covers(a, x) {
      var i :| 0 <= i < |a| && a[i].first <= x <= a[i].last;
      assert (a + b)[i] == a[i];
    }
    if Covers(b, x) {
      var i :| 0 <= i < |b| && b[i].first <= x <= b[i].last;
      assert (a + b)[|a| + i] == b[i];
    }
  }

  predicate SomeAsks(specs: seq<Specifier>, size: nat, x: int) {
    exists i :: 0 <= i < |specs| && Asks(specs[i], size, x)
  }

  lemma SomeAsksSnoc(specs: seq<Specifier>, size: nat, x: int)
    requires specs != []
    ensures var n := |specs| - 1; SomeAsks(specs, size, x) <==> SomeAsks(specs[..n], size, x) || Asks(specs[n], size, x)
  {
  }

  lemma RangeOfAsks(s: Specifier, size: nat, x: int)
    requires !Unsatisfiable(s, size)
    ensures match RangeOf(s, size)
            case None => !Asks(s, size, x)
            case Some(r) => Inside(r, size) && (Asks(s, size, x) <==> Covers([r], x))
  {
    if RangeOf(s, size).Some? { CoversOne(RangeOf(s, size).value, x); }
  }

  lemma {:induction false} RangesOfSpec(specs: seq<Specifier>, size: nat, x: int)
    requires forall i :: 0 <= i < |specs| ==> !Unsatisfiable(specs[i], size)
    ensures Covers(RangesOf(specs, size), x) <==> SomeAsks(specs, size, x)
    ensures forall i :: 0 <= i < |RangesOf(specs, size)| ==> Inside(RangesOf(specs, size)[i], size)
  {
    if specs != [] {
      var n := |specs| - 1;
      RangesOfSpec(specs[..n], size, x);
      var own := match RangeOf(specs[n], size) case None => [] case Some(r) => [r];
      CoversConcat(RangesOf(specs[..n], size), own, x);
      RangeOfAsks(specs[n], size, x);
      SomeAsksSnoc(specs, size, x);
    }
  }

  lemma CoversOne(r: Range, x: int)
    ensures Covers([r], x) <==> r.first <= x <= r.last
  {
    assert [r][0] == r;
  }

  // ---------------------------------------------------------------- sorting

  predicate Before(a: Range, b: Range) {
    a.first < b.first || (a.first == b.first && a.last <= b.last)
  }

  predicate Sorted(s: seq<Range>) {
    forall i, j :: 0 <= i < j < |s| ==> Before(s[i], s[j])
  }

  function Insert(r: Range, s: seq<Range>): (t: seq<Range>)
    ensures multiset(t) == multiset(s) + multiset{r}
  {
    if s == [] then [r]
    else if Before(s[|s| - 1], r) then s + [r]
    else
      assert s == s[..|s| - 1] + [s[|s| - 1]];
      Insert(r, s[..|s| - 1]) + [s[|s| - 1]]
  }

  /** `list_ranges.sort()` */
  function Sort(s: seq<Range>): (t: seq<Range>)
    ensures multiset(t) == multiset(s)
  {
    if s == [] then []
    else
      assert s == s[..|s| - 1] + [s[|s| - 1]];
      Insert(s[|s| - 1], Sort(s[..|s| - 1]))
  }

  lemma {:induction false} InsertSorted(r: Range, s: seq<Range>)
    requires Sorted(s)
    ensures Sorted(Insert(r, s))
  {
    if s != [] && !Before(s[|s| - 1], r) {
      var t, m := Insert(r, s[..|s| - 1]), s[|s| - 1];
      InsertSorted(r, s[..|s| - 1]);
      forall i | 0 <= i < |t| ensures Before(t[i], m) {
        assert t[i] in multiset(t);
        assert t[i] in multiset(s[..|s| - 1]) || t[i] == r;
      }
    }
  }

  lemma {:induction false} SortSorted(s: seq<Range>)
    ensures Sorted(Sort(s))
  {
    if s != [] {
      SortSorted(s[..|s| - 1]);
      InsertSorted(s[|s| - 1], Sort(s[..|s| - 1]));
    }
  }

  lemma SameCover(s: seq<Range>, t: seq<Range>, x: int)
    requires multiset(s) == multiset(t)
    ensures Covers(s, x) ==> Covers(t, x)
  {
    if Covers(s, x) {
      var i :| 0 <= i < |s| && s[i].first <= x <= s[i].last;
      assert s[i] in multiset(t);
      var j :| 0 <= j < |t| && t[j] == s[i];
    }
  }

  // ---------------------------------------------------------------- consolidation

  /** The test of the inner loop, as it is written. */
  predicate Apart(r: Range, n: Range) {
    n.last < r.first - 1 || n.first > n.last + 1
  }

  function Merge(r: Range, n: Range): Range {
    Range(Min(r.first, n.first), Max(r.last, n.last))
  }

  /** The inner loop over the entries before `counter`. */
  function Absorb(s: seq<Range>, r: Range, counter: nat): (t: (Range, seq<Range>))
    requires counter <= |s|
    ensures |t.1| <= |s|
    decreases counter
  {
    if counter == 0 then (r, s)
    else if Apart(r, s[counter - 1]) then Absorb(s, r, counter - 1)
    else Absorb(s[..counter - 1] + s[counter..], Merge(r, s[counter - 1]), counter - 1)
  }

  /** The outer loop: the last entry with all it absorbs, then the rest. */
  function Consolidate(s: seq<Range>): seq<Part>
    decreases |s|
  {
    if s == [] then []
    else
      var t := Absorb(s[..|s| - 1], s[|s| - 1], |s| - 1);
      [Part(t.0, t.0.last - t.0.first + 1)] + Consolidate(t.1)
  }

  /** A range of the file with its true length. */
  predicate Sound(p: Part, size: nat) {
    Inside(p.range, size) && p.length == p.range.last - p.range.first + 1
  }

  function RangesIn(parts: seq<Part>): seq<Range> {
    seq(|parts|, i requires 0 <= i < |parts| => parts[i].range)
  }

  function TotalOf(parts: seq<Part>): int {
    if parts == [] then 0 else TotalOf(parts[..|parts| - 1]) + parts[|parts| - 1].length
  }

  /** All entries before `counter` start no later than `r`; everything is a range of the file. */
  predicate Ready(s: seq<Range>, r: Range, counter: nat, size: nat) {
    && counter <= |s| && Sorted(s) && Inside(r, size) && (forall i :: 0 <= i < |s| ==> Inside(s[i], size))
    && (forall i :: 0 <= i < counter ==> s[i].first <= r.first && (s[i].first == r.first ==> s[i].last <= r.last))
  }

  lemma Removed(s: seq<Range>, k: nat, x: int)
    requires k < |s|
    ensures Covers(s, x) <==> Covers(s[..k] + s[k + 1..], x) || s[k].first <= x <= s[k].last
    ensures Sorted(s) ==> Sorted(s[..k] + s[k + 1..])
  {
    assert s == s[..k] + ([s[k]] + s[k + 1..]);
    CoversConcat(s[..k], [s[k]] + s[k + 1..], x);
    CoversConcat([s[k]], s[k + 1..], x);
    CoversConcat(s[..k], s[k + 1..], x);
    assert Covers([s[k]], x) <==> s[k].first <= x <= s[k].last by {
      if s[k].first <= x <= s[k].last { assert [s[k]][0] == s[k]; }
    }
  }

  /** A merge covers what both did, and nothing else. */
  lemma MergeCovers(r: Range, n: Range, size: nat, x: int)
    requires Inside(r, size) && Inside(n, size) && n.first <= r.first && !Apart(r, n)
    ensures Inside(Merge(r, n), size)
    ensures Merge(r, n).first <= x <= Merge(r, n).last <==> r.first <= x <= r.last || n.first <= x <= n.last
  {
  }

  lemma MergeReady(s: seq<Range>, r: Range, counter: nat, size: nat)
    requires 0 < counter && Ready(s, r, counter, size) && !Apart(r, s[counter - 1])
    ensures Ready(s[..counter - 1] + s[counter..], Merge(r, s[counter - 1]), counter - 1, size)
  {
  }

  /** The inner loop keeps the positions covered, and takes in all that reaches up to the last position. */
  lemma {:induction false} AbsorbSpec(s: seq<Range>, r: Range, counter: nat, size: nat, x: int)
    requires Ready(s, r, counter, size)
    ensures var t := Absorb(s, r, counter);
            && Ready(t.1, t.0, 0, size) && r.last <= t.0.last
            && (Covers([t.0] + t.1, x) <==> Covers([r] + s, x))
    decreases counter
  {
    if counter > 0 {
      var n := s[counter - 1];
      if Apart(r, n) {
        AbsorbSpec(s, r, counter - 1, size, x);
      } else {
        var rest := s[..counter - 1] + s[counter..];
        MergeReady(s, r, counter, size);
        AbsorbSpec(rest, Merge(r, n), counter - 1, size, x);
        assert n.first <= r.first;
        MergeCovers(r, n, size, x);
        Removed(s, counter - 1, x);
        CoversConcat([Merge(r, n)], rest, x);
        CoversConcat([r], s, x);
        CoversOne(r, x);
        CoversOne(Merge(r, n), x);
      }
    }
  }

  lemma RangesInCons(p: Part, rest: seq<Part>)
    ensures RangesIn([p] + rest) == [p.range] + RangesIn(rest)
  {
  }

  /** Consolidation keeps the positions covered, every range in the file, and every length true. */
  lemma {:induction false} ConsolidateSpec(s: seq<Range>, size: nat, x: int)
    requires Sorted(s) && forall i :: 0 <= i < |s| ==> Inside(s[i], size)
    ensures Covers(RangesIn(Consolidate(s)), x) <==> Covers(s, x)
    ensures forall i :: 0 <= i < |Consolidate(s)| ==> Sound(Consolidate(s)[i], size)
    decreases |s|
  {
    if s != [] {
      var n := |s| - 1;
      var t := Absorb(s[..n], s[n], n);
      assert Ready(s[..n], s[n], n, size);
      AbsorbSpec(s[..n], s[n], n, size, x);
      ConsolidateSpec(t.1, size, x);
      assert s == s[..n] + [s[n]];
      CoversTurn(s[..n], s[n], t.0, t.1, RangesIn(Consolidate(t.1)), x);
      RangesInCons(Part(t.0, t.0.last - t.0.first + 1), Consolidate(t.1));
    }
  }

  /** What one turn of the outer loop covers. */
  lemma CoversTurn(a: seq<Range>, r: Range, taken: Range, rest: seq<Range>, parts: seq<Range>, x: int)
    requires Covers([taken] + rest, x) <==> Covers([r] + a, x)
    requires Covers(parts, x) <==> Covers(rest, x)
    ensures Covers([taken] + parts, x) <==> Covers(a + [r], x)
  {
    CoversConcat([taken], rest, x);
    CoversConcat([r], a, x);
    CoversConcat([taken], parts, x);
    CoversConcat(a, [r], x);
  }

  lemma {:induction false} AbsorbReaches(s: seq<Range>, r: Range, counter: nat, size: nat)
    requires Ready(s, r, counter, size)
    ensures r.last <= Absorb(s, r, counter).0.last && Absorb(s, r, counter).0.first <= r.first
    ensures forall i :: 0 <= i < counter ==> s[i].last <= Absorb(s, r, counter).0.last
    decreases counter
  {
    if counter > 0 {
      var n := s[counter - 1];
      assert Inside(n, size);
      if Apart(r, n) {
        AbsorbReaches(s, r, counter - 1, size);
      } else {
        var rest := s[..counter - 1] + s[counter..];
        MergeReady(s, r, counter, size);
        AbsorbReaches(rest, Merge(r, n), counter - 1, size);
        assert forall i :: 0 <= i < counter - 1 ==> rest[i] == s[i];
      }
    }
  }

  lemma {:induction false} FirstPart(s: seq<Range>)
    requires s != []
    ensures Consolidate(s) != [] && Consolidate(s)[0].range == Absorb(s[..|s| - 1], s[|s| - 1], |s| - 1).0
  {
  }

  /**
    The part that is served, the first one, holds the range that starts last and ends with the last
    position asked for.
  */
  lemma {:induction false} ServedPartIsTheLast(s: seq<Range>, size: nat, served: Range)
    requires s != [] && Sorted(s) && forall i :: 0 <= i < |s| ==> Inside(s[i], size)
    requires Consolidate(s) != [] && served == Consolidate(s)[0].range
    ensures served.first <= s[|s| - 1].first
    ensures forall i :: 0 <= i < |s| ==> s[i].last <= served.last
  {
    var n := |s| - 1;
    var a, r := s[..n], s[n];
    FirstPart(s);
    PrefixReady(s, size);
    AbsorbReaches(a, r, n, size);
    assert forall i :: 0 <= i < n ==> a[i] == s[i];
  }

  /** Once the end of the file is reached, whatever ends there is taken in. */
  lemma {:induction false} EndIsTaken(s: seq<Range>, r: Range, counter: nat, size: nat)
    requires Ready(s, r, counter, size) && r.last == size - 1
    requires r.first <= r.last || exists i :: 0 <= i < counter && s[i].first <= s[i].last == size - 1
    ensures Absorb(s, r, counter).0.first <= Absorb(s, r, counter).0.last
    decreases counter
  {
    if r.first <= r.last {
      AbsorbReaches(s, r, counter, size);
    } else {
      var n := s[counter - 1];
      assert Inside(n, size);
      if Apart(r, n) {
        EndIsTaken(s, r, counter - 1, size);
      } else {
        var rest := s[..counter - 1] + s[counter..];
        MergeReady(s, r, counter, size);
        assert forall i :: 0 <= i < counter - 1 ==> rest[i] == s[i];
        EndIsTaken(rest, Merge(r, n), counter - 1, size);
      }
    }
  }

  lemma {:induction false} EmptyStays(s: seq<Range>, r: Range, counter: nat, size: nat)
    requires Ready(s, r, counter, size) && r == Range(size, size - 1)
    requires forall i :: 0 <= i < counter ==> s[i].first <= s[i].last ==> s[i].last < size - 1
    ensures Absorb(s, r, counter).0 == r
    decreases counter
  {
    if counter > 0 {
      var n := s[counter - 1];
      assert Inside(n, size);
      if Apart(r, n) {
        EmptyStays(s, r, counter - 1, size);
      } else {
        var rest := s[..counter - 1] + s[counter..];
        MergeReady(s, r, counter, size);
        assert forall i :: 0 <= i < counter - 1 ==> rest[i] == s[i];
        EmptyStays(rest, r, counter - 1, size);
      }
    }
  }

  predicate EndsFile(r: Range, size: nat) {
    r.first <= r.last == size - 1
  }

  predicate SomeEndsFile(s: seq<Range>, size: nat) {
    exists i :: 0 <= i < |s| && EndsFile(s[i], size)
  }

  lemma {:induction false} SomeEndsFileSnoc(s: seq<Range>, r: Range, size: nat)
    ensures SomeEndsFile(s + [r], size) <==> SomeEndsFile(s, size) || EndsFile(r, size)
  {
    if i :| 0 <= i < |s| && EndsFile(s[i], size) { assert EndsFile((s + [r])[i], size); }
    if EndsFile(r, size) { assert EndsFile((s + [r])[|s|], size); }
  }

  lemma {:induction false} AbsorbEmptyIff(a: seq<Range>, r: Range, size: nat)
    requires Ready(a, r, |a|, size)
    ensures IsEmpty(Absorb(a, r, |a|).0) <==> IsEmpty(r) && !SomeEndsFile(a, size)
  {
    AbsorbReaches(a, r, |a|, size);
    if IsEmpty(r) {
      if i :| 0 <= i < |a| && EndsFile(a[i], size) {
        EndIsTaken(a, r, |a|, size);
      } else {
        forall i | 0 <= i < |a| && a[i].first <= a[i].last ensures a[i].last < size - 1 { assert !EndsFile(a[i], size); }
        EmptyStays(a, r, |a|, size);
      }
    }
  }

  /** Only the last of sorted ranges of the file can be empty, or all empty ones are the same. */
  lemma {:induction false} EmptyIsLast(s: seq<Range>, size: nat)
    requires s != [] && Sorted(s) && forall i :: 0 <= i < |s| ==> Inside(s[i], size)
    ensures Range(size, size - 1) in s <==> IsEmpty(s[|s| - 1])
  {
    var r := s[|s| - 1];
    if i :| 0 <= i < |s| && s[i] == Range(size, size - 1) {
      assert i < |s| - 1 ==> Before(s[i], r);
    }
  }

  lemma {:induction false} CoversEnd(s: seq<Range>, size: nat)
    requires forall i :: 0 <= i < |s| ==> Inside(s[i], size)
    ensures Covers(s, size - 1) <==> SomeEndsFile(s, size)
  {
    if i :| 0 <= i < |s| && s[i].first <= size - 1 <= s[i].last {
      assert EndsFile(s[i], size);
    }
    if i :| 0 <= i < |s| && EndsFile(s[i], size) {
      assert s[i].first <= size - 1 <= s[i].last;
    }
  }

  /** The served part is empty exactly if there is an empty range and none that ends with the file. */
  lemma {:induction false} ServedIsEmptyIff(s: seq<Range>, size: nat)
    requires s != [] && Sorted(s) && forall i :: 0 <= i < |s| ==> Inside(s[i], size)
    requires Consolidate(s) != []
    ensures IsEmpty(Consolidate(s)[0].range) <==> Range(size, size - 1) in s && !Covers(s, size - 1)
  {
    var n := |s| - 1;
    FirstPart(s);
    PrefixReady(s, size);
    AbsorbEmptyIff(s[..n], s[n], size);
    assert s == s[..n] + [s[n]];
    SomeEndsFileSnoc(s[..n], s[n], size);
    EmptyIsLast(s, size);
    CoversEnd(s, size);
  }

  lemma PrefixReady(s: seq<Range>, size: nat)
    requires s != [] && Sorted(s) && forall i :: 0 <= i < |s| ==> Inside(s[i], size)
    ensures Ready(s[..|s| - 1], s[|s| - 1], |s| - 1, size)
  {
  }

  lemma AbsorbNested(a: Range, b: Range, c: Range)
    requires Apart(c, b) && !Apart(c, a) && Merge(c, a) == a
    ensures Absorb([a, b], c, 2) == (a, [b])
  {
    assert [a, b][..0] + [a, b][1..] == [b];
    assert Absorb([a, b], c, 1) == Absorb([b], a, 0) == (a, [b]);
  }

  /** A range inside a larger one can survive, and its bytes then count twice. */
  lemma NestedRangeSurvives()
    ensures var s := [Range(0, 10), Range(1, 2), Range(5, 6)];
            Sorted(s) && Consolidate(s) == [Part(Range(0, 10), 11), Part(Range(1, 2), 2)] && TotalOf(Consolidate(s)) == 13
  {
    var a, b, c := Range(0, 10), Range(1, 2), Range(5, 6);
    AbsorbNested(a, b, c);
    assert [a, b, c][..2] == [a, b];
    OnePart(b);
    var parts := [Part(a, 11), Part(b, 2)];
    assert Consolidate([a, b, c]) == parts;
    assert parts[..1] == [Part(a, 11)] && [Part(a, 11)][..0] == [];
    assert TotalOf([Part(a, 11)]) == 11;
  }

  lemma OnePart(r: Range)
    ensures Consolidate([r]) == [Part(r, r.last - r.first + 1)]
  {
  }

  // ---------------------------------------------------------------- the loops

  predicate SomeUnsatisfiable(specs: seq<Specifier>, size: nat) {
    exists i :: 0 <= i < |specs| && Unsatisfiable(specs[i], size)
  }

  /** The first loop; None is the answer 416. */
  method ParseRanges(specs: seq<Specifier>, size: nat) returns (ranges: Option<seq<Range>>)
    ensures ranges.None? <==> SomeUnsatisfiable(specs, size)
    ensures ranges.Some? ==> ranges.value == RangesOf(specs, size)
  {
    var list: seq<Range> := [];
    for k := 0 to |specs|
      invariant !SomeUnsatisfiable(specs[..k], size) && list == RangesOf(specs[..k], size)
    {
      var s, isMatched := specs[k], false;
      assert specs[..k + 1][..k] == specs[..k] && specs[..k + 1][k] == s;
      if s.From? || s.FromTo? {
        var start := s.first;
        if start >= size { return None; }
        var end := if s.From? then size - 1 else s.last;
        if start <= end && start < size {
          if end >= size { end := size - 1; }
          list := list + [Range(start, end)];
          isMatched := true;
        }
      }
      if !isMatched && (s.FromTo? || s.Suffix?) {
        var start := size - if s.FromTo? then s.last else s.count;
        if start < 0 { start := 0; }
        list := list + [Range(start, size - 1)];
      }
    }
    assert specs[..|specs|] == specs;
    return Some(list);
  }

  /** The inner loop of the consolidation. */
  method AbsorbAll(list: seq<Range>, first: Range) returns (r: Range, rest: seq<Range>)
    ensures (r, rest) == Absorb(list, first, |list|)
  {
    r, rest := first, list;
    var counter := |list|;
    while counter > 0
      invariant 0 <= counter <= |rest|
      invariant Absorb(rest, r, counter) == Absorb(list, first, |list|)
    {
      var n := rest[counter - 1];
      if n.last < r.first - 1 || n.first > n.last + 1 {
      } else {
        r := Range(Min(r.first, n.first), Max(r.last, n.last));
        rest := rest[..counter - 1] + rest[counter..];
      }
      counter := counter - 1;
    }
  }

  lemma ConsolidateStep(parts: seq<Part>, s: seq<Range>)
    requires s != []
    ensures var t := Absorb(s[..|s| - 1], s[|s| - 1], |s| - 1);
            parts + Consolidate(s) == parts + [Part(t.0, t.0.last - t.0.first + 1)] + Consolidate(t.1)
  {
  }

  /** The outer loop of the consolidation. */
  method ConsolidateRanges(ranges: seq<Range>) returns (parts: seq<Part>, total: int)
    ensures parts == Consolidate(ranges) && total == TotalOf(parts)
  {
    var list := ranges;
    parts, total := [], 0;
    while |list| > 0
      invariant parts + Consolidate(list) == Consolidate(ranges)
      invariant total == TotalOf(parts)
      decreases |list|
    {
      ConsolidateStep(parts, list);
      ghost var before := parts;
      var r;
      r, list := AbsorbAll(list[..|list| - 1], list[|list| - 1]);
      parts := parts + [Part(r, r.last - r.first + 1)];
      total := total + r.last - r.first + 1;
      assert parts[..|parts| - 1] == before;
    }
  }

  /** `obtain_content_ranges`: 416, or ranges of the file that cover exactly the positions asked for. */
  method ObtainContentRanges(specs: seq<Specifier>, size: nat) returns (result: Option<(seq<Part>, int)>)
    ensures result.None? <==> SomeUnsatisfiable(specs, size)
    ensures result.Some? ==>
              && (forall x :: Covers(RangesIn(result.value.0), x) <==> SomeAsks(specs, size, x))
              && (forall i :: 0 <= i < |result.value.0| ==> Sound(result.value.0[i], size))
              && result.value.1 == TotalOf(result.value.0)
              && (forall x :: SomeAsks(specs, size, x) ==> result.value.0 != [] && x <= result.value.0[0].range.last)
              && (result.value.0 == [] <==> NothingAsked(specs))
              && (result.value.0 != [] ==> (IsEmpty(result.value.0[0].range) <==> ServesNothing(specs, size)))
    ensures result.Some? && (forall i :: 0 <= i < |specs| ==> InOrder(specs[i]))
            ==> forall x :: Covers(RangesIn(result.value.0), x) <==> SomeNames(specs, size, x)
  {
    var ranges := ParseRanges(specs, size);
    if ranges.None? { return None; }
    var parts, total := ConsolidateRanges(Sort(ranges.value));
    forall x ensures Covers(RangesIn(parts), x) <==> SomeAsks(specs, size, x) {
      PartsCover(specs, size, x);
    }
    forall x | SomeAsks(specs, size, x) ensures parts != [] && x <= parts[0].range.last {
      SortedRanges(specs, size, x);
      ServedReaches(Sort(ranges.value), size, x);
    }
    PartsCover(specs, size, 0);
    NoRanges(specs, size);
    assert |Sort(ranges.value)| == |multiset(Sort(ranges.value))| == |ranges.value|;
    if parts != [] { ServesNothingIff(specs, size); }
    if forall i :: 0 <= i < |specs| ==> InOrder(specs[i]) {
      forall x { AllInOrder(specs, size, x); }
    }
    return Some((parts, total));
  }

  /** A suffix of no bytes: "-0", "5-0", or any suffix of an empty file. */
  predicate AsksNothing(s: Specifier, size: nat) {
    (s.Suffix? && (s.count == 0 || size == 0)) || (s.FromTo? && s.last == 0 < s.first)
  }

  predicate ServesNothing(specs: seq<Specifier>, size: nat) {
    (exists i :: 0 <= i < |specs| && AsksNothing(specs[i], size)) && !SomeAsks(specs, size, size - 1)
  }

  lemma {:induction false} EmptyRangeOf(specs: seq<Specifier>, size: nat)
    requires !SomeUnsatisfiable(specs, size)
    ensures Range(size, size - 1) in RangesOf(specs, size) <==> exists i :: 0 <= i < |specs| && AsksNothing(specs[i], size)
  {
    if specs != [] {
      var n := |specs| - 1;
      assert forall i :: 0 <= i < n ==> specs[..n][i] == specs[i];
      EmptyRangeOf(specs[..n], size);
      assert !Unsatisfiable(specs[n], size);
      assert RangeOf(specs[n], size) == Some(Range(size, size - 1)) <==> AsksNothing(specs[n], size);
    }
  }

  /** An empty part is served exactly if some specifier asks for nothing and none for the last byte. */
  lemma {:induction false} ServesNothingIff(specs: seq<Specifier>, size: nat)
    requires !SomeUnsatisfiable(specs, size) && Consolidate(Sort(RangesOf(specs, size))) != []
    ensures IsEmpty(Consolidate(Sort(RangesOf(specs, size)))[0].range) <==> ServesNothing(specs, size)
  {
    var ranges := RangesOf(specs, size);
    var s := Sort(ranges);
    SortedRanges(specs, size, size - 1);
    ServedIsEmptyIff(s, size);
    EmptyRangeOf(specs, size);
    assert Range(size, size - 1) in multiset(s) <==> Range(size, size - 1) in multiset(ranges);
  }

  /** "0-3,-0" of ten bytes: nothing is served, though four bytes are asked for. */
  lemma {:induction false} EmptySuffixIsServed()
    ensures var specs := [FromTo(0, 3), Suffix(0)];
            ServesNothing(specs, 10) && !SomeUnsatisfiable(specs, 10) && forall x :: 0 <= x <= 3 ==> SomeAsks(specs, 10, x)
  {
    var specs := [FromTo(0, 3), Suffix(0)];
    assert AsksNothing(specs[1], 10);
    assert forall x :: Asks(specs[0], 10, x) <==> 0 <= x <= 3;
  }

  predicate NothingAsked(specs: seq<Specifier>) {
    forall i :: 0 <= i < |specs| ==> specs[i].Neither?
  }

  lemma {:induction false} NoRanges(specs: seq<Specifier>, size: nat)
    ensures RangesOf(specs, size) == [] <==> NothingAsked(specs)
  {
    if specs != [] {
      var n := |specs| - 1;
      NoRanges(specs[..n], size);
      assert NothingAsked(specs) <==> NothingAsked(specs[..n]) && specs[n].Neither? by {
        assert forall i :: 0 <= i < n ==> specs[..n][i] == specs[i];
      }
    }
  }

  lemma SortedRanges(specs: seq<Specifier>, size: nat, x: int)
    requires !SomeUnsatisfiable(specs, size)
    ensures var sorted := Sort(RangesOf(specs, size));
            && Sorted(sorted) && (forall i :: 0 <= i < |sorted| ==> Inside(sorted[i], size))
            && (Covers(sorted, x) <==> SomeAsks(specs, size, x))
  {
    var ranges := RangesOf(specs, size);
    var sorted := Sort(ranges);
    RangesOfSpec(specs, size, x);
    SortSorted(ranges);
    SameCover(ranges, sorted, x);
    SameCover(sorted, ranges, x);
    forall i | 0 <= i < |sorted| ensures Inside(sorted[i], size) {
      assert sorted[i] in multiset(ranges);
      var j :| 0 <= j < |ranges| && ranges[j] == sorted[i];
    }
  }

  lemma {:induction false} ServedReaches(s: seq<Range>, size: nat, x: int)
    requires Sorted(s) && (forall i :: 0 <= i < |s| ==> Inside(s[i], size)) && Covers(s, x)
    ensures Consolidate(s) != [] && x <= Consolidate(s)[0].range.last
  {
    var i :| 0 <= i < |s| && s[i].first <= x <= s[i].last;
    FirstPart(s);
    ServedPartIsTheLast(s, size, Consolidate(s)[0].range);
  }

  lemma {:induction false} PartsCover(specs: seq<Specifier>, size: nat, x: int)
    requires !SomeUnsatisfiable(specs, size)
    ensures var parts := Consolidate(Sort(RangesOf(specs, size)));
            && (Covers(RangesIn(parts), x) <==> SomeAsks(specs, size, x))
            && (forall i :: 0 <= i < |parts| ==> Sound(parts[i], size))
  {
    SortedRanges(specs, size, x);
    ConsolidateSpec(Sort(RangesOf(specs, size)), size, x);
  }
}
