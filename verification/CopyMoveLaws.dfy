/**
  What COPY and MOVE of `wsgidav/request_server.py` keep and what they lose, for every pattern of
  failures: laws about the states that `CopyMoveRequests.CopyOrMove` leaves.
*/
module CopyMoveLaws {
  import opened Sequences
  import opened Uri
  import opened PathStrings
  import opened CopyPaths
  import opened Descendants
  import opened Providers
  import opened CopyMove
  import opened CopyMoveRequests

  /**
    A request that the code accepts, with its destination outside the source. The destination may
    be a collection that contains the source, and the source path may end in any number of slashes.
  */
  ghost predicate Accepted(r: Request, nodes: Nodes) {
    Checked(r, nodes) && !(r.src <= r.dest)
  }

  // ---------------------------------------------------------------- without failures

  ghost predicate NothingFails(nodes: Nodes, r: Request, x: Failures) {
    forall p :: p in nodes && r.src <= p ==> p !in x.copies && p !in x.deletes
  }

  /** No copy can land on a resource of the other kind: see `NeverCrossesIff`. */
  ghost predicate KindsShownOrEqual(nodes: Nodes, r: Request) {
    KindsHidden(nodes, r) ==> KindsAgree(nodes, r)
  }

  /**
    Without failures the destination is the source, not merged with what was there; a COPY
    leaves the source, a MOVE nothing of it; the rest is untouched.
  */
  lemma SuccessIsExact(now: Nodes, nodes: Nodes, r: Request, x: Failures, p: Path)
    requires TreeShaped(nodes) && Proper(r, nodes) && KindsShownOrEqual(nodes, r)
    requires NothingFails(nodes, r, x) && ResultIs(now, nodes, r, x)
    ensures r.dest <= p ==> (p in now <==> r.Source(p) in nodes) && (p in now ==> now[p] == nodes[r.Source(p)])
    ensures r.src <= p && r.isMove ==> p !in now
    ensures !(r.dest <= p) && !(r.src <= p && r.isMove) ==> (p in now <==> p in nodes) && (p in now ==> now[p] == nodes[p])
  {
    assert Present(nodes, r, x, p) <==> p in now;
    if r.dest <= p {
      SourceOfTarget(r, p);
      assert r.Source(r.dest) == r.src;
    } else if r.src <= p && p in nodes && r.isMove {
      assert !Skipped(nodes, r, x, r.src);
      if p != r.src { AncestorIsFolder(nodes, r.src, p); }
      assert nodes[r.src].Folder? ==> Removed(nodes, r, x, r.src);
      assert nodes[p].Document? ==> TakenAway(nodes, r, x, p);
      assert Gone(nodes, r, x, p);
    }
  }

  // ---------------------------------------------------------------- trees

  /** A resource is copied only after everything above it. */
  lemma CopiedTopDown(nodes: Nodes, r: Request, x: Failures, p: Path, q: Path)
    requires TreeShaped(nodes) && Copied(nodes, r, x, p) && r.src <= q && q < p
    ensures Copied(nodes, r, x, q) && nodes[q].Folder?
  {
    AncestorIsFolder(nodes, q, p);
  }

  /** Whatever fails, every resource still stands in a collection. */
  lemma ResultIsTree(now: Nodes, nodes: Nodes, r: Request, x: Failures)
    requires TreeShaped(nodes) && Proper(r, nodes) && KindsShownOrEqual(nodes, r) && ResultIs(now, nodes, r, x)
    ensures TreeShaped(now)
  {
    forall p: Path, n: string | p + [n] in now ensures p in now && now[p].Folder? {
      assert Present(nodes, r, x, p + [n]);
      if r.dest <= p {
        MemberOfDest(nodes, r, x, p, n);
      } else if r.dest <= p + [n] {
        assert p + [n] == r.dest && Parent(r.dest) == p;
        assert !(r.src <= p);
      } else {
        assert p in nodes && nodes[p].Folder?;
        GoneWithContainer(nodes, r, x, p, p + [n]);
      }
      assert Present(nodes, r, x, p);
    }
  }

  lemma GoneWithContainer(nodes: Nodes, r: Request, x: Failures, p: Path, q: Path)
    requires p <= q
    ensures r.src <= p ==> r.src <= q
    ensures p in nodes && nodes[p].Folder? && Gone(nodes, r, x, p) ==> Gone(nodes, r, x, q)
  {
  }

  lemma MemberOfDest(nodes: Nodes, r: Request, x: Failures, p: Path, n: string)
    requires TreeShaped(nodes) && r.dest <= p && Present(nodes, r, x, p + [n])
    ensures Present(nodes, r, x, p)
    ensures if CopiedTo(nodes, r, x, p) then nodes[r.Source(p)].Folder? else p in nodes && nodes[p].Folder?
  {
    var c := p + [n];
    assert r.Source(c) == r.Source(p) + [n];
    if CopiedTo(nodes, r, x, c) {
      assert r.Source(p) < r.Source(c);
      CopiedTopDown(nodes, r, x, r.Source(c), r.Source(p));
    } else {
      assert c in nodes && p in nodes && nodes[p].Folder?;
      if p != r.dest {
        MatchedUp(nodes, r, c, p);
      }
    }
  }

  // ---------------------------------------------------------------- copies across kinds

  /** Resources at equal places below source and destination are of one kind. */
  ghost predicate KindsAgree(nodes: Nodes, r: Request) {
    forall p :: p in nodes && r.dest < p && r.Source(p) in nodes ==> nodes[p].Folder? == nodes[r.Source(p)].Folder?
  }

  ghost predicate NeverCrosses(nodes: Nodes, r: Request) {
    forall x: Failures :: !Crossing(nodes, r, x)
  }

  /** A COPY of a collection over a collection, whose paths do not tell the kinds apart. */
  predicate KindsHidden(nodes: Nodes, r: Request) {
    !r.isMove && r.dest in nodes && nodes[r.dest].Folder? && r.src in nodes && nodes[r.src].Folder? && Slashed(r.srcPath) && !r.slashed
  }

  /**
    Where targets are parallel, no copy ever lands on a resource of the other kind, exactly if the
    kinds agree wherever the paths do not show them.
  */
  lemma {:induction false} NeverCrossesIff(nodes: Nodes, r: Request)
    requires TreeShaped(nodes) && Proper(r, nodes) && TargetsParallel(nodes, r) && NamedBelow(nodes, r.src)
    ensures NeverCrosses(nodes, r) <==> KindsShownOrEqual(nodes, r)
  {
    assert r.Source(r.dest) == r.src;
    if KindsHidden(nodes, r) && !KindsAgree(nodes, r) {
      var p :| p in nodes && r.dest < p && r.Source(p) in nodes && nodes[p].Folder? != nodes[r.Source(p)].Folder?;
      var x := Failures({}, {});
      assert !Blocked(nodes, r, x, r.Source(p));
      SourceOfTarget(r, p);
      assert Crossed(nodes, r, x, p);
      CrossingIsCrossed(nodes, r, x);
    }
    if KindsShownOrEqual(nodes, r) {
      forall x: Failures ensures !Crossing(nodes, r, x) {
        CrossingIsCrossed(nodes, r, x);
        forall p ensures !Crossed(nodes, r, x, p) { NotCrossed(nodes, r, x, p); }
      }
    }
  }

  lemma NotCrossed(nodes: Nodes, r: Request, x: Failures, p: Path)
    requires TreeShaped(nodes) && Proper(r, nodes) && KindsShownOrEqual(nodes, r)
    ensures !Crossed(nodes, r, x, p)
  {
    assert r.Source(r.dest) == r.src;
  }

  lemma SegmentsOfInput(c: char)
    requires c != '/'
    ensures Segments(['/', c, '/']) == [[c]] && RStrip(['/', c, '/']) == ['/', c]
  {
    assert ['/', c, '/'][..2] == ['/', c];
    assert RStrip(['/', c]) == ['/', c];
    SegmentsName([c]);
    SegmentsSlash("/" + [c]);
    assert "/" + [c] + "/" == ['/', c, '/'];
  }

  lemma TreeByParents(nodes: Nodes)
    requires forall p :: p in nodes && p != [] ==> Parent(p) in nodes && nodes[Parent(p)].Folder?
    ensures TreeShaped(nodes)
  {
    forall p: Path, n: string | p + [n] in nodes ensures p in nodes && nodes[p].Folder? {
      assert Parent(p + [n]) == p;
    }
  }

  const NAMESAKES: Nodes :=
    map[[] := Folder, ["s"] := Folder, ["s", "x"] := Document("1"), ["d"] := Folder, ["d", "x"] := Folder]

  const NAMESAKES_COPY := Request("/s/", "/d/", ["s"], ["d"], false, false)

  lemma NamesakesCross()
    ensures Crossed(NAMESAKES, NAMESAKES_COPY, Failures({}, {}), ["d", "x"])
  {
    assert NAMESAKES_COPY.Source(["d", "x"]) == ["s", "x"];
  }

  lemma NamesakesTree()
    ensures TreeShaped(NAMESAKES)
  {
    assert Parent(["d"]) == [] && Parent(["s"]) == [] && Parent(["s", "x"]) == ["s"] && Parent(["d", "x"]) == ["d"];
    TreeByParents(NAMESAKES);
  }

  lemma NamesakesStrings()
    ensures Segments("/s/") == ["s"] && Segments("/d/") == ["d"] && !IsEqualOrChildUri("/s/", "/d/")
  {
    SegmentsOfInput('s');
    SegmentsOfInput('d');
    var a, b := RStrip("/s/") + "/", RStrip("/d/") + "/";
    assert a[1] == 's' && b[1] == 'd';
  }

  lemma NamesakesChecked()
    ensures Checked(NAMESAKES_COPY, NAMESAKES) && NAMESAKES_COPY.Separate()
  {
    NamesakesStrings();
    assert Parent(["d"]) == [];
    assert "s"[0] != "d"[0];
    assert ["s"][0] != ["d"][0];
  }

  /** A document with its namesake in the destination a collection: "/s/x" is copied onto "/d/x". */
  lemma CrossingInput()
    ensures TreeShaped(NAMESAKES) && Proper(NAMESAKES_COPY, NAMESAKES) && TargetsParallel(NAMESAKES, NAMESAKES_COPY)
    ensures Crossed(NAMESAKES, NAMESAKES_COPY, Failures({}, {}), ["d", "x"])
  {
    NamesakesTree();
    NamesakesStrings();
    NamesakesChecked();
    NamesakesCross();
  }

  // ---------------------------------------------------------------- onto a collection that contains the source

  const DOCUMENT_INSIDE: Nodes := map[[] := Folder, ["a"] := Folder, ["a", "b"] := Document("1")]

  lemma DocumentInsideTree()
    ensures TreeShaped(DOCUMENT_INSIDE)
  {
    assert Parent(["a"]) == [] && Parent(["a", "b"]) == ["a"];
    TreeByParents(DOCUMENT_INSIDE);
  }

  lemma DocumentInsideStrings()
    ensures Segments("/a/b") == ["a", "b"] && Segments("/a/") == ["a"] && !IsEqualOrChildUri("/a/b", "/a/")
  {
    SegmentsOfInput('a');
    SegmentsName("a");
    SegmentsName("b");
    SegmentsConcat("/a", "/b");
    assert "/a" + "/b" == "/a/b";
  }

  /** A document in a collection, copied or moved onto the collection: the checks let it pass. */
  lemma UpwardInput(isMove: bool)
    ensures var r := Request("/a/b", "/a/", ["a", "b"], ["a"], true, isMove);
            && TreeShaped(DOCUMENT_INSIDE) && Accepted(r, DOCUMENT_INSIDE)
            && r.dest < r.src && ReplacesDest(DOCUMENT_INSIDE, r)
  {
    DocumentInsideTree();
    DocumentInsideStrings();
    assert Parent(["a"]) == [];
  }

  /** Every source resource is there as it was. */
  ghost predicate SourceStays(now: Nodes, nodes: Nodes, r: Request) {
    forall p :: p in nodes && r.src <= p ==> p in now && now[p] == nodes[p]
  }

  /** Whatever fails, a COPY leaves the source as it was, exactly if the destination does not contain it. */
  lemma {:induction false} CopyKeepsSourceIff(now: Nodes, nodes: Nodes, r: Request, x: Failures)
    requires TreeShaped(nodes) && Accepted(r, nodes) && !r.isMove && Leaves(now, nodes, r, x)
    ensures SourceStays(now, nodes, r) <==> !(r.dest <= r.src)
  {
    if !(r.dest <= r.src) {
      forall p | p in nodes && r.src <= p ensures p in now && now[p] == nodes[p] {
        Apart(r, p);
        assert Stands(nodes, r, x, p);
      }
    } else if !ReplacesDest(nodes, r) {
      var q := FirstWithoutSource(nodes, r, r.src);
      var left :| CleanedIs(left, nodes, r) && OnlyTargets(now, left, nodes, r);
      assert q !in left;
    }
  }

  // ---------------------------------------------------------------- what is reported, and what stays at the destination

  /** A container of the resource fails to be copied. */
  ghost predicate BelowFailingCopy(nodes: Nodes, r: Request, x: Failures, p: Path) {
    exists f :: f in x.copies && f in nodes && r.src <= f && f < p
  }

  /** The attempt on a resource that no failing container hides ends in an error: its copy, or in a MOVE the removal of a document. */
  ghost predicate FailsItself(nodes: Nodes, r: Request, x: Failures, p: Path) {
    && p in nodes && r.src <= p && !BelowFailingCopy(nodes, r, x, p)
    && (p in x.copies || (r.isMove && nodes[p].Document? && p in x.deletes))
  }

  /** A collection with nothing failing at or below it refuses to be removed. */
  ghost predicate RefusesItself(nodes: Nodes, r: Request, x: Failures, c: Path) {
    && c in nodes && r.src <= c && nodes[c].Folder? && c in x.deletes
    && forall q :: c <= q ==> !FailsItself(nodes, r, x, q)
  }

  /**
    Exactly the resources whose own attempt fails are reported; in a MOVE the source also stands for
    collections that refuse to be removed.
  */
  lemma {:induction false} ReportedIff(now: Nodes, early: set<Path>, errors: seq<Path>, nodes: Nodes, r: Request, x: Failures,
          l: seq<Resource>, p: Path)
    requires Lists(l, nodes, r.src, false, true) && OutcomeIs(now, early, errors, nodes, r, x, l)
    ensures p in errors <==>
              || FailsItself(nodes, r, x, p)
              || (r.isMove && p == r.src && exists c :: RefusesItself(nodes, r, x, c))
  {
    AllListed(l, nodes, r.src);
    TroublesIff(l, nodes, r, x, p);
    RefusalsIff(l, nodes, r, x, p);
    InPathsOf(l, p);
    forall q ensures FailsItself(nodes, r, x, q) <==> Troubled(nodes, r, x, q) { }
    forall c ensures InList(l, c) && Refused(nodes, r, x, c) <==> RefusesItself(nodes, r, x, c) { InPathsOf(l, c); }
  }

  /** A COPY of a collection over a collection keeps what has a counterpart in the source, even if the copy fails. */
  lemma {:induction false} CounterpartsStay(now: Nodes, nodes: Nodes, r: Request, x: Failures, p: Path)
    requires Proper(r, nodes) && LandedIs(now, nodes, r, x) && !r.isMove && Slashed(r.srcPath)
    requires nodes[r.src].Folder? && r.dest in nodes && nodes[r.dest].Folder?
    requires p in nodes && r.dest < p && r.Source(p) in nodes && nodes[r.Source(p)].Folder? == nodes[p].Folder?
    ensures p in now && (now[p] == nodes[p] || Landed(nodes, r, x, p))
  {
    assert Stands(nodes, r, x, p);
  }

  /** A MOVE, or a request that involves a document, leaves nothing of what was at the destination. */
  lemma {:induction false} OldDestinationIsGone(now: Nodes, nodes: Nodes, r: Request, x: Failures, p: Path)
    requires LandedIs(now, nodes, r, x) && r.src in nodes && r.dest <= p && p in now && r.dest in nodes
    requires r.isMove || nodes[r.src].Document? || nodes[r.dest].Document?
    ensures exists q :: q in nodes && r.src <= q && q !in x.copies && Landing(nodes, r, q) == p && now[p] == nodes[q]
  {
    assert Stands(nodes, r, x, p);
    var q :| Lands(nodes, r, x, q, p) && now[p] == nodes[q];
  }

  // ---------------------------------------------------------------- errors before anything is copied

  /**
    A request that an error at the destination aborts has copied nothing and changed nothing but
    what had to go from below the destination; between separate places the source is untouched.
  */
  lemma StoppedKeepsSource(now: Nodes, nodes: Nodes, r: Request, cleans: set<Path>)
    requires Stopped(now, nodes, r, cleans)
    ensures forall p :: p in now ==> p in nodes && now[p] == nodes[p]
    ensures forall p :: p in nodes && (r.dest < p ==> Matched(nodes, r, p)) ==> p in now
    ensures r.Separate() ==> SourceStays(now, nodes, r)
  {
  }

  // ---------------------------------------------------------------- MOVE

  /** A source resource is where it was, or its copy is at the destination. */
  ghost predicate Survives(now: Nodes, nodes: Nodes, r: Request, p: Path)
    requires p in nodes && r.src <= p
  {
    (p in now && now[p] == nodes[p]) || (r.Target(p) in now && now[r.Target(p)] == nodes[p])
  }

  ghost predicate AllSurvive(now: Nodes, nodes: Nodes, r: Request) {
    forall p :: p in nodes && r.src <= p ==> Survives(now, nodes, r, p)
  }

  /** Below a collection that could not be copied, no collection can be removed. */
  ghost predicate NothingRemovedBelowFailures(nodes: Nodes, r: Request, x: Failures) {
    forall c :: c in nodes && r.src <= c && nodes[c].Folder? && Blocked(nodes, r, x, c) ==> c in x.deletes
  }

  lemma SurvivesIff(now: Nodes, nodes: Nodes, r: Request, x: Failures, p: Path)
    requires TreeShaped(nodes) && Proper(r, nodes) && ResultIs(now, nodes, r, x) && r.isMove && p in nodes && r.src <= p
    ensures Survives(now, nodes, r, p) <==> Copied(nodes, r, x, p) || !Gone(nodes, r, x, p)
  {
    Apart(r, p);
    SourceOfTarget(r, p);
    assert Present(nodes, r, x, p) <==> p in now;
    assert Present(nodes, r, x, r.Target(p)) <==> r.Target(p) in now;
  }

  /** A collection below a failed one is not kept by the search for errors. */
  lemma BlockedIsNotSkipped(nodes: Nodes, r: Request, x: Failures, c: Path)
    requires Blocked(nodes, r, x, c)
    ensures !Skipped(nodes, r, x, c)
  {
  }

  /** What was not copied is gone only with a removed collection strictly below the failure. */
  lemma LostBelowFailure(nodes: Nodes, r: Request, x: Failures, p: Path)
    requires TreeShaped(nodes) && p in nodes && r.src <= p && !Copied(nodes, r, x, p) && Gone(nodes, r, x, p)
    ensures exists c :: Removed(nodes, r, x, c) && Blocked(nodes, r, x, c)
  {
    var c :| c <= p && Removed(nodes, r, x, c);
    if Blocked(nodes, r, x, p) {
      var f := FirstBlock(nodes, r, x, p);
      assert !(c <= f);
      assert f < c;
    } else {
      assert Troubled(nodes, r, x, p);
    }
  }

  lemma ConservesBetweenPlaces(now: Nodes, nodes: Nodes, r: Request, x: Failures)
    requires TreeShaped(nodes) && Proper(r, nodes) && ResultIs(now, nodes, r, x) && r.isMove
    ensures AllSurvive(now, nodes, r) <==> NothingRemovedBelowFailures(nodes, r, x)
  {
    if NothingRemovedBelowFailures(nodes, r, x) {
      forall p | p in nodes && r.src <= p ensures Survives(now, nodes, r, p) {
        SurvivesIff(now, nodes, r, x, p);
        if !Copied(nodes, r, x, p) && Gone(nodes, r, x, p) { LostBelowFailure(nodes, r, x, p); }
      }
    } else {
      var c :| c in nodes && r.src <= c && nodes[c].Folder? && Blocked(nodes, r, x, c) && c !in x.deletes;
      BlockedIsNotSkipped(nodes, r, x, c);
      assert Removed(nodes, r, x, c);
      SurvivesIff(now, nodes, r, x, c);
    }
  }

  // ---------------------------------------------------------------- source paths with two slashes at the end

  /** The length of the path string behind the source. */
  function Length(r: Request, p: Path): nat
    requires r.src <= p
  {
    |Joined(Rel(r.src, p))|
  }

  lemma {:induction false} SegmentsAreShort(t: string)
    ensures |Joined(Segments(t))| <= |t| + 1
    ensures t != "" && t[|t| - 1] == '/' ==> |Joined(Segments(t))| <= |t|
    decreases |t|
  {
    if t != "" {
      if t[0] == '/' {
        SegmentsAreShort(t[1..]);
      } else {
        var i := IndexOf(t, '/');
        var rest := t[i..];
        assert Segments(t)[1..] == Segments(rest);
        if rest != "" {
          SegmentsAreShort(rest[1..]);
          assert Segments(rest) == Segments(rest[1..]);
          assert rest[|rest| - 1] == t[|t| - 1];
        }
      }
    }
  }

  /** What is left of a member path behind two slashes. */
  lemma CutIsShort(base: string, p: Path, slash: bool)
    requires p != [] && !AtMostOneSlash(base)
    ensures |Joined(Segments(From(PathString(base, p, slash), |base|)))| < |Joined(p)|
  {
    var r, j, t := RStrip(base), Joined(p), Tail(slash);
    var path := PathString(base, p, slash);
    RStripSpec(base);
    LongerThanOne(base);
    JoinedStarts(p);
    assert path == (r + j) + t;
    var cut := From(path, |base|);
    SegmentsAreShort(cut);
    assert slash && cut != "" ==> cut[|cut| - 1] == path[|path| - 1] == '/';
  }

  /** Behind two slashes every member lands at a shorter place than its own. */
  lemma LandsShorter(nodes: Nodes, r: Request, q: Path)
    requires TreeShaped(nodes) && Checked(r, nodes) && !AtMostOneSlash(r.srcPath) && q in nodes && r.src < q
    ensures r.dest <= Landing(nodes, r, q) && |Joined(Rel(r.dest, Landing(nodes, r, q)))| < Length(r, q)
  {
    AncestorIsFolder(nodes, r.src, q);
    var rel := Rel(r.src, q);
    CutIsShort(r.srcPath, rel, r.slashed && nodes[q].Folder?);
    AppendedIsBelow(r.destPath, From(PathString(r.srcPath, rel, r.slashed && nodes[q].Folder?), |r.srcPath|));
  }

  /** A member of a kind that is copied. */
  ghost predicate MemberCopied(nodes: Nodes, r: Request, x: Failures, folder: bool, p: Path) {
    r.src < p && Copied(nodes, r, x, p) && nodes[p].Folder? == folder
  }

  /** Some members of a kind are copied, and all of those are gone from the source. */
  ghost predicate KindGoes(nodes: Nodes, r: Request, x: Failures, folder: bool) {
    && (exists p :: MemberCopied(nodes, r, x, folder, p))
    && (forall p :: MemberCopied(nodes, r, x, folder, p) ==> Gone(nodes, r, x, p))
  }

  ghost predicate MovesAway(nodes: Nodes, r: Request, x: Failures) {
    KindGoes(nodes, r, x, false) || KindGoes(nodes, r, x, true)
  }

  lemma {:induction false} Longest(s: set<Path>, r: Request) returns (p: Path)
    requires s != {} && forall q :: q in s ==> r.src <= q
    ensures p in s && forall q :: q in s ==> Length(r, q) <= Length(r, p)
    decreases |s|
  {
    p :| p in s;
    if s != {p} {
      var q := Longest(s - {p}, r);
      if Length(r, p) < Length(r, q) { p := q; }
    }
  }

  /** Then the one with the longest path is lost. */
  lemma LongestIsLost(now: Nodes, nodes: Nodes, r: Request, x: Failures, folder: bool)
    requires TreeShaped(nodes) && Proper(r, nodes) && LandedIs(now, nodes, r, x) && r.isMove && !AtMostOneSlash(r.srcPath)
    requires KindGoes(nodes, r, x, folder)
    ensures !AllSurvive(now, nodes, r)
  {
    var all := set p | p in nodes && MemberCopied(nodes, r, x, folder, p);
    var p0 :| MemberCopied(nodes, r, x, folder, p0);
    assert p0 in all;
    var p := Longest(all, r);
    assert Stands(nodes, r, x, p) <==> p in now;
    Apart(r, p);
    var t := r.Target(p);
    assert Stands(nodes, r, x, t) <==> t in now;
    forall q | Lands(nodes, r, x, q, t) ensures nodes[q] != nodes[p] {
      ShorterPlace(nodes, r, x, p, q);
    }
    assert !Survives(now, nodes, r, p);
  }

  /** What lands at the place of a member has a longer path. */
  lemma ShorterPlace(nodes: Nodes, r: Request, x: Failures, p: Path, q: Path)
    requires TreeShaped(nodes) && Checked(r, nodes) && !AtMostOneSlash(r.srcPath) && r.src < p && p in nodes
    requires Lands(nodes, r, x, q, r.Target(p))
    ensures r.src < q && Length(r, p) < Length(r, q)
  {
    assert Rel(r.dest, r.Target(p)) == Rel(r.src, p);
    SourceLandsAtDest(nodes, r);
    if q != r.src { LandsShorter(nodes, r, q); }
  }

  lemma SourceLandsAtDest(nodes: Nodes, r: Request)
    requires Checked(r, nodes)
    ensures Landing(nodes, r, r.src) == r.dest
  {
    assert From(r.srcPath, |r.srcPath|) == "" && r.destPath + "" == r.destPath;
  }

  /**
    Where targets are parallel, a MOVE loses nothing exactly if the destination does not contain
    the source, and every collection below one that could not be copied also refuses to be
    removed. Where members move away, the targets must be parallel, too.
  */
  lemma {:induction false} MoveConservesIff(now: Nodes, nodes: Nodes, r: Request, x: Failures)
    requires TreeShaped(nodes) && Accepted(r, nodes) && Leaves(now, nodes, r, x) && r.isMove
    ensures TargetsParallel(nodes, r) ==>
              (AllSurvive(now, nodes, r) <==> !(r.dest <= r.src) && NothingRemovedBelowFailures(nodes, r, x))
    ensures MovesAway(nodes, r, x) ==>
              (AllSurvive(now, nodes, r) <==> TargetsParallel(nodes, r) && !(r.dest <= r.src) && NothingRemovedBelowFailures(nodes, r, x))
  {
    if r.dest <= r.src {
      AncestorIsFolder(nodes, r.dest, r.src);
      assert !Survives(now, nodes, r, r.src);
    } else if TargetsParallel(nodes, r) {
      ConservesBetweenPlaces(now, nodes, r, x);
    } else if KindGoes(nodes, r, x, false) {
      LongestIsLost(now, nodes, r, x, false);
    } else if KindGoes(nodes, r, x, true) {
      LongestIsLost(now, nodes, r, x, true);
    }
  }

  /** Without failures a MOVE loses nothing exactly if the targets are parallel and the destination does not contain the source. */
  lemma {:induction false} MoveWithoutFailuresIff(now: Nodes, nodes: Nodes, r: Request, x: Failures)
    requires TreeShaped(nodes) && Accepted(r, nodes) && Leaves(now, nodes, r, x) && r.isMove && NothingFails(nodes, r, x)
    ensures AllSurvive(now, nodes, r) <==> TargetsParallel(nodes, r) && !(r.dest <= r.src)
  {
    MoveConservesIff(now, nodes, r, x);
    if !TargetsParallel(nodes, r) {
      var p :| p in nodes && r.src < p;
      AncestorIsFolder(nodes, r.src, p);
      assert !Skipped(nodes, r, x, r.src);
      assert Removed(nodes, r, x, r.src);
      assert MemberCopied(nodes, r, x, nodes[p].Folder?, p);
      assert forall q :: MemberCopied(nodes, r, x, nodes[p].Folder?, q) ==> Gone(nodes, r, x, q);
    }
  }

  /**
    If only documents fail to be copied, a MOVE loses nothing, exactly if the destination does not
    contain the source and, where members move away, the targets are parallel.
  */
  lemma MoveWithFailingDocuments(now: Nodes, nodes: Nodes, r: Request, x: Failures)
    requires TreeShaped(nodes) && Accepted(r, nodes) && Leaves(now, nodes, r, x) && r.isMove
    requires forall f :: f in x.copies && f in nodes && r.src <= f ==> nodes[f].Document?
    ensures TargetsParallel(nodes, r) ==> (AllSurvive(now, nodes, r) <==> !(r.dest <= r.src))
    ensures MovesAway(nodes, r, x) ==> (AllSurvive(now, nodes, r) <==> TargetsParallel(nodes, r) && !(r.dest <= r.src))
  {
    forall c | c in nodes && Blocked(nodes, r, x, c) ensures false {
      var f :| f in x.copies && f in nodes && r.src <= f && f < c;
      AncestorIsFolder(nodes, f, c);
    }
    MoveConservesIff(now, nodes, r, x);
  }

  /** Everything from the source down to a noted error stays, exactly if the destination does not contain the source. */
  lemma KeptForTrouble(now: Nodes, nodes: Nodes, r: Request, x: Failures, q: Path, c: Path)
    requires TreeShaped(nodes) && Accepted(r, nodes) && Leaves(now, nodes, r, x) && r.isMove
    requires Troubled(nodes, r, x, q) && r.src <= c && c <= q
    ensures c in nodes && ((c in now && now[c] == nodes[c]) <==> !(r.dest <= r.src))
  {
    if c != q { AncestorIsFolder(nodes, c, q); }
    if r.dest <= r.src {
      AncestorIsFolder(nodes, r.dest, r.src);
    } else {
      Apart(r, c);
      assert !TakenAway(nodes, r, x, c);
      assert !Gone(nodes, r, x, c);
      assert Stands(nodes, r, x, c);
    }
  }

  const COLLIDING: Nodes := map[[] := Folder, ["a"] := Folder, ["a", "xyz"] := Document("1"), ["a", "wyz"] := Document("2")]

  const COLLIDING_MOVE := Request("/a//", "/b/", ["a"], ["b"], false, true)

  lemma CollidingTree()
    ensures TreeShaped(COLLIDING)
  {
    assert Parent(["a"]) == [] && Parent(["a", "xyz"]) == ["a"] && Parent(["a", "wyz"]) == ["a"];
    TreeByParents(COLLIDING);
  }

  lemma {:induction false} CollidingStrings()
    ensures Segments("/a//") == ["a"] && Segments("/b/") == ["b"] && Segments("/b/yz") == ["b", "yz"]
    ensures RStrip("/a//") == "/a" && RStrip("/b/") == "/b"
  {
    SegmentsOfInput('a');
    SegmentsOfInput('b');
    SegmentsSlash("/a/");
    assert "/a/" + "/" == "/a//" && "/a//"[..3] == "/a/";
    SegmentsName("yz");
    SegmentsName("b");
    SegmentsConcat("/b", "/yz");
    assert "/b" + "/yz" == "/b/yz";
  }

  lemma CollidingPlaces()
    ensures !(["a"] <= ["b"]) && !IsEqualOrChildUri("/a//", "/b/")
  {
    CollidingStrings();
    var a, b := RStrip("/a//") + "/", RStrip("/b/") + "/";
    assert a[1] == 'a' && b[1] == 'b';
    assert "a"[0] != "b"[0];
    assert ["a"][0] != ["b"][0];
  }

  lemma CollidingChecked()
    ensures Accepted(COLLIDING_MOVE, COLLIDING) && !AtMostOneSlash("/a//")
  {
    CollidingStrings();
    CollidingPlaces();
    CollidingSlashes();
    CollidingNodes();
  }

  lemma CollidingNodes()
    ensures ["a"] in COLLIDING && COLLIDING[["a"]].Folder?
    ensures Parent(["b"]) in COLLIDING && COLLIDING[Parent(["b"])].Folder?
  {
    assert Parent(["b"]) == [];
  }

  lemma CollidingSlashes()
    ensures !AtMostOneSlash("/a//") && Slashed("/b/") && "/a//" != "/b/"
  {
    CollidingStrings();
    assert |"/a//"| == 4 && |"/b/"| == 3;
  }

  lemma CollidingLanding(n: string)
    requires n == "xyz" || n == "wyz"
    ensures Landing(COLLIDING, COLLIDING_MOVE, ["a", n]) == ["b", "yz"]
  {
    CollidingStrings();
    CollidingCut(n);
    assert Rel(["a"], ["a", n]) == [n];
    assert "/b/" + "yz" == "/b/yz";
  }

  lemma CollidingCut(n: string)
    requires n == "xyz" || n == "wyz"
    ensures From(PathString("/a//", [n], false), 4) == "yz"
  {
    CollidingStrings();
    assert Joined([n]) == "/" + n by { assert [n][1..] == []; }
    assert PathString("/a//", [n], false) == "/a" + ("/" + n);
    CutBehind("/a", n);
    assert n[1..] == "yz";
  }

  lemma CutBehind(a: string, n: string)
    requires n != ""
    ensures From(a + ("/" + n), |a| + 2) == n[1..]
  {
  }

  /** A MOVE of "/a//" to "/b/": the two members land on one another, and one is lost without any failure. */
  lemma CollidingInput(now: Nodes)
    ensures Accepted(COLLIDING_MOVE, COLLIDING)
    ensures Landing(COLLIDING, COLLIDING_MOVE, ["a", "xyz"]) == Landing(COLLIDING, COLLIDING_MOVE, ["a", "wyz"]) == ["b", "yz"]
    ensures Leaves(now, COLLIDING, COLLIDING_MOVE, Failures({}, {})) ==> !AllSurvive(now, COLLIDING, COLLIDING_MOVE)
  {
    CollidingTree();
    CollidingChecked();
    CollidingLanding("xyz");
    CollidingLanding("wyz");
    CollidingNotParallel();
    if Leaves(now, COLLIDING, COLLIDING_MOVE, Failures({}, {})) {
      MoveWithoutFailuresIff(now, COLLIDING, COLLIDING_MOVE, Failures({}, {}));
    }
  }

  lemma CollidingNotParallel()
    ensures !TargetsParallel(COLLIDING, COLLIDING_MOVE)
  {
    CollidingChecked();
    assert ["a", "xyz"] in COLLIDING && ["a"] < ["a", "xyz"];
  }

  // ---------------------------------------------------------------- every result

  /** A value that may stand at a place. */
  ghost function ValueOf(nodes: Nodes, r: Request, x: Failures, p: Path): (v: Node)
    ensures if Landed(nodes, r, x, p) then LandedValue(nodes, r, x, p, v) else p in nodes ==> v == nodes[p]
  {
    if Landed(nodes, r, x, p) then
      var q :| Lands(nodes, r, x, q, p);
      nodes[q]
    else if p in nodes then nodes[p]
    else Folder
  }

  /** A store as `LandedIs` describes it. */
  ghost function ResultOf(nodes: Nodes, r: Request, x: Failures): (now: Nodes)
    ensures LandedIs(now, nodes, r, x)
  {
    var places := nodes.Keys + set q | q in nodes && r.src <= q :: Landing(nodes, r, q);
    var now := map p | p in places && Stands(nodes, r, x, p) :: ValueOf(nodes, r, x, p);
    now
  }

  /** A collection that contains a collection fails to be copied. */
  ghost predicate FailsAroundCollection(nodes: Nodes, r: Request, copies: set<Path>) {
    exists f, c :: f in copies && f in nodes && r.src <= f && f < c && c in nodes && nodes[c].Folder?
  }

  /** Whatever the removals do, nothing is lost. */
  ghost predicate SafeFor(nodes: Nodes, r: Request, copies: set<Path>) {
    forall deletes, now :: Leaves(now, nodes, r, Failures(copies, deletes)) ==> AllSurvive(now, nodes, r)
  }

  /**
    Which failing copies are harmless whatever the removals do: those of collections without
    collections in them, if the destination does not contain the source and, where a document in
    it is copied, the targets are parallel.
  */
  lemma {:induction false} MoveIsSafeIff(nodes: Nodes, r: Request, copies: set<Path>)
    requires TreeShaped(nodes) && Accepted(r, nodes) && NamedBelow(nodes, r.src) && r.isMove
    ensures TargetsParallel(nodes, r) ==>
              (SafeFor(nodes, r, copies) <==> !(r.dest <= r.src) && !FailsAroundCollection(nodes, r, copies))
    ensures (exists p :: MemberCopied(nodes, r, Failures(copies, {}), false, p)) ==>
              (SafeFor(nodes, r, copies) <==>
               TargetsParallel(nodes, r) && !(r.dest <= r.src) && !FailsAroundCollection(nodes, r, copies))
  {
    if TargetsParallel(nodes, r) && !(r.dest <= r.src) && !FailsAroundCollection(nodes, r, copies) {
      forall deletes, now | Leaves(now, nodes, r, Failures(copies, deletes)) ensures AllSurvive(now, nodes, r) {
        MoveConservesIff(now, nodes, r, Failures(copies, deletes));
      }
    } else if r.dest <= r.src || (TargetsParallel(nodes, r) && FailsAroundCollection(nodes, r, copies))
      || (!TargetsParallel(nodes, r) && exists p :: MemberCopied(nodes, r, Failures(copies, {}), false, p)) {
      var now := UnsafeResult(nodes, r, copies);
    }
  }

  lemma FailsAroundIsBlocked(nodes: Nodes, r: Request, copies: set<Path>)
    requires FailsAroundCollection(nodes, r, copies)
    ensures !NothingRemovedBelowFailures(nodes, r, Failures(copies, {}))
  {
    var f, c :| f in copies && f in nodes && r.src <= f && f < c && c in nodes && nodes[c].Folder?;
    assert Blocked(nodes, r, Failures(copies, {}), c);
  }

  lemma CopiedDocumentsGo(nodes: Nodes, r: Request, x: Failures)
    requires r.isMove && x.deletes == {} && exists p :: MemberCopied(nodes, r, x, false, p)
    ensures KindGoes(nodes, r, x, false)
  {
  }

  /** Upward, with a failing copy around a collection, or with misplaced documents something is lost if no removal fails. */
  lemma {:induction false} UnsafeResult(nodes: Nodes, r: Request, copies: set<Path>) returns (now: Nodes)
    requires TreeShaped(nodes) && Accepted(r, nodes) && NamedBelow(nodes, r.src) && r.isMove
    requires || r.dest <= r.src || (TargetsParallel(nodes, r) && FailsAroundCollection(nodes, r, copies))
             || (!TargetsParallel(nodes, r) && exists p :: MemberCopied(nodes, r, Failures(copies, {}), false, p))
    ensures Leaves(now, nodes, r, Failures(copies, {})) && !AllSurvive(now, nodes, r)
  {
    var x := Failures(copies, {});
    if r.dest <= r.src {
      AncestorIsFolder(nodes, r.dest, r.src);
      now := Without(nodes, r.dest);
    } else {
      now := ResultOf(nodes, r, x);
      if TargetsParallel(nodes, r) {
        ParallelResult(now, nodes, r, x);
        FailsAroundIsBlocked(nodes, r, copies);
      } else {
        CopiedDocumentsGo(nodes, r, x);
      }
    }
    MoveConservesIff(now, nodes, r, x);
  }

  // ---------------------------------------------------------------- removals that come too early

  /**
    The removal of a collection in a MOVE comes with members still in it exactly if one of them
    is a document that was not copied because a container failed, or a collection that refuses.
  */
  lemma RemovedTooEarlyIff(nodes: Nodes, r: Request, x: Failures, c: Path)
    requires r.isMove && Removed(nodes, r, x, c)
    ensures RemovedTooEarly(nodes, r, x, c) <==>
              exists n: string :: c + [n] in nodes &&
                                  if nodes[c + [n]].Folder? then c + [n] in x.deletes else Blocked(nodes, r, x, c + [n])
  {
    forall n: string | c + [n] in nodes
      ensures !TakenAway(nodes, r, x, c + [n]) && !Removed(nodes, r, x, c + [n]) <==>
                if nodes[c + [n]].Folder? then c + [n] in x.deletes else Blocked(nodes, r, x, c + [n])
    {
      assert !Troubled(nodes, r, x, c + [n]);
      forall q | Troubled(nodes, r, x, q) ensures !(c + [n] <= q) { assert c <= c + [n]; }
    }
  }

  /** A MOVE never removes a collection before its members, whatever fails, exactly if no collection lies in the source. */
  lemma NeverTooEarlyIff(nodes: Nodes, r: Request)
    requires TreeShaped(nodes) && r.isMove
    ensures (forall x: Failures, c :: !RemovedTooEarly(nodes, r, x, c))
            <==> (forall p :: p in nodes && r.src < p ==> nodes[p].Document?)
  {
    if p :| p in nodes && r.src < p && nodes[p].Folder? {
      var c, x := Parent(p), Failures({}, {p});
      assert c + [p[|p| - 1]] == p && c < p && r.src <= c;
      AncestorIsFolder(nodes, c, p);
      assert Removed(nodes, r, x, c);
      RemovedTooEarlyIff(nodes, r, x, c);
      assert RemovedTooEarly(nodes, r, x, c);
    } else {
      forall x: Failures, c ensures !RemovedTooEarly(nodes, r, x, c) {
        if Removed(nodes, r, x, c) {
          RemovedTooEarlyIff(nodes, r, x, c);
          forall n: string | c + [n] in nodes ensures !Blocked(nodes, r, x, c + [n]) { BlockedMember(nodes, r, x, c, n); }
        }
      }
    }
  }

  /** A member of the source itself is blocked only by the source, which then keeps it. */
  lemma BlockedMember(nodes: Nodes, r: Request, x: Failures, c: Path, n: string)
    requires c == r.src && Removed(nodes, r, x, c)
    ensures !Blocked(nodes, r, x, c + [n])
  {
    forall f | f in x.copies && f in nodes && r.src <= f && f < c + [n] ensures Troubled(nodes, r, x, f) && c <= f {
      OneLonger(c, n, f);
    }
  }
}
