/**
  The first two phases of COPY and MOVE in `_copy_or_move` of `wsgidav/request_server.py`: the
  clean-up of the destination and the copy loop.
*/
module CopyMove {
  import opened Uri
  import opened PathStrings
  import opened CopyPaths
  import opened Descendants
  import opened Providers

  /**
    Both path strings with their segments, and whether the provider ends the paths of its
    collections with a slash.
  */
  datatype Request = Request(srcPath: string, destPath: string, src: Path, dest: Path, slashed: bool, isMove: bool)
  {
    /** Neither lies in the other. */
    predicate Separate() {
      !(src <= dest) && !(dest <= src)
    }

    /** The destination of a source resource. */
    function Target(p: Path): Path
      requires src <= p
    {
      dest + Rel(src, p)
    }

    /** The source of a destination resource. */
    function Source(p: Path): Path
      requires dest <= p
    {
      src + Rel(dest, p)
    }

    /** `sres.path` */
    function SourceString(p: Path, isCollection: bool): string
      requires src <= p
    {
      PathString(srcPath, Rel(src, p), slashed && isCollection)
    }

    /** `dres.path` */
    function DestString(p: Path, isCollection: bool): string
      requires dest <= p
    {
      PathString(destPath, Rel(dest, p), slashed && isCollection)
    }
  }

  /**
    What `_copy_or_move` has checked or arranged before: the source exists, the destination is
    not the source or below it as far as the strings tell, it has a parent collection, and its
    path a slash if a collection is copied.
  */
  ghost predicate Checked(r: Request, nodes: Nodes) {
    && r.src == Segments(r.srcPath) && r.dest == Segments(r.destPath) && r.srcPath != "" && r.src in nodes
    && r.srcPath != r.destPath && !IsEqualOrChildUri(r.srcPath, r.destPath)
    && r.dest != [] && Parent(r.dest) in nodes && nodes[Parent(r.dest)].Folder?
    && (nodes[r.src].Folder? ==> Slashed(r.destPath))
  }

  /** What is not checked: that neither lies in the other. */
  ghost predicate Proper(r: Request, nodes: Nodes) {
    Checked(r, nodes) && r.Separate()
  }

  lemma SourceOfTarget(r: Request, p: Path)
    ensures r.src <= p ==> r.dest <= r.Target(p) && r.Source(r.Target(p)) == p
    ensures r.dest <= p ==> r.src <= r.Source(p) && r.Target(r.Source(p)) == p
  {
  }

  /** The paths of a list, as a set. */
  function PathsOf(l: seq<Resource>): set<Path> {
    set i | 0 <= i < |l| :: l[i].path
  }

  lemma PathsStep(l: seq<Resource>, k: nat)
    requires k < |l|
    ensures PathsOf(l[..k + 1]) == PathsOf(l[..k]) + {l[k].path}
  {
  }

  // ---------------------------------------------------------------- clean-up

  /** Whether a resource below the destination is found among the source paths. */
  ghost predicate Matched(nodes: Nodes, r: Request, p: Path) {
    && r.dest < p && Slashed(r.srcPath) && r.Source(p) in nodes && p in nodes
    && (r.slashed ==> nodes[r.Source(p)].Folder? == nodes[p].Folder?)
  }

  /** What the clean-up leaves. */
  ghost predicate CleanedIs(now: Nodes, nodes: Nodes, r: Request) {
    forall p :: (p in now <==> p in nodes && (r.dest < p ==> Matched(nodes, r, p))) && (p in now ==> now[p] == nodes[p])
  }

  lemma MatchedUp(nodes: Nodes, r: Request, p: Path, q: Path)
    requires TreeShaped(nodes) && Matched(nodes, r, p) && r.dest < q <= p
    ensures Matched(nodes, r, q)
  {
    if q != p {
      assert r.Source(q) < r.Source(p);
      AncestorIsFolder(nodes, r.Source(q), r.Source(p));
      AncestorIsFolder(nodes, q, p);
    }
  }

  /** The clean-up so far: nothing unmatched among the visited resources stands above or at what is left. */
  ghost predicate CleanedSoFar(now: Nodes, nodes: Nodes, r: Request, seen: set<Path>) {
    forall p :: (p in now <==> p in nodes && forall q :: q in seen && q <= p ==> Matched(nodes, r, q)) && (p in now ==> now[p] == nodes[p])
  }

  lemma CleanStep(now: Nodes, now': Nodes, nodes: Nodes, r: Request, seen: set<Path>, q: Path)
    requires CleanedSoFar(now, nodes, r, seen)
    requires now' == if Matched(nodes, r, q) then now else Without(now, q)
    ensures CleanedSoFar(now', nodes, r, seen + {q})
  {
  }

  lemma ContentsSeen(l: seq<Resource>, k: nat, nodes: Nodes, root: Path, p: Path)
    requires k < |l| && Lists(l, nodes, root, true, false) && p in nodes && l[k].path < p
    ensures root < l[k].path && p in PathsOf(l[..k])
  {
    assert Listed(l[k], nodes, root, false);
    assert InList(l, p);
    var i :| 0 <= i < |l| && l[i].path == p;
    assert i <= k || MayPrecede(l[k], l[i], true);
    assert i != k;
    assert l[..k][i] == l[i];
  }

  /** A collection that still has members when it comes up is matched. */
  lemma MembersMeanMatched(now: Nodes, l: seq<Resource>, k: nat, nodes: Nodes, r: Request)
    requires k < |l| && TreeShaped(nodes) && Lists(l, nodes, r.dest, true, false)
    requires CleanedSoFar(now, nodes, r, PathsOf(l[..k]))
    ensures HasMembers(now, l[k].path) ==> Matched(nodes, r, l[k].path)
  {
    if HasMembers(now, l[k].path) {
      var p :| p in now && l[k].path < p;
      ContentsSeen(l, k, nodes, r.dest, p);
      MatchedUp(nodes, r, p, l[k].path);
    }
  }

  lemma Cleaned(now: Nodes, l: seq<Resource>, nodes: Nodes, r: Request)
    requires TreeShaped(nodes) && Lists(l, nodes, r.dest, true, false) && CleanedSoFar(now, nodes, r, PathsOf(l))
    ensures CleanedIs(now, nodes, r)
  {
    forall p ensures p in now <==> p in nodes && (r.dest < p ==> Matched(nodes, r, p)) {
      if p in now && r.dest < p {
        assert InList(l, p);
        var i :| 0 <= i < |l| && l[i].path == p;
        assert p in PathsOf(l);
      }
      if p in nodes && (r.dest < p ==> Matched(nodes, r, p)) {
        forall q | q in PathsOf(l) && q <= p ensures Matched(nodes, r, q) {
          assert InList(l, q);
          var i :| 0 <= i < |l| && l[i].path == q;
          assert Listed(l[i], nodes, r.dest, false);
          MatchedUp(nodes, r, p, q);
        }
      }
    }
  }

  /** `[s.path for s in src_list]` */
  function StringsOf(l: seq<Resource>, r: Request): (strings: seq<string>)
    requires forall i :: 0 <= i < |l| ==> r.src <= l[i].path
    ensures |strings| == |l|
  {
    seq(|l|, i requires 0 <= i < |l| => r.SourceString(l[i].path, l[i].isCollection))
  }

  /** The look-up among the source paths decides `Matched`. */
  lemma FoundIffMatched(l: seq<Resource>, nodes: Nodes, r: Request, p: Path)
    requires Checked(r, nodes) && nodes[r.src].Folder? && Lists(l, nodes, r.src, false, true)
    requires r.dest < p && p in nodes && Names(Rel(r.dest, p))
    requires forall i :: 0 <= i < |l| ==> r.src <= l[i].path
    ensures MatchString(r.srcPath, r.destPath, r.DestString(p, nodes[p].Folder?)) in StringsOf(l, r) <==> Matched(nodes, r, p)
  {
    var m := MatchString(r.srcPath, r.destPath, r.DestString(p, nodes[p].Folder?));
    if m in StringsOf(l, r) {
      var i :| 0 <= i < |l| && StringsOf(l, r)[i] == m;
      OneMatches(l[i], nodes, r, p);
    }
    if Matched(nodes, r, p) {
      SourceOfTarget(r, p);
      assert InList(l, r.Source(p));
      var i :| 0 <= i < |l| && l[i].path == r.Source(p);
      OneMatches(l[i], nodes, r, p);
      assert StringsOf(l, r)[i] == m;
    }
  }

  lemma OneMatches(s: Resource, nodes: Nodes, r: Request, p: Path)
    requires Checked(r, nodes) && nodes[r.src].Folder? && Listed(s, nodes, r.src, true)
    requires r.dest < p && p in nodes && Names(Rel(r.dest, p))
    ensures MatchString(r.srcPath, r.destPath, r.DestString(p, nodes[p].Folder?)) == r.SourceString(s.path, s.isCollection)
            <==> Matched(nodes, r, p) && s.path == r.Source(p)
  {
    MatchIff(r.srcPath, r.destPath, Rel(r.dest, p), r.slashed && nodes[p].Folder?, Rel(r.src, s.path), r.slashed && s.isCollection);
    MatchedAlike(s, nodes, r, p);
  }

  lemma MatchedAlike(s: Resource, nodes: Nodes, r: Request, p: Path)
    requires Listed(s, nodes, r.src, true) && r.dest < p && p in nodes
    ensures Matched(nodes, r, p) && s.path == r.Source(p) <==>
              Slashed(r.srcPath) && Rel(r.dest, p) == Rel(r.src, s.path) && (r.slashed && nodes[p].Folder?) == (r.slashed && s.isCollection)
  {
    SourceOfTarget(r, p);
    assert s.path == r.src + Rel(r.src, s.path);
    assert Rel(r.src, r.Source(p)) == Rel(r.dest, p);
  }

  method RemoveOne(prov: Provider, r: Request, srcPathList: seq<string>, dres: Resource, fails: bool) returns (ok: bool)
    requires r.dest <= dres.path && dres.path in prov.nodes
    modifies prov
    ensures var found := MatchString(r.srcPath, r.destPath, r.DestString(dres.path, dres.isCollection)) in srcPathList;
            && ok == (found || !fails)
            && prov.nodes == (if found || fails then old(prov.nodes) else Without(old(prov.nodes), dres.path))
            && (found || !HasMembers(old(prov.nodes), dres.path) ==> prov.deletedTooEarly == old(prov.deletedTooEarly))
    ensures prov.copiedAcross == old(prov.copiedAcross)
  {
    ok := true;
    var sp := MatchString(r.srcPath, r.destPath, r.DestString(dres.path, dres.isCollection));
    if sp !in srcPathList {
      ok := prov.Delete(dres.path, fails);
    }
  }

  /** A resource that has to go and does not. */
  ghost predicate CleanUpFailure(nodes: Nodes, r: Request, cleans: set<Path>, p: Path) {
    p in nodes && r.dest < p && !Matched(nodes, r, p) && p in cleans
  }

  /** What an error in the clean-up leaves: all that was to stay, and the resource that could not go, unchanged. */
  ghost predicate PartlyCleaned(now: Nodes, nodes: Nodes, r: Request, cleans: set<Path>) {
    && (forall p :: p in now ==> p in nodes && now[p] == nodes[p])
    && (forall p :: p in nodes && (r.dest < p ==> Matched(nodes, r, p)) ==> p in now)
    && (exists p :: CleanUpFailure(nodes, r, cleans, p) && p in now)
  }

  lemma StoppedIsPartlyCleaned(now: Nodes, l: seq<Resource>, k: nat, nodes: Nodes, r: Request, cleans: set<Path>)
    requires k < |l| && TreeShaped(nodes) && Lists(l, nodes, r.dest, true, false)
    requires CleanedSoFar(now, nodes, r, PathsOf(l[..k])) && l[k].path in now && CleanUpFailure(nodes, r, cleans, l[k].path)
    ensures PartlyCleaned(now, nodes, r, cleans)
  {
    forall p | p in nodes && (r.dest < p ==> Matched(nodes, r, p)) ensures p in now {
      forall q | q in PathsOf(l[..k]) && q <= p ensures Matched(nodes, r, q) {
        var i :| 0 <= i < |l[..k]| && l[..k][i].path == q;
        assert Listed(l[i], nodes, r.dest, false);
        MatchedUp(nodes, r, p, q);
      }
    }
  }

  lemma RemoveRound(now: Nodes, l: seq<Resource>, k: nat, srcList: seq<Resource>, nodes: Nodes, r: Request)
    requires TreeShaped(nodes) && Checked(r, nodes) && nodes[r.src].Folder? && Lists(srcList, nodes, r.src, false, true)
    requires k < |l| && Lists(l, nodes, r.dest, true, false) && CleanedSoFar(now, nodes, r, PathsOf(l[..k]))
    requires forall i :: 0 <= i < |srcList| ==> r.src <= srcList[i].path
    ensures r.dest < l[k].path && l[k].path in nodes
    ensures MatchString(r.srcPath, r.destPath, r.DestString(l[k].path, l[k].isCollection)) in StringsOf(srcList, r) <==> Matched(nodes, r, l[k].path)
    ensures l[k].path in now && (Matched(nodes, r, l[k].path) || !HasMembers(now, l[k].path))
  {
    assert Listed(l[k], nodes, r.dest, false);
    forall q | q in PathsOf(l[..k]) ensures !(q <= l[k].path) {
      var i :| 0 <= i < |l[..k]| && l[..k][i].path == q;
      assert MayPrecede(l[i], l[k], true);
    }
    FoundIffMatched(srcList, nodes, r, l[k].path);
    MembersMeanMatched(now, l, k, nodes, r);
  }

  /**
    COPY of a collection over a collection: what is not part of the source goes, contents first.
    `cleans` are the resources whose removal fails; the first such error aborts the request.
  */
  method RemoveUnmatched(prov: Provider, r: Request, srcList: seq<Resource>, td: Tree, cleans: set<Path>) returns (ok: bool)
    requires TreeShaped(prov.nodes) && Checked(r, prov.nodes) && prov.nodes[r.src].Folder?
    requires Lists(srcList, prov.nodes, r.src, false, true)
    requires WellFormed(td) && Shows(td, prov.nodes, r.dest)
    modifies prov
    ensures ok <==> forall p :: !CleanUpFailure(old(prov.nodes), r, cleans, p)
    ensures if ok then CleanedIs(prov.nodes, old(prov.nodes), r) else PartlyCleaned(prov.nodes, old(prov.nodes), r, cleans)
    ensures prov.deletedTooEarly == old(prov.deletedTooEarly) && prov.copiedAcross == old(prov.copiedAcross)
  {
    ghost var nodes := prov.nodes;
    var l := GetDescendants(td, r.dest, Query(true, true, true, Infinity), false);
    DescendantsAreListed(td, nodes, r.dest, true, false);
    assert forall i :: 0 <= i < |srcList| ==> Listed(srcList[i], nodes, r.src, true);
    var srcPathList := StringsOf(srcList, r);
    for k := 0 to |l|
      invariant CleanedSoFar(prov.nodes, nodes, r, PathsOf(l[..k]))
      invariant NoFailureIn(nodes, r, cleans, PathsOf(l[..k]))
      invariant prov.deletedTooEarly == old(prov.deletedTooEarly) && prov.copiedAcross == old(prov.copiedAcross)
    {
      ok := RemoveNext(prov, r, srcList, srcPathList, l, k, cleans, nodes);
      if !ok { return false; }
    }
    assert l[..|l|] == l;
    Cleaned(prov.nodes, l, nodes, r);
    NoFailureAtAll(l, nodes, r, cleans);
    return true;
  }

  /** The body of the clean-up loop. */
  method RemoveNext(prov: Provider, r: Request, srcList: seq<Resource>, srcPathList: seq<string>, l: seq<Resource>, k: nat,
          cleans: set<Path>, ghost nodes: Nodes)
    returns (ok: bool)
    requires TreeShaped(nodes) && Checked(r, nodes) && nodes[r.src].Folder? && Lists(srcList, nodes, r.src, false, true)
    requires forall i :: 0 <= i < |srcList| ==> r.src <= srcList[i].path
    requires srcPathList == StringsOf(srcList, r) && k < |l| && Lists(l, nodes, r.dest, true, false)
    requires CleanedSoFar(prov.nodes, nodes, r, PathsOf(l[..k])) && NoFailureIn(nodes, r, cleans, PathsOf(l[..k]))
    modifies prov
    ensures if ok then CleanedSoFar(prov.nodes, nodes, r, PathsOf(l[..k + 1])) && NoFailureIn(nodes, r, cleans, PathsOf(l[..k + 1]))
            else PartlyCleaned(prov.nodes, nodes, r, cleans)
    ensures prov.deletedTooEarly == old(prov.deletedTooEarly) && prov.copiedAcross == old(prov.copiedAcross)
  {
    RemoveRound(prov.nodes, l, k, srcList, nodes, r);
    ghost var now := prov.nodes;
    ok := RemoveOne(prov, r, srcPathList, l[k], l[k].path in cleans);
    if ok {
      CleanStep(now, prov.nodes, nodes, r, PathsOf(l[..k]), l[k].path);
      PathsStep(l, k);
    } else {
      StoppedIsPartlyCleaned(now, l, k, nodes, r, cleans);
    }
  }

  ghost predicate NoFailureIn(nodes: Nodes, r: Request, cleans: set<Path>, seen: set<Path>) {
    forall p :: p in seen ==> !CleanUpFailure(nodes, r, cleans, p)
  }

  lemma NoFailureAtAll(l: seq<Resource>, nodes: Nodes, r: Request, cleans: set<Path>)
    requires Lists(l, nodes, r.dest, true, false) && NoFailureIn(nodes, r, cleans, PathsOf(l))
    ensures forall p :: !CleanUpFailure(nodes, r, cleans, p)
  {
    forall p | p in nodes && r.dest < p ensures p in PathsOf(l) {
      assert InList(l, p);
      var i :| 0 <= i < |l| && l[i].path == p;
    }
  }

  /** What is part of the source stays where it is: the same place, and the same kind if paths show kinds, with the source path ending in one slash. */
  lemma CleanUpKeepsIff(now: Nodes, nodes: Nodes, r: Request, p: Path)
    requires CleanedIs(now, nodes, r) && p in nodes && r.dest < p
    ensures p in now <==>
              r.srcPath == RStrip(r.srcPath) + "/" && r.Source(p) in nodes && (r.slashed ==> nodes[r.Source(p)].Folder? == nodes[p].Folder?)
    ensures p in now ==> now[p] == nodes[p]
  {
  }

  /** A COPY onto a collection that contains the source: the clean-up leaves the source exactly if it is matched itself. */
  lemma UpwardCleanUpIff(now: Nodes, nodes: Nodes, r: Request)
    requires CleanedIs(now, nodes, r) && r.dest < r.src && r.src in nodes
    ensures r.src in now <==> Matched(nodes, r, r.src)
  {
  }

  /** The source resources longer than a path: what is left to look for. */
  function LongerThan(nodes: Nodes, n: nat): set<Path> {
    set p | p in nodes && |p| > n
  }

  /** Going from a resource to the one at its own place below the source, again and again, ends outside the store. */
  lemma {:induction false} FirstWithoutSource(nodes: Nodes, r: Request, p: Path) returns (q: Path)
    requires r.dest < r.src && r.src <= p && p in nodes
    ensures r.src <= q && q in nodes && r.Source(q) !in nodes
    decreases |LongerThan(nodes, |p|)|
  {
    q := p;
    var s := r.Source(p);
    if s in nodes {
      assert |s| > |p|;
      assert LongerThan(nodes, |s|) <= LongerThan(nodes, |p|) - {s} && s in LongerThan(nodes, |p|);
      ProperSubsetIsSmaller(LongerThan(nodes, |s|), LongerThan(nodes, |p|), s);
      q := FirstWithoutSource(nodes, r, s);
    }
  }

  lemma ProperSubsetIsSmaller(a: set<Path>, b: set<Path>, x: Path)
    requires a <= b - {x} && x in b
    ensures |a| < |b|
  {
    SubsetIsNoLarger(a, b - {x});
  }

  lemma {:induction false} SubsetIsNoLarger(a: set<Path>, b: set<Path>)
    requires a <= b
    ensures |a| <= |b|
    decreases a
  {
    if x :| x in a { SubsetIsNoLarger(a - {x}, b - {x}); }
  }

  // ---------------------------------------------------------------- what fails

  /** The resources whose copy, and those whose removal from the source, ends in an error. */
  datatype Failures = Failures(copies: set<Path>, deletes: set<Path>)

  /** A container of the resource could not be copied. */
  ghost predicate Blocked(nodes: Nodes, r: Request, x: Failures, p: Path) {
    exists f :: f in x.copies && f in nodes && r.src <= f && f < p
  }

  ghost predicate Copied(nodes: Nodes, r: Request, x: Failures, p: Path) {
    p in nodes && r.src <= p && !Blocked(nodes, r, x, p) && p !in x.copies
  }

  /** The copy loop notes an error for the resource. */
  ghost predicate Troubled(nodes: Nodes, r: Request, x: Failures, p: Path) {
    && p in nodes && r.src <= p && !Blocked(nodes, r, x, p)
    && (p in x.copies || (r.isMove && nodes[p].Document? && p in x.deletes))
  }

  /** A MOVE takes a copied document away at once. */
  ghost predicate TakenAway(nodes: Nodes, r: Request, x: Failures, p: Path) {
    r.isMove && Copied(nodes, r, x, p) && nodes[p].Document? && p !in x.deletes
  }

  lemma {:induction false} FirstBlock(nodes: Nodes, r: Request, x: Failures, p: Path) returns (f: Path)
    requires Blocked(nodes, r, x, p)
    ensures f in x.copies && r.src <= f && f < p && Troubled(nodes, r, x, f)
    decreases |p|
  {
    f :| f in x.copies && f in nodes && r.src <= f && f < p;
    if Blocked(nodes, r, x, f) { f := FirstBlock(nodes, r, x, f); }
  }

  ghost predicate IgnoreIs(ignore: seq<string>, nodes: Nodes, r: Request, x: Failures, done: set<Path>) {
    && (forall s :: s in ignore ==> exists q :: q in done && Troubled(nodes, r, x, q) && s == r.SourceString(q, nodes[q].Folder?))
    && (forall q :: q in done && Troubled(nodes, r, x, q) ==> r.SourceString(q, nodes[q].Folder?) in ignore)
  }

  predicate SomeParent(ignore: seq<string>, path: string) {
    exists i :: 0 <= i < |ignore| && IsEqualOrChildUri(ignore[i], path)
  }

  lemma StringPrefix(nodes: Nodes, r: Request, p: Path, kp: bool, q: Path, kq: bool)
    requires r.srcPath != "" && r.src <= p && r.src <= q && Names(Rel(r.src, p)) && Names(Rel(r.src, q))
    ensures IsEqualOrChildUri(r.SourceString(p, kp), r.SourceString(q, kq)) <==> p <= q
  {
    EqualOrChildIsPrefix(r.srcPath, Rel(r.src, p), r.slashed && kp, Rel(r.src, q), r.slashed && kq);
    RelPrefix(r.src, p, q);
  }

  lemma RelPrefix(root: Path, p: Path, q: Path)
    requires root <= p && root <= q
    ensures Rel(root, p) <= Rel(root, q) <==> p <= q
  {
  }

  /** A troubled resource above another is a collection whose copy failed. */
  lemma TroubleAbove(nodes: Nodes, r: Request, x: Failures, q: Path, p: Path)
    requires TreeShaped(nodes) && Troubled(nodes, r, x, q) && q < p && p in nodes
    ensures Blocked(nodes, r, x, p)
  {
    AncestorIsFolder(nodes, q, p);
  }

  lemma SeenBefore(l: seq<Resource>, k: nat, nodes: Nodes, root: Path, q: Path)
    requires k < |l| && Lists(l, nodes, root, false, true)
    ensures q in PathsOf(l[..k]) ==> Listed(Resource(q, q in nodes && nodes[q].Folder?), nodes, root, true) && !(l[k].path <= q)
    ensures q in nodes && root <= q && q < l[k].path ==> q in PathsOf(l[..k])
  {
    if q in PathsOf(l[..k]) {
      var i :| 0 <= i < |l[..k]| && l[..k][i].path == q;
      assert Listed(l[i], nodes, root, true) && MayPrecede(l[i], l[k], false);
    }
    if q in nodes && root <= q && q < l[k].path {
      assert InList(l, q);
      var i :| 0 <= i < |l| && l[i].path == q;
      assert i > k ==> MayPrecede(l[k], l[i], false);
      assert l[..k][i] == l[i];
    }
  }

  /** The string test against the noted paths finds exactly the resources with a container that failed. */
  lemma ParentErrorIff(ignore: seq<string>, l: seq<Resource>, k: nat, nodes: Nodes, r: Request, x: Failures)
    requires k < |l| && TreeShaped(nodes) && Lists(l, nodes, r.src, false, true) && r.srcPath != ""
    requires r.src <= l[k].path
    requires IgnoreIs(ignore, nodes, r, x, PathsOf(l[..k]))
    ensures SomeParent(ignore, r.SourceString(l[k].path, l[k].isCollection)) <==> Blocked(nodes, r, x, l[k].path)
  {
    var p, s := l[k].path, r.SourceString(l[k].path, l[k].isCollection);
    assert Listed(l[k], nodes, r.src, true);
    if SomeParent(ignore, s) {
      var i :| 0 <= i < |ignore| && IsEqualOrChildUri(ignore[i], s);
      assert ignore[i] in ignore;
      var q :| q in PathsOf(l[..k]) && Troubled(nodes, r, x, q) && ignore[i] == r.SourceString(q, nodes[q].Folder?);
      SeenBefore(l, k, nodes, r.src, q);
      StringPrefix(nodes, r, q, nodes[q].Folder?, p, l[k].isCollection);
      TroubleAbove(nodes, r, x, q, p);
    }
    if Blocked(nodes, r, x, p) {
      var f := FirstBlock(nodes, r, x, p);
      SeenBefore(l, k, nodes, r.src, f);
      StringPrefix(nodes, r, f, nodes[f].Folder?, p, l[k].isCollection);
      var i :| 0 <= i < |ignore| && ignore[i] == r.SourceString(f, nodes[f].Folder?);
    }
  }

  method ParentError(ignore: seq<string>, path: string) returns (error: bool)
    ensures error <==> SomeParent(ignore, path)
  {
    for i := 0 to |ignore|
      invariant !SomeParent(ignore[..i], path)
    {
      if IsEqualOrChildUri(ignore[i], path) { return true; }
    }
    assert ignore[..|ignore|] == ignore;
    return false;
  }

  // ---------------------------------------------------------------- the copy loop

  /** What the loop starts with: the source as it was. */
  ghost predicate SourceIntact(left: Nodes, nodes: Nodes, r: Request) {
    && (forall p :: p in left ==> p in nodes && left[p] == nodes[p])
    && (forall p :: p in nodes && r.src <= p ==> p in left)
  }

  /** Where the string arithmetic sends a resource. */
  ghost function Landing(nodes: Nodes, r: Request, q: Path): Path
    requires q in nodes && r.src <= q
  {
    Segments(TargetString(r.srcPath, r.destPath, r.SourceString(q, nodes[q].Folder?)))
  }

  /** The resource is copied, and the copy lands there. */
  ghost predicate Lands(nodes: Nodes, r: Request, x: Failures, q: Path, p: Path) {
    Copied(nodes, r, x, q) && Landing(nodes, r, q) == p && r.dest <= p
  }

  /** Every copy lands at the destination or below it, wherever that is. */
  lemma LandsAtDest(nodes: Nodes, r: Request, q: Path)
    requires TreeShaped(nodes) && Checked(r, nodes) && q in nodes && r.src <= q
    ensures r.dest <= Landing(nodes, r, q)
  {
    var path := r.SourceString(q, nodes[q].Folder?);
    if Rel(r.src, q) == [] {
      assert From(path, |r.srcPath|) == "" && r.destPath + "" == r.destPath;
    } else {
      AncestorIsFolder(nodes, r.src, q);
      AppendedIsBelow(r.destPath, From(path, |r.srcPath|));
    }
  }

  ghost predicate Arrived(nodes: Nodes, r: Request, x: Failures, done: set<Path>, p: Path) {
    exists q :: q in done && Lands(nodes, r, x, q, p)
  }

  /** A resource in `done` with this value has landed there. */
  ghost predicate ValueFrom(nodes: Nodes, r: Request, x: Failures, done: set<Path>, p: Path, v: Node) {
    exists q :: q in done && Lands(nodes, r, x, q, p) && v == nodes[q]
  }

  /** The store, with the resources in `done` copied. Where several have landed, it holds one of them. */
  ghost predicate CopiedSoFar(now: Nodes, left: Nodes, nodes: Nodes, r: Request, x: Failures, done: set<Path>) {
    forall p {:trigger p in now} :: (p in now <==> Arrived(nodes, r, x, done, p) || (p in left && !(p in done && TakenAway(nodes, r, x, p))))
                && (p in now ==> if Arrived(nodes, r, x, done, p) then ValueFrom(nodes, r, x, done, p, now[p]) else now[p] == left[p])
  }

  /** A copy that lands on a resource of the other kind. */
  ghost predicate OntoOther(left: Nodes, nodes: Nodes, r: Request, x: Failures, q: Path, p: Path) {
    Lands(nodes, r, x, q, p) && p in left && left[p].Folder? != nodes[q].Folder?
  }

  /** Copies of both kinds that land on one place. */
  ghost predicate TwoKinds(nodes: Nodes, r: Request, x: Failures, q: Path, o: Path, p: Path) {
    Lands(nodes, r, x, q, p) && Lands(nodes, r, x, o, p) && nodes[o].Folder? != nodes[q].Folder?
  }

  /** No copy so far landed on a resource of the other kind. */
  ghost predicate NoneAcross(left: Nodes, nodes: Nodes, r: Request, x: Failures, done: set<Path>) {
    && (forall q, p :: q in done ==> !OntoOther(left, nodes, r, x, q, p))
    && (forall q, o, p :: q in done && o in done ==> !TwoKinds(nodes, r, x, q, o, p))
  }

  lemma Apart(r: Request, p: Path)
    requires r.Separate() && r.src <= p
    ensures !(r.dest <= p)
  {
  }

  /** Nothing stands below a document, and copies are elsewhere. */
  lemma DocumentIsAlone(now: Nodes, left: Nodes, nodes: Nodes, r: Request, x: Failures, done: set<Path>, q: Path)
    requires TreeShaped(nodes) && SourceIntact(left, nodes, r) && CopiedSoFar(now, left, nodes, r, x, done)
    requires r.Separate() && r.src <= q && q in nodes && nodes[q].Document?
    ensures forall p :: p in now && q <= p ==> p == q
  {
    forall p | p in now && q <= p ensures p == q {
      ArrivedOutside(nodes, r, x, done, p);
      if q != p { AncestorIsFolder(nodes, q, p); }
    }
  }

  /** What a round of the copy loop does to the store. */
  function CopiedOne(now: Nodes, p: Path, target: Path, copies: bool, takes: bool): Nodes
    requires copies ==> p in now
  {
    if !copies then now else if takes then Without(now[target := now[p]], p) else now[target := now[p]]
  }

  lemma ArrivedMore(nodes: Nodes, r: Request, x: Failures, done: set<Path>, q: Path, p: Path)
    ensures Arrived(nodes, r, x, done + {q}, p) <==> Arrived(nodes, r, x, done, p) || Lands(nodes, r, x, q, p)
  {
    if o :| o in done && Lands(nodes, r, x, o, p) { assert o in done + {q}; }
    assert q in done + {q};
  }

  lemma ValueFromMore(nodes: Nodes, r: Request, x: Failures, done: set<Path>, q: Path, p: Path, v: Node)
    ensures ValueFrom(nodes, r, x, done, p, v) ==> ValueFrom(nodes, r, x, done + {q}, p, v)
    ensures Lands(nodes, r, x, q, p) && v == nodes[q] ==> ValueFrom(nodes, r, x, done + {q}, p, v)
  {
    if o :| o in done && Lands(nodes, r, x, o, p) && v == nodes[o] { assert o in done + {q}; }
    assert q in done + {q};
  }

  /** Whatever arrives is outside the source. */
  lemma ArrivedOutside(nodes: Nodes, r: Request, x: Failures, done: set<Path>, p: Path)
    requires r.Separate() && r.src <= p
    ensures !Arrived(nodes, r, x, done, p)
  {
    Apart(r, p);
  }

  /** One resource copied, or copied and taken away. */
  lemma CopyStep(now: Nodes, now': Nodes, left: Nodes, nodes: Nodes, r: Request, x: Failures, done: set<Path>, q: Path)
    requires TreeShaped(nodes) && Proper(r, nodes) && SourceIntact(left, nodes, r) && CopiedSoFar(now, left, nodes, r, x, done)
    requires r.src <= q && q in nodes && q !in done && q in now
    requires now' == CopiedOne(now, q, Landing(nodes, r, q), Copied(nodes, r, x, q), TakenAway(nodes, r, x, q))
    ensures CopiedSoFar(now', left, nodes, r, x, done + {q})
  {
    forall p ensures (p in now' <==> Arrived(nodes, r, x, done + {q}, p) || (p in left && !(p in done + {q} && TakenAway(nodes, r, x, p))))
                && (p in now' ==> if Arrived(nodes, r, x, done + {q}, p) then ValueFrom(nodes, r, x, done + {q}, p, now'[p]) else now'[p] == left[p]) {
      CopyStepAt(now, now', left, nodes, r, x, done, q, p);
    }
  }

  lemma CopyStepAt(now: Nodes, now': Nodes, left: Nodes, nodes: Nodes, r: Request, x: Failures, done: set<Path>, q: Path, p: Path)
    requires TreeShaped(nodes) && Proper(r, nodes) && SourceIntact(left, nodes, r) && CopiedSoFar(now, left, nodes, r, x, done)
    requires r.src <= q && q in nodes && q !in done && q in now
    requires now' == CopiedOne(now, q, Landing(nodes, r, q), Copied(nodes, r, x, q), TakenAway(nodes, r, x, q))
    ensures p in now' <==> Arrived(nodes, r, x, done + {q}, p) || (p in left && !(p in done + {q} && TakenAway(nodes, r, x, p)))
    ensures p in now' ==> if Arrived(nodes, r, x, done + {q}, p) then ValueFrom(nodes, r, x, done + {q}, p, now'[p]) else now'[p] == left[p]
  {
    LandsAtDest(nodes, r, q);
    ArrivedMore(nodes, r, x, done, q, p);
    ArrivedOutside(nodes, r, x, done, q);
    assert now[q] == nodes[q];
    if nodes[q].Document? { DocumentIsAlone(now, left, nodes, r, x, done, q); }
    if q <= p { ArrivedOutside(nodes, r, x, done + {q}, p); }
    if p in now' { ValueFromMore(nodes, r, x, done, q, p, now'[p]); }
  }

  /** The resources of the list the copy loop notes an error for, in its order. */
  ghost function Troubles(l: seq<Resource>, nodes: Nodes, r: Request, x: Failures): seq<Path> {
    if l == [] then []
    else Troubles(l[..|l| - 1], nodes, r, x) + if Troubled(nodes, r, x, l[|l| - 1].path) then [l[|l| - 1].path] else []
  }

  lemma TroublesStep(l: seq<Resource>, k: nat, nodes: Nodes, r: Request, x: Failures)
    requires k < |l|
    ensures Troubles(l[..k + 1], nodes, r, x) ==
              Troubles(l[..k], nodes, r, x) + if Troubled(nodes, r, x, l[k].path) then [l[k].path] else []
  {
    assert l[..k + 1][..k] == l[..k];
  }

  lemma IgnoreStep(ignore: seq<string>, ignore': seq<string>, nodes: Nodes, r: Request, x: Failures, done: set<Path>,
          q: Path)
    requires IgnoreIs(ignore, nodes, r, x, done) && r.src <= q && q in nodes
    requires ignore' == ignore + if Troubled(nodes, r, x, q) then [r.SourceString(q, nodes[q].Folder?)] else []
    ensures IgnoreIs(ignore', nodes, r, x, done + {q})
  {
  }

  /** What the copy loop changes. */
  datatype Progress = Progress(now: Nodes, across: set<Path>, early: set<Path>, ignore: seq<string>, errors: seq<Path>)

  /** One round in terms of strings. After a copy across kinds nothing is known of the store. */
  ghost predicate OneRound(g: Progress, h: Progress, r: Request, x: Failures, s: Resource)
    requires r.src <= s.path
  {
    var path, p := r.SourceString(s.path, s.isCollection), s.path;
    var target := Segments(TargetString(r.srcPath, r.destPath, path));
    var tried := !SomeParent(g.ignore, path);
    var copies := tried && p in g.now && p !in x.copies;
    var takes := copies && r.isMove && !s.isCollection && p !in x.deletes;
    var fails := tried && (!copies || (r.isMove && !s.isCollection && p in x.deletes));
    if copies && IsAcross(g.now, p, target) then h.across == g.across + {target} && (!r.isMove ==> h.early == g.early)
    else
      && h.now == CopiedOne(g.now, p, target, copies, takes)
      && h.across == g.across
      && h.early == g.early + (if takes && HasMembers(g.now[target := g.now[p]], p) then {p} else {})
      && h.ignore == g.ignore + (if fails then [path] else [])
      && h.errors == g.errors + (if fails then [p] else [])
  }

  ghost function ProgressOf(prov: Provider, ignore: seq<string>, errors: seq<Path>): Progress
    reads prov
  {
    Progress(prov.nodes, prov.copiedAcross, prov.deletedTooEarly, ignore, errors)
  }

  /** The body of the copy loop. */
  method CopyOne(prov: Provider, r: Request, s: Resource, x: Failures, ignore: seq<string>, errors: seq<Path>)
    returns (ignore': seq<string>, errors': seq<Path>)
    requires r.src <= s.path
    modifies prov
    ensures OneRound(old(ProgressOf(prov, ignore, errors)), ProgressOf(prov, ignore', errors'), r, x, s)
  {
    ignore', errors' := ignore, errors;
    var path := r.SourceString(s.path, s.isCollection);
    var parentError := ParentError(ignore, path);
    if parentError { return; }
    var dpath := TargetString(r.srcPath, r.destPath, path);
    var ok := prov.CopyMoveSingle(s.path, Segments(dpath), s.path in x.copies);
    if ok && r.isMove && !s.isCollection {
      ok := prov.Delete(s.path, s.path in x.deletes);
    }
    if !ok {
      ignore' := ignore + [path];
      errors' := errors + [s.path];
    }
  }

  ghost predicate ProgressIs(g: Progress, left: Nodes, nodes: Nodes, r: Request, x: Failures, l: seq<Resource>) {
    && CopiedSoFar(g.now, left, nodes, r, x, PathsOf(l)) && NoneAcross(left, nodes, r, x, PathsOf(l))
    && IgnoreIs(g.ignore, nodes, r, x, PathsOf(l)) && g.errors == Troubles(l, nodes, r, x)
  }

  /** A round in terms of what fails, where source and destination are separate. */
  ghost predicate Round(g: Progress, h: Progress, nodes: Nodes, r: Request, x: Failures, s: Resource)
    requires r.src <= s.path && s.path in g.now && s.path in nodes
  {
    var q, t := s.path, Landing(nodes, r, s.path);
    && h.now == CopiedOne(g.now, q, t, Copied(nodes, r, x, q), TakenAway(nodes, r, x, q))
    && h.ignore == g.ignore + (if Troubled(nodes, r, x, q) then [r.SourceString(q, s.isCollection)] else [])
    && h.errors == g.errors + (if Troubled(nodes, r, x, q) then [q] else [])
  }

  lemma NotYetSeen(l: seq<Resource>, k: nat, nodes: Nodes, root: Path)
    requires k < |l| && Lists(l, nodes, root, false, true)
    ensures l[k].path !in PathsOf(l[..k]) && Listed(l[k], nodes, root, true)
  {
  }

  /** A source resource that has not come up is where it was. */
  lemma StillAtSource(now: Nodes, left: Nodes, nodes: Nodes, r: Request, x: Failures, l: seq<Resource>, k: nat)
    requires k < |l| && Lists(l, nodes, r.src, false, true) && SourceIntact(left, nodes, r)
    requires r.Separate() && CopiedSoFar(now, left, nodes, r, x, PathsOf(l[..k])) && Listed(l[k], nodes, r.src, true)
    ensures r.src <= l[k].path && l[k].path in now && now[l[k].path] == nodes[l[k].path]
    ensures nodes[l[k].path].Folder? == l[k].isCollection
  {
    ArrivedOutside(nodes, r, x, PathsOf(l[..k]), l[k].path);
  }

  /** What one round does, in terms of what fails. */
  lemma RoundOf(g: Progress, left: Nodes, nodes: Nodes, r: Request, x: Failures, l: seq<Resource>, k: nat)
    requires k < |l| && TreeShaped(nodes) && Proper(r, nodes) && Lists(l, nodes, r.src, false, true)
    requires SourceIntact(left, nodes, r)
    requires ProgressIs(g, left, nodes, r, x, l[..k])
    ensures r.src <= l[k].path && l[k].path in nodes
    ensures var path := r.SourceString(l[k].path, l[k].isCollection);
            && (SomeParent(g.ignore, path) <==> Blocked(nodes, r, x, l[k].path))
            && Segments(TargetString(r.srcPath, r.destPath, path)) == Landing(nodes, r, l[k].path)
  {
    assert Listed(l[k], nodes, r.src, true);
    ParentErrorIff(g.ignore, l, k, nodes, r, x);
  }

  lemma TargetOfListed(s: Resource, nodes: Nodes, r: Request)
    requires TreeShaped(nodes) && Checked(r, nodes) && AtMostOneSlash(r.srcPath) && Listed(s, nodes, r.src, true)
    ensures Segments(TargetString(r.srcPath, r.destPath, r.SourceString(s.path, s.isCollection))) == r.Target(s.path)
  {
    if Rel(r.src, s.path) != [] {
      assert r.src < s.path;
      AncestorIsFolder(nodes, r.src, s.path);
    }
    TargetIsParallel(r.srcPath, r.destPath, Rel(r.src, s.path), r.slashed && s.isCollection);
  }

  /** Some copy lands on a resource of the other kind. */
  ghost predicate SomeCrossing(left: Nodes, nodes: Nodes, r: Request, x: Failures) {
    (exists q, p :: OntoOther(left, nodes, r, x, q, p)) || (exists q, o, p :: TwoKinds(nodes, r, x, q, o, p))
  }

  /** Up to the first copy across kinds, if there is one, the loop is where it should be. */
  ghost predicate Good(g: Progress, early: set<Path>, left: Nodes, nodes: Nodes, r: Request, x: Failures, l: seq<Resource>) {
    if g.across == {} then ProgressIs(g, left, nodes, r, x, l) && g.early == early else SomeCrossing(left, nodes, r, x)
  }

  /** A resource below the destination is of the kind of every copy that has landed there, and of what was there. */
  lemma KindsSoFar(now: Nodes, left: Nodes, nodes: Nodes, r: Request, x: Failures, done: set<Path>, t: Path)
    requires SourceIntact(left, nodes, r) && CopiedSoFar(now, left, nodes, r, x, done) && NoneAcross(left, nodes, r, x, done)
    requires r.Separate() && r.dest <= t
    ensures t in left ==> t in now && now[t].Folder? == left[t].Folder?
    ensures forall o :: o in done && Lands(nodes, r, x, o, t) ==> t in now && now[t].Folder? == nodes[o].Folder?
  {
    assert !(r.src <= t);
    assert t in now <==> Arrived(nodes, r, x, done, t) || t in left;
    if Arrived(nodes, r, x, done, t) {
      var q :| q in done && Lands(nodes, r, x, q, t) && now[t] == nodes[q];
      assert !OntoOther(left, nodes, r, x, q, t);
      forall o | o in done && Lands(nodes, r, x, o, t) ensures now[t].Folder? == nodes[o].Folder? {
        assert !TwoKinds(nodes, r, x, q, o, t);
      }
    }
  }

  lemma AcrossIsCrossing(now: Nodes, left: Nodes, nodes: Nodes, r: Request, x: Failures, done: set<Path>, q: Path)
    requires TreeShaped(nodes) && Proper(r, nodes) && CopiedSoFar(now, left, nodes, r, x, done)
    requires q in now && Copied(nodes, r, x, q) && now[q] == nodes[q] && IsAcross(now, q, Landing(nodes, r, q))
    ensures SomeCrossing(left, nodes, r, x)
  {
    var t := Landing(nodes, r, q);
    LandsAtDest(nodes, r, q);
    if Arrived(nodes, r, x, done, t) {
      var o :| o in done && Lands(nodes, r, x, o, t) && now[t] == nodes[o];
      assert TwoKinds(nodes, r, x, q, o, t);
    } else {
      assert OntoOther(left, nodes, r, x, q, t);
    }
  }

  lemma StillNoneAcross(now: Nodes, left: Nodes, nodes: Nodes, r: Request, x: Failures, done: set<Path>, q: Path)
    requires TreeShaped(nodes) && Proper(r, nodes)
    requires SourceIntact(left, nodes, r) && CopiedSoFar(now, left, nodes, r, x, done) && NoneAcross(left, nodes, r, x, done)
    requires r.src <= q && q in nodes && q in now && now[q] == nodes[q]
    requires !(Copied(nodes, r, x, q) && IsAcross(now, q, Landing(nodes, r, q)))
    ensures NoneAcross(left, nodes, r, x, done + {q})
  {
    var t := Landing(nodes, r, q);
    LandsAtDest(nodes, r, q);
    KindsSoFar(now, left, nodes, r, x, done, t);
    forall o, p | o in done + {q} ensures !OntoOther(left, nodes, r, x, o, p) {
      assert o in done ==> !OntoOther(left, nodes, r, x, o, p);
    }
    forall m, o, p | m in done + {q} && o in done + {q} ensures !TwoKinds(nodes, r, x, m, o, p) {
      assert m in done && o in done ==> !TwoKinds(nodes, r, x, m, o, p);
    }
  }

  lemma RoundKeepsSets(g: Progress, h: Progress, left: Nodes, nodes: Nodes, r: Request, x: Failures, done: set<Path>,
          s: Resource)
    requires TreeShaped(nodes) && Proper(r, nodes) && SourceIntact(left, nodes, r) && Listed(s, nodes, r.src, true)
    requires s.path !in done && s.path in g.now
    requires Round(g, h, nodes, r, x, s)
    requires CopiedSoFar(g.now, left, nodes, r, x, done) && IgnoreIs(g.ignore, nodes, r, x, done)
    ensures CopiedSoFar(h.now, left, nodes, r, x, done + {s.path})
    ensures IgnoreIs(h.ignore, nodes, r, x, done + {s.path})
  {
    CopyStep(g.now, h.now, left, nodes, r, x, done, s.path);
    IgnoreStep(g.ignore, h.ignore, nodes, r, x, done, s.path);
  }

  /** A document that is taken away has nothing below it. */
  lemma TakenAlone(g: Progress, left: Nodes, nodes: Nodes, r: Request, x: Failures, done: set<Path>, q: Path)
    requires TreeShaped(nodes) && SourceIntact(left, nodes, r) && CopiedSoFar(g.now, left, nodes, r, x, done)
    requires Proper(r, nodes) && r.src <= q && q in nodes && nodes[q].Document? && q in g.now
    ensures !HasMembers(g.now[Landing(nodes, r, q) := g.now[q]], q)
  {
    var now, t := g.now, Landing(nodes, r, q);
    DocumentIsAlone(now, left, nodes, r, x, done, q);
    LandsAtDest(nodes, r, q);
    AddedElsewhere(now, t, now[q], q);
  }

  lemma AddedElsewhere(now: Nodes, t: Path, v: Node, q: Path)
    requires !(q <= t) && forall p :: p in now && q <= p ==> p == q
    ensures !HasMembers(now[t := v], q)
  {
  }

  /** While nothing was copied across kinds, a round is what fails says, or the first such copy. */
  lemma RoundMeans(g: Progress, h: Progress, left: Nodes, nodes: Nodes, r: Request, x: Failures, l: seq<Resource>, k: nat)
    requires k < |l| && TreeShaped(nodes) && Proper(r, nodes) && Lists(l, nodes, r.src, false, true)
    requires SourceIntact(left, nodes, r) && ProgressIs(g, left, nodes, r, x, l[..k])
    requires r.src <= l[k].path && OneRound(g, h, r, x, l[k])
    ensures l[k].path in g.now && l[k].path in nodes && g.now[l[k].path] == nodes[l[k].path]
    ensures if Copied(nodes, r, x, l[k].path) && IsAcross(g.now, l[k].path, Landing(nodes, r, l[k].path))
            then h.across == g.across + {Landing(nodes, r, l[k].path)}
            else Round(g, h, nodes, r, x, l[k]) && h.across == g.across && h.early == g.early
  {
    NotYetSeen(l, k, nodes, r.src);
    StillAtSource(g.now, left, nodes, r, x, l, k);
    RoundOf(g, left, nodes, r, x, l, k);
    if nodes[l[k].path].Document? { TakenAlone(g, left, nodes, r, x, PathsOf(l[..k]), l[k].path); }
  }

  lemma GoodStep(g: Progress, h: Progress, left: Nodes, nodes: Nodes, r: Request, x: Failures, l: seq<Resource>, k: nat)
    requires k < |l| && TreeShaped(nodes) && Listed(l[k], nodes, r.src, true) && l[k].path !in PathsOf(l[..k])
    requires Proper(r, nodes) && SourceIntact(left, nodes, r) && l[k].path in g.now && g.now[l[k].path] == nodes[l[k].path]
    requires g.across == {} && ProgressIs(g, left, nodes, r, x, l[..k])
    requires if Copied(nodes, r, x, l[k].path) && IsAcross(g.now, l[k].path, Landing(nodes, r, l[k].path))
             then h.across == g.across + {Landing(nodes, r, l[k].path)}
             else Round(g, h, nodes, r, x, l[k]) && h.across == g.across && h.early == g.early
    ensures Good(h, g.early, left, nodes, r, x, l[..k + 1])
  {
    if Copied(nodes, r, x, l[k].path) && IsAcross(g.now, l[k].path, Landing(nodes, r, l[k].path)) {
      AcrossIsCrossing(g.now, left, nodes, r, x, PathsOf(l[..k]), l[k].path);
    } else {
      StillNoneAcross(g.now, left, nodes, r, x, PathsOf(l[..k]), l[k].path);
      PathsStep(l, k);
      GoodRound(g, h, left, nodes, r, x, l, k);
    }
  }

  lemma GoodRound(g: Progress, h: Progress, left: Nodes, nodes: Nodes, r: Request, x: Failures, l: seq<Resource>, k: nat)
    requires k < |l| && TreeShaped(nodes) && Listed(l[k], nodes, r.src, true) && l[k].path !in PathsOf(l[..k])
    requires Proper(r, nodes) && SourceIntact(left, nodes, r) && l[k].path in g.now
    requires ProgressIs(g, left, nodes, r, x, l[..k]) && Round(g, h, nodes, r, x, l[k])
    requires NoneAcross(left, nodes, r, x, PathsOf(l[..k + 1]))
    ensures ProgressIs(h, left, nodes, r, x, l[..k + 1])
  {
    RoundKeepsSets(g, h, left, nodes, r, x, PathsOf(l[..k]), l[k]);
    PathsStep(l, k);
    TroublesStep(l, k, nodes, r, x);
  }

  lemma RoundKeepsGood(g: Progress, h: Progress, left: Nodes, nodes: Nodes, r: Request, x: Failures, l: seq<Resource>,
          k: nat)
    requires k < |l| && TreeShaped(nodes) && Proper(r, nodes) && Lists(l, nodes, r.src, false, true)
    requires SourceIntact(left, nodes, r) && g.across == {} && ProgressIs(g, left, nodes, r, x, l[..k])
    requires r.src <= l[k].path && OneRound(g, h, r, x, l[k])
    ensures Good(h, g.early, left, nodes, r, x, l[..k + 1])
  {
    NotYetSeen(l, k, nodes, r.src);
    RoundMeans(g, h, left, nodes, r, x, l, k);
    GoodStep(g, h, left, nodes, r, x, l, k);
  }

  lemma CrossingStays(g: Progress, h: Progress, r: Request, x: Failures, s: Resource)
    requires r.src <= s.path && OneRound(g, h, r, x, s)
    ensures g.across <= h.across
  {
  }

  /** Short of a copy across kinds, a COPY adds nothing but the targets of source resources. */
  ghost predicate OnlyTargets(now: Nodes, left: Nodes, nodes: Nodes, r: Request) {
    forall p :: p in now ==> p in left || (r.dest <= p && r.Source(p) in nodes)
  }

  lemma RoundAddsTarget(g: Progress, h: Progress, left: Nodes, nodes: Nodes, r: Request, x: Failures, s: Resource)
    requires TreeShaped(nodes) && Checked(r, nodes) && AtMostOneSlash(r.srcPath) && Listed(s, nodes, r.src, true)
    requires OneRound(g, h, r, x, s) && (g.across == {} ==> OnlyTargets(g.now, left, nodes, r))
    ensures h.across == {} ==> OnlyTargets(h.now, left, nodes, r)
  {
    TargetOfListed(s, nodes, r);
    SourceOfTarget(r, s.path);
  }

  /** Once the source is gone, every copy fails and nothing changes. */
  ghost predicate NothingAtSource(now: Nodes, r: Request) {
    forall p :: p in now ==> !(r.src <= p)
  }

  lemma RoundWithoutSource(g: Progress, h: Progress, r: Request, x: Failures, s: Resource)
    requires r.src <= s.path && OneRound(g, h, r, x, s) && NothingAtSource(g.now, r)
    ensures h.now == g.now && h.across == g.across && h.early == g.early
  {
  }

  /** What every round of the copy loop keeps. */
  ghost predicate LoopKeeps(g: Progress, early: set<Path>, left: Nodes, nodes: Nodes, r: Request, x: Failures, l: seq<Resource>) {
    && (Proper(r, nodes) && SourceIntact(left, nodes, r) ==> Good(g, early, left, nodes, r, x, l))
    && (AtMostOneSlash(r.srcPath) && g.across == {} ==> OnlyTargets(g.now, left, nodes, r))
    && (NothingAtSource(left, r) ==> g.now == left && g.across == {} && g.early == early)
    && (!r.isMove ==> g.early == early)
  }

  /** The copy loop. */
  method CopyAll(prov: Provider, r: Request, l: seq<Resource>, x: Failures, ghost nodes: Nodes)
    returns (ignore: seq<string>, errors: seq<Path>)
    requires TreeShaped(nodes) && Checked(r, nodes) && Lists(l, nodes, r.src, false, true)
    requires prov.copiedAcross == {}
    modifies prov
    ensures LoopKeeps(ProgressOf(prov, ignore, errors), old(prov.deletedTooEarly), old(prov.nodes), nodes, r, x, l)
  {
    ghost var left, early := prov.nodes, prov.deletedTooEarly;
    ignore, errors := [], [];
    LoopStarts(ProgressOf(prov, ignore, errors), nodes, r, x);
    for k := 0 to |l|
      invariant LoopKeeps(ProgressOf(prov, ignore, errors), early, left, nodes, r, x, l[..k])
    {
      ghost var g := ProgressOf(prov, ignore, errors);
      assert Listed(l[k], nodes, r.src, true);
      ignore, errors := CopyOne(prov, r, l[k], x, ignore, errors);
      RoundKeepsAll(g, ProgressOf(prov, ignore, errors), early, left, nodes, r, x, l, k);
    }
    assert l[..|l|] == l;
  }

  lemma LoopStarts(g: Progress, nodes: Nodes, r: Request, x: Failures)
    requires g.across == {} && g.ignore == [] && g.errors == []
    ensures LoopKeeps(g, g.early, g.now, nodes, r, x, [])
  {
  }

  lemma RoundKeepsAll(g: Progress, h: Progress, early: set<Path>, left: Nodes, nodes: Nodes, r: Request, x: Failures,
          l: seq<Resource>, k: nat)
    requires k < |l| && TreeShaped(nodes) && Checked(r, nodes) && Lists(l, nodes, r.src, false, true)
    requires r.src <= l[k].path && OneRound(g, h, r, x, l[k]) && LoopKeeps(g, early, left, nodes, r, x, l[..k])
    ensures LoopKeeps(h, early, left, nodes, r, x, l[..k + 1])
  {
    assert Listed(l[k], nodes, r.src, true);
    CrossingStays(g, h, r, x, l[k]);
    if Proper(r, nodes) && SourceIntact(left, nodes, r) && g.across == {} {
      RoundKeepsGood(g, h, left, nodes, r, x, l, k);
    }
    if AtMostOneSlash(r.srcPath) { RoundAddsTarget(g, h, left, nodes, r, x, l[k]); }
    if NothingAtSource(left, r) { RoundWithoutSource(g, h, r, x, l[k]); }
  }
}
