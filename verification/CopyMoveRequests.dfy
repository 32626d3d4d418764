/**
  COPY and MOVE as a whole (`_copy_or_move` of `wsgidav/request_server.py`): the removal of the
  source after a MOVE, and the state both leave behind for every pattern of failures.
*/
module CopyMoveRequests {
  import opened Uri
  import opened PathStrings
  import opened CopyPaths
  import opened Descendants
  import opened Providers
  import opened CopyMove

  // ---------------------------------------------------------------- removing the source

  /** A noted error stands at or below the collection. */
  ghost predicate Skipped(nodes: Nodes, r: Request, x: Failures, c: Path) {
    exists q :: Troubled(nodes, r, x, q) && c <= q
  }

  ghost predicate Removed(nodes: Nodes, r: Request, x: Failures, c: Path) {
    c in nodes && r.src <= c && nodes[c].Folder? && !Skipped(nodes, r, x, c) && c !in x.deletes
  }

  /** The removal is tried and ends in an error. */
  ghost predicate Refused(nodes: Nodes, r: Request, x: Failures, c: Path) {
    c in nodes && r.src <= c && nodes[c].Folder? && !Skipped(nodes, r, x, c) && c in x.deletes
  }

  ghost predicate RemovedSoFar(now: Nodes, mid: Nodes, nodes: Nodes, r: Request, x: Failures, seen: set<Path>) {
    forall p :: (p in now <==> p in mid && forall c :: c in seen && c <= p ==> !Removed(nodes, r, x, c)) && (p in now ==> now[p] == mid[p])
  }

  lemma RemoveStep(now: Nodes, now': Nodes, mid: Nodes, nodes: Nodes, r: Request, x: Failures, seen: set<Path>, q: Path)
    requires RemovedSoFar(now, mid, nodes, r, x, seen)
    requires now' == if Removed(nodes, r, x, q) then Without(now, q) else now
    ensures RemovedSoFar(now', mid, nodes, r, x, seen + {q})
  {
  }

  predicate SomeChild(ignore: seq<string>, path: string) {
    exists i :: 0 <= i < |ignore| && IsEqualOrChildUri(path, ignore[i])
  }

  method ChildError(ignore: seq<string>, path: string) returns (error: bool)
    ensures error <==> SomeChild(ignore, path)
  {
    for i := 0 to |ignore|
      invariant !SomeChild(ignore[..i], path)
    {
      if IsEqualOrChildUri(path, ignore[i]) { return true; }
    }
    assert ignore[..|ignore|] == ignore;
    return false;
  }

  lemma InPathsOf(l: seq<Resource>, p: Path)
    ensures p in PathsOf(l) <==> InList(l, p)
  {
  }

  lemma ListedPath(l: seq<Resource>, nodes: Nodes, root: Path, p: Path)
    requires Lists(l, nodes, root, false, true)
    ensures p in PathsOf(l) <==> p in nodes && root <= p
    ensures p in PathsOf(l) ==> Names(Rel(root, p))
  {
    if p in PathsOf(l) {
      var i :| 0 <= i < |l| && l[i].path == p;
      assert Listed(l[i], nodes, root, true);
    }
    if p in nodes && root <= p { assert InList(l, p); InPathsOf(l, p); }
  }

  lemma {:induction false} ChildErrorIff(ignore: seq<string>, l: seq<Resource>, s: Resource, nodes: Nodes, r: Request, x: Failures)
    requires Lists(l, nodes, r.src, false, true) && r.srcPath != "" && Listed(s, nodes, r.src, true)
    requires IgnoreIs(ignore, nodes, r, x, PathsOf(l))
    ensures SomeChild(ignore, r.SourceString(s.path, s.isCollection)) <==> Skipped(nodes, r, x, s.path)
  {
    var path := r.SourceString(s.path, s.isCollection);
    if SomeChild(ignore, path) {
      var i :| 0 <= i < |ignore| && IsEqualOrChildUri(path, ignore[i]);
      assert ignore[i] in ignore;
      var q :| q in PathsOf(l) && Troubled(nodes, r, x, q) && ignore[i] == r.SourceString(q, nodes[q].Folder?);
      ListedPath(l, nodes, r.src, q);
      StringPrefix(nodes, r, s.path, s.isCollection, q, nodes[q].Folder?);
    }
    if Skipped(nodes, r, x, s.path) {
      var q :| Troubled(nodes, r, x, q) && s.path <= q;
      ListedPath(l, nodes, r.src, q);
      StringPrefix(nodes, r, s.path, s.isCollection, q, nodes[q].Folder?);
      var i :| 0 <= i < |ignore| && ignore[i] == r.SourceString(q, nodes[q].Folder?);
    }
  }

  /** One entry for every refused removal, all under the name of the requested resource. */
  ghost function Refusals(l: seq<Resource>, nodes: Nodes, r: Request, x: Failures): seq<Path> {
    if l == [] then [] else Refusals(l[1..], nodes, r, x) + if Refused(nodes, r, x, l[0].path) then [r.src] else []
  }

  /** What the removal loop changes. */
  datatype Removal = Removal(now: Nodes, early: set<Path>, errors: seq<Path>)

  ghost function RemovalOf(prov: Provider, errors: seq<Path>): Removal
    reads prov
  {
    Removal(prov.nodes, prov.deletedTooEarly, errors)
  }

  /** One turn of the removal loop in terms of strings. */
  ghost predicate OneRemoval(g: Removal, h: Removal, ignore: seq<string>, r: Request, x: Failures, s: Resource)
    requires r.src <= s.path
  {
    var tried := s.isCollection && !SomeChild(ignore, r.SourceString(s.path, s.isCollection));
    var ok := tried && s.path !in x.deletes && s.path in g.now;
    && h.now == (if ok then Without(g.now, s.path) else g.now)
    && h.early == g.early + (if ok && HasMembers(g.now, s.path) then {s.path} else {})
    && h.errors == g.errors + (if tried && !ok then [r.src] else [])
  }

  /** The body of the removal loop. */
  method RemoveCollection(prov: Provider, r: Request, s: Resource, x: Failures, ignore: seq<string>, errors: seq<Path>)
    returns (errors': seq<Path>)
    requires r.src <= s.path
    modifies prov
    ensures OneRemoval(old(RemovalOf(prov, errors)), RemovalOf(prov, errors'), ignore, r, x, s)
    ensures prov.copiedAcross == old(prov.copiedAcross)
  {
    errors' := errors;
    if !s.isCollection { return; }
    var childError := ChildError(ignore, r.SourceString(s.path, s.isCollection));
    if childError { return; }
    var ok := prov.Delete(s.path, s.path in x.deletes);
    if !ok { errors' := errors + [r.src]; }
  }

  lemma PathsFrom(l: seq<Resource>, k: nat)
    requires k < |l|
    ensures PathsOf(l[k..]) == PathsOf(l[k + 1..]) + {l[k].path}
  {
  }

  /** A member of a collection that neither the copy loop nor its own removal takes away. */
  ghost predicate MemberStays(nodes: Nodes, r: Request, x: Failures, c: Path) {
    exists n: string :: c + [n] in nodes && !TakenAway(nodes, r, x, c + [n]) && !Removed(nodes, r, x, c + [n])
  }

  /** A collection that is removed with members left in it. */
  ghost predicate RemovedTooEarly(nodes: Nodes, r: Request, x: Failures, c: Path) {
    Removed(nodes, r, x, c) && MemberStays(nodes, r, x, c)
  }

  ghost predicate EarlyIs(early: set<Path>, before: set<Path>, nodes: Nodes, r: Request, x: Failures, seen: set<Path>) {
    forall p :: p in early <==> p in before || (p in seen && RemovedTooEarly(nodes, r, x, p))
  }

  /** What the removal loop starts from. */
  ghost predicate AllCopied(mid: Nodes, ignore: seq<string>, left: Nodes, nodes: Nodes, r: Request, x: Failures,
          l: seq<Resource>) {
    && IgnoreIs(ignore, nodes, r, x, PathsOf(l)) && CopiedSoFar(mid, left, nodes, r, x, PathsOf(l))
    && SourceIntact(left, nodes, r) && r.Separate() && TreeShaped(nodes) && Lists(l, nodes, r.src, false, true)
  }

  lemma OnlyBelowIsLater(l: seq<Resource>, k: nat, nodes: Nodes, root: Path, q: Path)
    requires k < |l| && Lists(l, nodes, root, false, true)
    ensures q in PathsOf(l[k + 1..]) ==> !(q <= l[k].path)
    ensures q in nodes && l[k].path < q ==> q in PathsOf(l[k + 1..])
  {
    if q in PathsOf(l[k + 1..]) {
      var i :| 0 <= i < |l[k + 1..]| && l[k + 1..][i].path == q;
      assert MayPrecede(l[k], l[k + 1 + i], false);
    }
    if q in nodes && l[k].path < q {
      assert Listed(l[k], nodes, root, true);
      assert InList(l, q);
      var i :| 0 <= i < |l| && l[i].path == q;
      assert i >= k || MayPrecede(l[i], l[k], false);
      assert i != k;
      assert l[k + 1..][i - k - 1] == l[i];
    }
  }

  /** At the source, the copy loop leaves all but the documents taken away. */
  lemma LeftAtSource(mid: Nodes, left: Nodes, nodes: Nodes, r: Request, x: Failures, l: seq<Resource>, p: Path)
    requires CopiedSoFar(mid, left, nodes, r, x, PathsOf(l)) && SourceIntact(left, nodes, r) && r.Separate()
    requires Lists(l, nodes, r.src, false, true) && r.src <= p
    ensures p in mid <==> p in nodes && !TakenAway(nodes, r, x, p)
  {
    ArrivedOutside(nodes, r, x, PathsOf(l), p);
    ListedPath(l, nodes, r.src, p);
  }

  /** At the source only the documents taken away are missing. */
  ghost predicate OnlyTakenMissing(mid: Nodes, nodes: Nodes, r: Request, x: Failures) {
    forall p :: r.src <= p ==> (p in mid <==> p in nodes && !TakenAway(nodes, r, x, p))
  }

  /** Everything below a collection has had its turn, nothing above it. */
  ghost predicate BelowSeen(seen: set<Path>, nodes: Nodes, c: Path) {
    && (forall q :: q in seen ==> !(q <= c))
    && (forall q :: q in nodes && c < q ==> q in seen)
  }

  lemma StayingMember(now: Nodes, mid: Nodes, nodes: Nodes, r: Request, x: Failures, c: Path, seen: set<Path>, p: Path)
    requires TreeShaped(nodes) && r.src <= c && OnlyTakenMissing(mid, nodes, r, x) && BelowSeen(seen, nodes, c)
    requires RemovedSoFar(now, mid, nodes, r, x, seen) && p in now && c < p
    ensures MemberStays(nodes, r, x, c)
  {
    var n := p[|c|];
    var m := c + [n];
    assert m <= p && c < m;
    NotRemovedAbove(now, mid, nodes, r, x, seen, p);
    NotTakenAbove(nodes, r, x, m, p);
  }

  /** Above what is there nothing was removed. */
  lemma NotRemovedAbove(now: Nodes, mid: Nodes, nodes: Nodes, r: Request, x: Failures, seen: set<Path>, p: Path)
    requires RemovedSoFar(now, mid, nodes, r, x, seen) && p in now
    ensures p in mid && forall m :: m in seen && m <= p ==> !Removed(nodes, r, x, m)
  {
  }

  /** Above a resource that is not taken away, nothing is. */
  lemma NotTakenAbove(nodes: Nodes, r: Request, x: Failures, m: Path, p: Path)
    requires TreeShaped(nodes) && p in nodes && m <= p && !TakenAway(nodes, r, x, p)
    ensures m in nodes && !TakenAway(nodes, r, x, m)
  {
    if m != p { AncestorIsFolder(nodes, m, p); }
  }

  lemma OneLonger(c: Path, n: string, q: Path)
    requires q <= c + [n]
    ensures q <= c || q == c + [n]
  {
  }

  /** What is not taken away, and neither removed nor below a removed collection, is there. */
  lemma StillThere(now: Nodes, mid: Nodes, nodes: Nodes, r: Request, x: Failures, seen: set<Path>, m: Path)
    requires r.src <= m && m in nodes && !TakenAway(nodes, r, x, m) && OnlyTakenMissing(mid, nodes, r, x)
    requires RemovedSoFar(now, mid, nodes, r, x, seen) && forall q :: q in seen && q <= m ==> !Removed(nodes, r, x, q)
    ensures m in now
  {
  }

  lemma MemberMeets(now: Nodes, mid: Nodes, nodes: Nodes, r: Request, x: Failures, c: Path, seen: set<Path>, n: string)
    requires r.src <= c && OnlyTakenMissing(mid, nodes, r, x) && BelowSeen(seen, nodes, c)
    requires RemovedSoFar(now, mid, nodes, r, x, seen)
    requires c + [n] in nodes && !TakenAway(nodes, r, x, c + [n]) && !Removed(nodes, r, x, c + [n])
    ensures HasMembers(now, c)
  {
    var m := c + [n];
    forall q | q in seen && q <= m ensures !Removed(nodes, r, x, q) { OneLonger(c, n, q); }
    StillThere(now, mid, nodes, r, x, seen, m);
    assert c < m;
  }

  lemma RemovalMeetsSets(now: Nodes, mid: Nodes, nodes: Nodes, r: Request, x: Failures, c: Path, seen: set<Path>)
    requires TreeShaped(nodes) && r.src <= c && c in nodes && nodes[c].Folder?
    requires OnlyTakenMissing(mid, nodes, r, x) && BelowSeen(seen, nodes, c) && RemovedSoFar(now, mid, nodes, r, x, seen)
    ensures c in now && (HasMembers(now, c) <==> MemberStays(nodes, r, x, c))
  {
    StillThere(now, mid, nodes, r, x, seen, c);
    if p :| p in now && c < p {
      StayingMember(now, mid, nodes, r, x, c, seen, p);
    }
    if n: string :| c + [n] in nodes && !TakenAway(nodes, r, x, c + [n]) && !Removed(nodes, r, x, c + [n]) {
      MemberMeets(now, mid, nodes, r, x, c, seen, n);
    }
  }

  /** When a collection comes up it is there, and has members exactly if one stays. */
  lemma RemovalMeets(now: Nodes, mid: Nodes, ignore: seq<string>, left: Nodes, nodes: Nodes, r: Request, x: Failures,
          l: seq<Resource>, k: nat)
    requires k < |l| && AllCopied(mid, ignore, left, nodes, r, x, l) && l[k].isCollection
    requires RemovedSoFar(now, mid, nodes, r, x, PathsOf(l[k + 1..]))
    ensures l[k].path in now && (HasMembers(now, l[k].path) <==> MemberStays(nodes, r, x, l[k].path))
  {
    var c, seen := l[k].path, PathsOf(l[k + 1..]);
    assert Listed(l[k], nodes, r.src, true);
    forall p | r.src <= p ensures p in mid <==> p in nodes && !TakenAway(nodes, r, x, p) {
      LeftAtSource(mid, left, nodes, r, x, l, p);
    }
    forall q { OnlyBelowIsLater(l, k, nodes, r.src, q); }
    RemovalMeetsSets(now, mid, nodes, r, x, c, seen);
  }

  lemma EarlyStep(early: set<Path>, early': set<Path>, before: set<Path>, nodes: Nodes, r: Request, x: Failures,
          seen: set<Path>, q: Path)
    requires EarlyIs(early, before, nodes, r, x, seen)
    requires early' == early + if RemovedTooEarly(nodes, r, x, q) then {q} else {}
    ensures EarlyIs(early', before, nodes, r, x, seen + {q})
  {
  }

  /** What the removal loop has done. */
  ghost predicate RemovedFrom(g: Removal, start: Removal, nodes: Nodes, r: Request, x: Failures, rest: seq<Resource>) {
    && RemovedSoFar(g.now, start.now, nodes, r, x, PathsOf(rest)) && EarlyIs(g.early, start.early, nodes, r, x, PathsOf(rest))
    && g.errors == start.errors + Refusals(rest, nodes, r, x)
  }

  /** What every turn of the removal loop keeps. */
  ghost predicate RemovalKeeps(g: Removal, start: Removal, ignore: seq<string>, left: Nodes, nodes: Nodes, r: Request,
          x: Failures, l: seq<Resource>, rest: seq<Resource>) {
    && (AllCopied(start.now, ignore, left, nodes, r, x, l) ==> RemovedFrom(g, start, nodes, r, x, rest))
    && (NothingAtSource(start.now, r) ==> g.now == start.now && g.early == start.early)
  }

  /** Collections are taken away in the reverse order, unless an error stands at or below them. */
  method RemoveSource(prov: Provider, r: Request, l: seq<Resource>, x: Failures, ignore: seq<string>,
          errors: seq<Path>, ghost left: Nodes, ghost nodes: Nodes)
    returns (errors': seq<Path>)
    requires r.srcPath != "" && forall i :: 0 <= i < |l| ==> r.src <= l[i].path
    modifies prov
    ensures RemovalKeeps(RemovalOf(prov, errors'), old(RemovalOf(prov, errors)), ignore, left, nodes, r, x, l, l)
    ensures prov.copiedAcross == old(prov.copiedAcross)
  {
    ghost var start := RemovalOf(prov, errors);
    errors' := errors;
    ghost var g := start;
    RemovalStarts(start, ignore, left, nodes, r, x, l);
    for k := |l| downto 0
      invariant g == RemovalOf(prov, errors') && RemovalKeeps(g, start, ignore, left, nodes, r, x, l, l[k..])
      invariant prov.copiedAcross == old(prov.copiedAcross)
    {
      errors' := RemoveCollection(prov, r, l[k], x, ignore, errors');
      ghost var h := RemovalOf(prov, errors');
      RemovalKeepsBoth(g, h, start, ignore, left, nodes, r, x, l, k);
      g := h;
    }
    assert l[0..] == l;
  }

  lemma RemovalStarts(start: Removal, ignore: seq<string>, left: Nodes, nodes: Nodes, r: Request, x: Failures, l: seq<Resource>)
    ensures RemovalKeeps(start, start, ignore, left, nodes, r, x, l, l[|l|..])
  {
  }

  lemma RemovalKeepsBoth(g: Removal, h: Removal, start: Removal, ignore: seq<string>, left: Nodes, nodes: Nodes, r: Request,
          x: Failures, l: seq<Resource>, k: nat)
    requires k < |l| && r.srcPath != "" && r.src <= l[k].path && OneRemoval(g, h, ignore, r, x, l[k])
    requires RemovalKeeps(g, start, ignore, left, nodes, r, x, l, l[k + 1..])
    ensures RemovalKeeps(h, start, ignore, left, nodes, r, x, l, l[k..])
  {
    if AllCopied(start.now, ignore, left, nodes, r, x, l) {
      RemovalStep(g, h, start, ignore, left, nodes, r, x, l, k);
    }
    if NothingAtSource(start.now, r) { NothingToRemove(g, h, ignore, r, x, l[k]); }
  }

  lemma NothingToRemove(g: Removal, h: Removal, ignore: seq<string>, r: Request, x: Failures, s: Resource)
    requires r.src <= s.path && OneRemoval(g, h, ignore, r, x, s) && NothingAtSource(g.now, r)
    ensures h.now == g.now && h.early == g.early
  {
  }

  lemma RemovalStep(g: Removal, h: Removal, start: Removal, ignore: seq<string>, left: Nodes, nodes: Nodes, r: Request,
          x: Failures, l: seq<Resource>, k: nat)
    requires k < |l| && AllCopied(start.now, ignore, left, nodes, r, x, l) && r.srcPath != "" && r.src <= l[k].path
    requires RemovedFrom(g, start, nodes, r, x, l[k + 1..]) && OneRemoval(g, h, ignore, r, x, l[k])
    ensures RemovedFrom(h, start, nodes, r, x, l[k..])
  {
    assert Listed(l[k], nodes, r.src, true);
    ChildErrorIff(ignore, l, l[k], nodes, r, x);
    if l[k].isCollection { RemovalMeets(g.now, start.now, ignore, left, nodes, r, x, l, k); }
    RemovedMore(g, h, start, nodes, r, x, l, k);
  }

  /** One more collection, in terms of what fails. */
  lemma RemovedMore(g: Removal, h: Removal, start: Removal, nodes: Nodes, r: Request, x: Failures, l: seq<Resource>, k: nat)
    requires k < |l| && RemovedFrom(g, start, nodes, r, x, l[k + 1..])
    requires h.now == if Removed(nodes, r, x, l[k].path) then Without(g.now, l[k].path) else g.now
    requires h.early == g.early + if RemovedTooEarly(nodes, r, x, l[k].path) then {l[k].path} else {}
    requires h.errors == g.errors + if Refused(nodes, r, x, l[k].path) then [r.src] else []
    ensures RemovedFrom(h, start, nodes, r, x, l[k..])
  {
    PathsFrom(l, k);
    RemoveStep(g.now, h.now, start.now, nodes, r, x, PathsOf(l[k + 1..]), l[k].path);
    EarlyStep(g.early, h.early, start.early, nodes, r, x, PathsOf(l[k + 1..]), l[k].path);
    assert l[k..][1..] == l[k + 1..];
  }

  // ---------------------------------------------------------------- the request

  /** The destination is deleted as a whole before anything is copied. */
  predicate ReplacesDest(nodes: Nodes, r: Request) {
    r.dest in nodes && (r.isMove || !nodes[r.dest].Folder? || !(r.src in nodes && nodes[r.src].Folder?))
  }

  /** A destination resource that the preparation leaves. */
  ghost predicate KeepsDest(nodes: Nodes, r: Request, p: Path) {
    r.dest in nodes && !ReplacesDest(nodes, r) && (p == r.dest || Matched(nodes, r, p))
  }

  ghost predicate PreparedIs(left: Nodes, nodes: Nodes, r: Request) {
    forall p :: (p in left <==> p in nodes && (r.dest <= p ==> KeepsDest(nodes, r, p))) && (p in left ==> left[p] == nodes[p])
  }

  /** A source resource that a MOVE took away, by itself or with a collection above it. */
  ghost predicate Gone(nodes: Nodes, r: Request, x: Failures, p: Path) {
    r.isMove && (TakenAway(nodes, r, x, p) || exists c :: c <= p && Removed(nodes, r, x, c))
  }

  ghost predicate CopiedTo(nodes: Nodes, r: Request, x: Failures, p: Path) {
    r.dest <= p && Copied(nodes, r, x, r.Source(p))
  }

  /** Copies land at the same places below the destination: at most one slash ends the source path, or there are no members. */
  ghost predicate TargetsParallel(nodes: Nodes, r: Request) {
    AtMostOneSlash(r.srcPath) || forall p :: p in nodes ==> !(r.src < p)
  }

  ghost predicate Landed(nodes: Nodes, r: Request, x: Failures, p: Path) {
    exists q :: Lands(nodes, r, x, q, p)
  }

  ghost predicate LandedValue(nodes: Nodes, r: Request, x: Failures, p: Path, v: Node) {
    exists q :: Lands(nodes, r, x, q, p) && v == nodes[q]
  }

  /** What is there after the request, wherever copies land. */
  ghost predicate Stands(nodes: Nodes, r: Request, x: Failures, p: Path) {
    if r.dest <= p then Landed(nodes, r, x, p) || (p in nodes && KeepsDest(nodes, r, p))
    else p in nodes && (r.src <= p ==> !Gone(nodes, r, x, p))
  }

  /** The state between separate places. Where several copies land, it holds one of them. */
  ghost predicate LandedIs(now: Nodes, nodes: Nodes, r: Request, x: Failures) {
    forall p :: (p in now <==> Stands(nodes, r, x, p))
                && (p in now ==> if Landed(nodes, r, x, p) then LandedValue(nodes, r, x, p, now[p]) else p in nodes && now[p] == nodes[p])
  }

  /** What is there after the request, where targets are parallel. */
  ghost predicate Present(nodes: Nodes, r: Request, x: Failures, p: Path) {
    if r.dest <= p then CopiedTo(nodes, r, x, p) || (p in nodes && KeepsDest(nodes, r, p))
    else p in nodes && (r.src <= p ==> !Gone(nodes, r, x, p))
  }

  /** What it is, if it is there: a copy, or what it was. */
  ghost function ValueAt(nodes: Nodes, r: Request, x: Failures, p: Path): Node {
    if CopiedTo(nodes, r, x, p) then nodes[r.Source(p)] else if p in nodes then nodes[p] else Folder
  }

  ghost predicate ResultIs(now: Nodes, nodes: Nodes, r: Request, x: Failures) {
    forall p :: (p in now <==> Present(nodes, r, x, p))
                && (p in now ==> now[p] == ValueAt(nodes, r, x, p))
  }

  /** A copy onto a resource of the other kind, where targets are parallel. */
  ghost predicate Crossed(nodes: Nodes, r: Request, x: Failures, p: Path) {
    CopiedTo(nodes, r, x, p) && p in nodes && KeepsDest(nodes, r, p) && nodes[p].Folder? != nodes[r.Source(p)].Folder?
  }

  /** A delete with members still in place: of the destination as a whole, or in the removal of the source. */
  ghost predicate TooEarly(nodes: Nodes, r: Request, x: Failures, p: Path) {
    || (p == r.dest && ReplacesDest(nodes, r) && HasMembers(nodes, p))
    || (r.isMove && RemovedTooEarly(nodes, r, x, p))
  }

  /** What a COPY onto a collection that contains the source leaves: nothing but what the clean-up left, and copies. */
  ghost predicate CopiedUpward(now: Nodes, nodes: Nodes, r: Request) {
    exists left :: CleanedIs(left, nodes, r) && OnlyTargets(now, left, nodes, r)
  }

  /** The store after a request that copied nothing across kinds. */
  ghost predicate Leaves(now: Nodes, nodes: Nodes, r: Request, x: Failures) {
    if !(r.dest <= r.src) then LandedIs(now, nodes, r, x) && (TargetsParallel(nodes, r) ==> ResultIs(now, nodes, r, x))
    else if ReplacesDest(nodes, r) then now == Without(nodes, r.dest)
    else CopiedUpward(now, nodes, r)
  }

  /** A removal at the destination fails before anything is copied. */
  ghost predicate CleanUpFails(nodes: Nodes, r: Request, cleans: set<Path>) {
    r.dest in nodes && if ReplacesDest(nodes, r) then r.dest in cleans else exists p :: CleanUpFailure(nodes, r, cleans, p)
  }

  /** What it leaves. */
  ghost predicate Stopped(now: Nodes, nodes: Nodes, r: Request, cleans: set<Path>) {
    if ReplacesDest(nodes, r) then now == nodes else PartlyCleaned(now, nodes, r, cleans)
  }

  ghost predicate EarlyPrepared(early: set<Path>, nodes: Nodes, r: Request) {
    early == if ReplacesDest(nodes, r) && HasMembers(nodes, r.dest) then {r.dest} else {}
  }

  /** The destination is removed, cleaned up, or not there. */
  method PrepareDestination(prov: Provider, r: Request, l: seq<Resource>, td: Tree, cleans: set<Path>) returns (ok: bool)
    requires TreeShaped(prov.nodes) && Checked(r, prov.nodes) && Lists(l, prov.nodes, r.src, false, true)
    requires r.dest in prov.nodes && prov.nodes[r.dest].Folder? ==> WellFormed(td) && Shows(td, prov.nodes, r.dest)
    requires prov.deletedTooEarly == {}
    modifies prov
    ensures prov.copiedAcross == old(prov.copiedAcross) && ok == !CleanUpFails(old(prov.nodes), r, cleans)
    ensures ok ==> PreparedIs(prov.nodes, old(prov.nodes), r) && EarlyPrepared(prov.deletedTooEarly, old(prov.nodes), r)
    ensures ok && ReplacesDest(old(prov.nodes), r) ==> prov.nodes == Without(old(prov.nodes), r.dest)
    ensures ok && r.dest in old(prov.nodes) && !ReplacesDest(old(prov.nodes), r) ==> CleanedIs(prov.nodes, old(prov.nodes), r)
    ensures !ok ==> Stopped(prov.nodes, old(prov.nodes), r, cleans) && prov.deletedTooEarly == {}
  {
    ghost var nodes := prov.nodes;
    NothingBelow(nodes, r.dest);
    ok := true;
    if r.dest in prov.nodes {
      if r.isMove || !prov.nodes[r.dest].Folder? || !prov.nodes[r.src].Folder? {
        ok := prov.Delete(r.dest, r.dest in cleans);
      } else {
        ok := RemoveUnmatched(prov, r, l, td, cleans);
      }
    }
  }

  lemma NothingBelow(nodes: Nodes, d: Path)
    requires TreeShaped(nodes)
    ensures d !in nodes || nodes[d].Document? ==> !HasMembers(nodes, d) && forall p :: p in nodes && d <= p ==> p == d
  {
    forall p | p in nodes && d <= p && p != d ensures d in nodes && nodes[d].Folder? {
      AncestorIsFolder(nodes, d, p);
    }
  }

  lemma PreparedIsIntact(left: Nodes, nodes: Nodes, r: Request)
    requires PreparedIs(left, nodes, r) && r.Separate()
    ensures SourceIntact(left, nodes, r)
  {
  }

  lemma AllListed(l: seq<Resource>, nodes: Nodes, root: Path)
    requires Lists(l, nodes, root, false, true)
    ensures forall p :: p in PathsOf(l) <==> p in nodes && root <= p
    ensures NamedBelow(nodes, root)
  {
    forall p ensures p in PathsOf(l) <==> p in nodes && root <= p { ListedPath(l, nodes, root, p); }
    forall p | p in nodes && root <= p ensures Names(Rel(root, p)) { ListedPath(l, nodes, root, p); }
  }

  ghost predicate NamedBelow(nodes: Nodes, root: Path) {
    forall p :: p in nodes && root <= p ==> Names(Rel(root, p))
  }

  // ---------------------------------------------------------------- the phases together

  lemma ArrivedIsLanded(nodes: Nodes, r: Request, x: Failures, done: set<Path>, p: Path)
    requires forall q :: q in done <==> q in nodes && r.src <= q
    ensures Arrived(nodes, r, x, done, p) <==> Landed(nodes, r, x, p)
    ensures forall v :: ValueFrom(nodes, r, x, done, p, v) <==> LandedValue(nodes, r, x, p, v)
  {
    if q :| Lands(nodes, r, x, q, p) { assert q in done; }
    forall v | LandedValue(nodes, r, x, p, v) ensures ValueFrom(nodes, r, x, done, p, v) {
      var q :| Lands(nodes, r, x, q, p) && v == nodes[q];
      assert q in done;
    }
  }

  /** The three phases together. */
  lemma Together(now: Nodes, mid: Nodes, left: Nodes, nodes: Nodes, r: Request, x: Failures, done: set<Path>)
    requires r.Separate() && PreparedIs(left, nodes, r)
    requires forall p :: p in done <==> p in nodes && r.src <= p
    requires CopiedSoFar(mid, left, nodes, r, x, done)
    requires if r.isMove then RemovedSoFar(now, mid, nodes, r, x, done) else now == mid
    ensures LandedIs(now, nodes, r, x)
  {
    forall p ensures p in now <==> Stands(nodes, r, x, p)
      ensures p in now ==> if Landed(nodes, r, x, p) then LandedValue(nodes, r, x, p, now[p]) else p in nodes && now[p] == nodes[p]
    {
      TogetherAt(now, mid, left, nodes, r, x, done, p);
    }
  }

  lemma TogetherAt(now: Nodes, mid: Nodes, left: Nodes, nodes: Nodes, r: Request, x: Failures, done: set<Path>, p: Path)
    requires r.Separate() && PreparedIs(left, nodes, r)
    requires forall p :: p in done <==> p in nodes && r.src <= p
    requires CopiedSoFar(mid, left, nodes, r, x, done)
    requires if r.isMove then RemovedSoFar(now, mid, nodes, r, x, done) else now == mid
    ensures p in now <==> Stands(nodes, r, x, p)
    ensures p in now ==> if Landed(nodes, r, x, p) then LandedValue(nodes, r, x, p, now[p]) else p in nodes && now[p] == nodes[p]
  {
    ArrivedIsLanded(nodes, r, x, done, p);
    NothingGoneAtDest(nodes, r, x, p);
  }

  lemma NothingGoneAtDest(nodes: Nodes, r: Request, x: Failures, p: Path)
    requires r.Separate()
    ensures r.dest <= p ==> !TakenAway(nodes, r, x, p) && forall c :: c <= p ==> !Removed(nodes, r, x, c)
  {
  }

  /** Where targets are parallel, a copy lands at the place of its source. */
  lemma LandingIsTarget(nodes: Nodes, r: Request, q: Path)
    requires TreeShaped(nodes) && Checked(r, nodes) && TargetsParallel(nodes, r) && NamedBelow(nodes, r.src)
    requires q in nodes && r.src <= q
    ensures Landing(nodes, r, q) == r.Target(q)
  {
    if q == r.src {
      assert From(r.srcPath, |r.srcPath|) == "" && r.destPath + "" == r.destPath && r.dest + [] == r.dest;
    } else {
      TargetOfListed(Resource(q, nodes[q].Folder?), nodes, r);
    }
  }

  lemma LandedIff(nodes: Nodes, r: Request, x: Failures, p: Path)
    requires TreeShaped(nodes) && Checked(r, nodes) && TargetsParallel(nodes, r) && NamedBelow(nodes, r.src)
    ensures Landed(nodes, r, x, p) <==> CopiedTo(nodes, r, x, p)
    ensures forall q :: Lands(nodes, r, x, q, p) ==> r.dest <= p && q == r.Source(p)
  {
    forall q | Lands(nodes, r, x, q, p) ensures r.dest <= p && q == r.Source(p) {
      LandingIsTarget(nodes, r, q);
      SourceOfTarget(r, q);
    }
    if CopiedTo(nodes, r, x, p) {
      LandingIsTarget(nodes, r, r.Source(p));
      SourceOfTarget(r, p);
      assert Lands(nodes, r, x, r.Source(p), p);
    }
  }

  lemma ParallelResult(now: Nodes, nodes: Nodes, r: Request, x: Failures)
    requires TreeShaped(nodes) && Checked(r, nodes) && TargetsParallel(nodes, r) && NamedBelow(nodes, r.src)
    requires LandedIs(now, nodes, r, x)
    ensures ResultIs(now, nodes, r, x)
  {
    forall p ensures p in now <==> Present(nodes, r, x, p)
      ensures p in now ==> now[p] == ValueAt(nodes, r, x, p)
    {
      LandedIff(nodes, r, x, p);
      assert p in now <==> Stands(nodes, r, x, p);
    }
  }

  /** Some copy goes across kinds. */
  ghost predicate Crossing(nodes: Nodes, r: Request, x: Failures) {
    || (exists q, p :: OntoOther(nodes, nodes, r, x, q, p) && KeepsDest(nodes, r, p))
    || (exists q, o, p :: TwoKinds(nodes, r, x, q, o, p))
  }

  lemma SomeCrossingIs(left: Nodes, nodes: Nodes, r: Request, x: Failures, done: set<Path>)
    requires PreparedIs(left, nodes, r) && forall p :: p in done <==> p in nodes && r.src <= p
    ensures SomeCrossing(left, nodes, r, x) ==> Crossing(nodes, r, x)
    ensures NoneAcross(left, nodes, r, x, done) ==> !Crossing(nodes, r, x)
  {
    if q, p :| OntoOther(left, nodes, r, x, q, p) {
      assert OntoOther(nodes, nodes, r, x, q, p);
    }
    if q, p :| OntoOther(nodes, nodes, r, x, q, p) && KeepsDest(nodes, r, p) {
      assert OntoOther(left, nodes, r, x, q, p) && q in done;
    }
    if q, o, p :| TwoKinds(nodes, r, x, q, o, p) {
      assert q in done && o in done;
    }
  }

  /** Where targets are parallel, that is a copy onto a resource that was there. */
  lemma CrossingIsCrossed(nodes: Nodes, r: Request, x: Failures)
    requires TreeShaped(nodes) && Checked(r, nodes) && TargetsParallel(nodes, r) && NamedBelow(nodes, r.src)
    ensures Crossing(nodes, r, x) <==> exists p :: Crossed(nodes, r, x, p)
  {
    if q, p :| OntoOther(nodes, nodes, r, x, q, p) && KeepsDest(nodes, r, p) {
      LandedIff(nodes, r, x, p);
      assert Crossed(nodes, r, x, p);
    }
    if q, o, p :| TwoKinds(nodes, r, x, q, o, p) {
      LandedIff(nodes, r, x, p);
    }
    if p :| Crossed(nodes, r, x, p) {
      LandedIff(nodes, r, x, p);
      var q :| Lands(nodes, r, x, q, p);
      assert OntoOther(nodes, nodes, r, x, q, p);
    }
  }

  lemma {:induction false} TroublesIff(l: seq<Resource>, nodes: Nodes, r: Request, x: Failures, p: Path)
    ensures p in Troubles(l, nodes, r, x) <==> InList(l, p) && Troubled(nodes, r, x, p)
  {
    if l != [] {
      TroublesIff(l[..|l| - 1], nodes, r, x, p);
      InListSnoc(l, p);
    }
  }

  lemma {:induction false} RefusalsIff(l: seq<Resource>, nodes: Nodes, r: Request, x: Failures, p: Path)
    ensures p in Refusals(l, nodes, r, x) <==> p == r.src && exists c :: InList(l, c) && Refused(nodes, r, x, c)
  {
    if l != [] {
      RefusalsIff(l[1..], nodes, r, x, p);
      forall c ensures InList(l, c) <==> l[0].path == c || InList(l[1..], c) { InListCons(l, c); }
    }
  }

  lemma InListCons(l: seq<Resource>, c: Path)
    requires l != []
    ensures InList(l, c) <==> l[0].path == c || InList(l[1..], c)
  {
    if InList(l[1..], c) {
      var i :| 0 <= i < |l[1..]| && l[1..][i].path == c;
      assert l[i + 1].path == c;
    }
    if i :| 0 <= i < |l| && l[i].path == c {
      if i > 0 { assert l[1..][i - 1].path == c; }
    }
  }

  /** What a request between separate places has come to. */
  ghost predicate OutcomeIs(now: Nodes, early: set<Path>, errors: seq<Path>, nodes: Nodes, r: Request, x: Failures,
          l: seq<Resource>) {
    && LandedIs(now, nodes, r, x) && (forall p :: p in early <==> TooEarly(nodes, r, x, p))
    && errors == Troubles(l, nodes, r, x) + if r.isMove then Refusals(l, nodes, r, x) else []
  }

  /** What the copy loop starts from, and what it and the removal loop come to. */
  ghost predicate AllPhases(end: Removal, g: Progress, left: Nodes, nodes: Nodes, r: Request, x: Failures, l: seq<Resource>) {
    && PreparedIs(left, nodes, r) && ProgressIs(g, left, nodes, r, x, l)
    && EarlyPrepared(g.early, nodes, r)
    && if r.isMove then RemovedFrom(end, Removal(g.now, g.early, g.errors), nodes, r, x, l)
       else end == Removal(g.now, g.early, g.errors)
  }

  lemma EarlyTogether(end: Removal, g: Progress, left: Nodes, nodes: Nodes, r: Request, x: Failures, l: seq<Resource>)
    requires Lists(l, nodes, r.src, false, true) && AllPhases(end, g, left, nodes, r, x, l)
    ensures forall p :: p in end.early <==> TooEarly(nodes, r, x, p)
  {
    AllListed(l, nodes, r.src);
  }

  lemma OutcomeTogether(end: Removal, g: Progress, left: Nodes, nodes: Nodes, r: Request, x: Failures, l: seq<Resource>)
    requires r.Separate() && Lists(l, nodes, r.src, false, true) && AllPhases(end, g, left, nodes, r, x, l)
    ensures OutcomeIs(end.now, end.early, end.errors, nodes, r, x, l)
  {
    AllListed(l, nodes, r.src);
    EarlyTogether(end, g, left, nodes, r, x, l);
    Together(end.now, g.now, left, nodes, r, x, PathsOf(l));
  }

  /** A source path that does not end in exactly one slash has nothing matched: an upward clean-up takes all of the source. */
  lemma UpwardLeavesNothing(left: Nodes, nodes: Nodes, r: Request)
    requires CleanedIs(left, nodes, r) && r.dest < r.src && !Slashed(r.srcPath)
    ensures NothingAtSource(left, r)
  {
  }

  /** The copy loop and, for a MOVE, the removal of the source. */
  method CopyAndRemove(prov: Provider, r: Request, l: seq<Resource>, x: Failures, ghost nodes: Nodes)
    returns (errors: seq<Path>)
    requires TreeShaped(nodes) && Checked(r, nodes) && Lists(l, nodes, r.src, false, true)
    requires prov.copiedAcross == {}
    modifies prov
    ensures Proper(r, nodes) && PreparedIs(old(prov.nodes), nodes, r) ==> (prov.copiedAcross == {} <==> !Crossing(nodes, r, x))
    ensures Proper(r, nodes) && PreparedIs(old(prov.nodes), nodes, r) && prov.copiedAcross == {} ==>
              EarlyPrepared(old(prov.deletedTooEarly), nodes, r) ==> OutcomeIs(prov.nodes, prov.deletedTooEarly, errors, nodes, r, x, l)
    ensures AtMostOneSlash(r.srcPath) && !r.isMove && prov.copiedAcross == {} ==> OnlyTargets(prov.nodes, old(prov.nodes), nodes, r)
    ensures NothingAtSource(old(prov.nodes), r) ==>
              prov.nodes == old(prov.nodes) && prov.copiedAcross == {} && prov.deletedTooEarly == old(prov.deletedTooEarly)
  {
    ghost var left := prov.nodes;
    if Proper(r, nodes) && PreparedIs(left, nodes, r) { PreparedIsIntact(left, nodes, r); }
    var ignore;
    ignore, errors := CopyAll(prov, r, l, x, nodes);
    ghost var g := ProgressOf(prov, ignore, errors);
    if r.isMove {
      assert forall i :: 0 <= i < |l| ==> Listed(l[i], nodes, r.src, true);
      errors := RemoveSource(prov, r, l, x, ignore, errors, left, nodes);
    }
    if Proper(r, nodes) && PreparedIs(left, nodes, r) {
      AllListed(l, nodes, r.src);
      SomeCrossingIs(left, nodes, r, x, PathsOf(l));
      if prov.copiedAcross == {} && EarlyPrepared(g.early, nodes, r) {
        OutcomeTogether(RemovalOf(prov, errors), g, left, nodes, r, x, l);
      }
    }
  }

  /**
    COPY or MOVE, file by file, after the checks. `cleans` says which removals at the destination
    end in an error, which aborts the request; `x` which copies and which removals at the source.
  */
  method CopyOrMove(prov: Provider, r: Request, t: Tree, td: Tree, cleans: set<Path>, x: Failures)
    returns (ok: bool, errors: seq<Path>)
    requires TreeShaped(prov.nodes) && Checked(r, prov.nodes) && WellFormed(t) && Shows(t, prov.nodes, r.src)
    requires r.dest in prov.nodes && prov.nodes[r.dest].Folder? ==> WellFormed(td) && Shows(td, prov.nodes, r.dest)
    requires prov.copiedAcross == {} && prov.deletedTooEarly == {}
    modifies prov
    ensures ok == !CleanUpFails(old(prov.nodes), r, cleans)
    ensures !ok ==> Stopped(prov.nodes, old(prov.nodes), r, cleans) && prov.copiedAcross == {} && prov.deletedTooEarly == {}
    ensures ok && Proper(r, old(prov.nodes)) ==> (prov.copiedAcross == {} <==> !Crossing(old(prov.nodes), r, x))
    ensures ok && Proper(r, old(prov.nodes)) && prov.copiedAcross == {} ==>
              OutcomeIs(prov.nodes, prov.deletedTooEarly, errors, old(prov.nodes), r, x, Listing(t, r.src, ALL, true))
    ensures ok && r.dest < r.src && ReplacesDest(old(prov.nodes), r) ==> prov.copiedAcross == {} && prov.deletedTooEarly == {r.dest}
    ensures ok && !(r.src <= r.dest) && prov.copiedAcross == {} ==> Leaves(prov.nodes, old(prov.nodes), r, x)
  {
    ghost var nodes := prov.nodes;
    var l := GetDescendants(t, r.src, ALL, true);
    DescendantsAreListed(t, nodes, r.src, false, true);
    ok := PrepareDestination(prov, r, l, td, cleans);
    if !ok { return false, []; }
    ghost var left := prov.nodes;
    if r.dest < r.src {
      AncestorIsFolder(nodes, r.dest, r.src);
      if !ReplacesDest(nodes, r) && !AtMostOneSlash(r.srcPath) { UpwardLeavesNothing(left, nodes, r); }
    }
    errors := CopyAndRemove(prov, r, l, x, nodes);
    if Proper(r, nodes) && TargetsParallel(nodes, r) && prov.copiedAcross == {} {
      AllListed(l, nodes, r.src);
      ParallelResult(prov.nodes, nodes, r, x);
    }
  }

  const ALL := Query(true, true, false, Infinity)
}
