/**
  `get_descendants` of `wsgidav/dav_provider.py`: the list of the resources below a resource,
  containers before or after their contents.
*/
module Descendants {
  import opened Wrappers
  import opened PathStrings

  /** A resource with all its members. */
  datatype Tree = File | Collection(members: seq<Member>)

  datatype Member = Member(name: string, tree: Tree)

  datatype Resource = Resource(path: Path, isCollection: bool)

  datatype Depth = Zero | One | Infinity

  /** What is asked for: the kinds, the order, the depth. */
  datatype Query = Query(collections: bool, resources: bool, depthFirst: bool, depth: Depth)

  /** Member names are names, and different members have different ones. */
  ghost predicate WellFormed(t: Tree)
    decreases t
  {
    t.Collection? ==>
      && (forall m :: m in t.members ==> IsName(m.name) && WellFormed(m.tree))
      && (forall i, j :: 0 <= i < j < |t.members| ==> t.members[i].name != t.members[j].name)
  }

  predicate Wants(q: Query, t: Tree) {
    (q.collections && t.Collection?) || (q.resources && !t.Collection?)
  }

  function Self(t: Tree, path: Path): Resource {
    Resource(path, t.Collection?)
  }

  function Listing(t: Tree, path: Path, q: Query, addSelf: bool): seq<Resource>
    decreases t, 0
  {
    (if addSelf && !q.depthFirst then [Self(t, path)] else [])
    + (if q.depth != Zero && t.Collection? then MemberListing(t.members, path, q) else [])
    + (if addSelf && q.depthFirst then [Self(t, path)] else [])
  }

  function MemberListing(ms: seq<Member>, path: Path, q: Query): seq<Resource>
    decreases ms, 0
  {
    if ms == [] then []
    else OneMember(ms[0], path, q) + MemberListing(ms[1..], path, q)
  }

  function OneMember(m: Member, path: Path, q: Query): seq<Resource>
    decreases m, 1
  {
    var p := path + [m.name];
    (if Wants(q, m.tree) && !q.depthFirst then [Self(m.tree, p)] else [])
    + (if m.tree.Collection? && q.depth == Infinity then Listing(m.tree, p, q, false) else [])
    + (if Wants(q, m.tree) && q.depthFirst then [Self(m.tree, p)] else [])
  }

  lemma {:induction false} MemberListingSnoc(ms: seq<Member>, i: nat, path: Path, q: Query)
    requires i < |ms|
    ensures MemberListing(ms[..i + 1], path, q) == MemberListing(ms[..i], path, q) + OneMember(ms[i], path, q)
    decreases i
  {
    var long, short := ms[..i + 1], ms[..i];
    if i == 0 {
      assert long == [ms[0]] && long[1..] == [] && short == [];
    } else {
      MemberListingSnoc(ms[1..], i - 1, path, q);
      assert long[1..] == ms[1..][..i] && short[1..] == ms[1..][..i - 1];
      assert ms[1..][i - 1] == ms[i];
      assert long[0] == short[0] == ms[0];
    }
  }

  lemma Regroup(a: seq<Resource>, b: seq<Resource>, c: seq<Resource>)
    ensures (a + b) + c == a + (b + c)
  {
  }

  method GetDescendants(t: Tree, path: Path, q: Query, addSelf: bool) returns (res: seq<Resource>)
    ensures res == Listing(t, path, q, addSelf)
    decreases t, 0
  {
    res := [];
    if addSelf && !q.depthFirst {
      res := res + [Self(t, path)];
    }
    if q.depth != Zero && t.Collection? {
      ghost var start := res;
      for i := 0 to |t.members|
        invariant res == start + MemberListing(t.members[..i], path, q)
      {
        var own := VisitMember(t.members[i], path, q);
        MemberListingSnoc(t.members, i, path, q);
        Regroup(start, MemberListing(t.members[..i], path, q), own);
        res := res + own;
      }
      assert t.members[..|t.members|] == t.members;
    }
    if addSelf && q.depthFirst {
      res := res + [Self(t, path)];
    }
  }

  /** The body of the loop over the members. */
  method VisitMember(child: Member, path: Path, q: Query) returns (res: seq<Resource>)
    ensures res == OneMember(child, path, q)
    decreases child, 1
  {
    res := [];
    var p := path + [child.name];
    var want := (q.collections && child.tree.Collection?) || (q.resources && !child.tree.Collection?);
    if want && !q.depthFirst {
      res := res + [Self(child.tree, p)];
    }
    if child.tree.Collection? && q.depth == Infinity {
      var below := GetDescendants(child.tree, p, q, false);
      res := res + below;
    }
    if want && q.depthFirst {
      res := res + [Self(child.tree, p)];
    }
  }

  // ---------------------------------------------------------------- exactness

  function Find(ms: seq<Member>, name: string): Option<Tree> {
    if ms == [] then None else if ms[0].name == name then Some(ms[0].tree) else Find(ms[1..], name)
  }

  /** The resource at some segments below a tree. */
  function Lookup(t: Tree, rel: Path): Option<Tree>
    decreases |rel|
  {
    if rel == [] then Some(t)
    else if !t.Collection? then None
    else match Find(t.members, rel[0]) case None => None case Some(s) => Lookup(s, rel[1..])
  }

  /** Whether the resource at `rel` is to be listed. */
  predicate Picks(t: Tree, rel: Path, isCollection: bool, q: Query, addSelf: bool) {
    && Lookup(t, rel).Some?
    && isCollection == Lookup(t, rel).value.Collection?
    && if rel == [] then addSelf
       else (if isCollection then q.collections else q.resources) && (q.depth == Infinity || (q.depth == One && |rel| == 1))
  }

  predicate InListing(l: seq<Resource>, path: Path, rel: Path, isCollection: bool) {
    Resource(path + rel, isCollection) in l
  }

  lemma {:induction false} ListedBelow(t: Tree, path: Path, q: Query, addSelf: bool)
    ensures forall r :: r in Listing(t, path, q, addSelf) ==> path <= r.path
    ensures forall r :: r in Listing(t, path, q, false) ==> path < r.path
    decreases t, 0
  {
    if t.Collection? { MembersListedBelow(t.members, path, q); }
  }

  lemma {:induction false} MembersListedBelow(ms: seq<Member>, path: Path, q: Query)
    ensures forall r :: r in MemberListing(ms, path, q) ==> path < r.path && exists m :: m in ms && r.path[|path|] == m.name
    decreases ms, 0
  {
    if ms != [] {
      OneListedBelow(ms[0], path, q);
      MembersListedBelow(ms[1..], path, q);
      assert ms[0] in ms && forall m :: m in ms[1..] ==> m in ms;
    }
  }

  lemma {:induction false} OneListedBelow(m: Member, path: Path, q: Query)
    ensures forall r :: r in OneMember(m, path, q) ==> path < r.path && path + [m.name] <= r.path && r.path[|path|] == m.name
    decreases m, 1
  {
    var p := path + [m.name];
    ListedBelow(m.tree, p, q, false);
    assert p[|path|] == m.name && path < p;
  }

  lemma ListingParts(t: Tree, path: Path, q: Query, addSelf: bool, r: Resource)
    ensures r in Listing(t, path, q, addSelf) <==>
              (addSelf && r == Self(t, path)) || (q.depth != Zero && t.Collection? && r in MemberListing(t.members, path, q))
  {
  }

  lemma {:induction false} ListingIsExact(t: Tree, path: Path, q: Query, addSelf: bool, rel: Path, k: bool)
    requires WellFormed(t)
    ensures InListing(Listing(t, path, q, addSelf), path, rel, k) <==> Picks(t, rel, k, q, addSelf)
    decreases t, 0
  {
    ListingParts(t, path, q, addSelf, Resource(path + rel, k));
    if rel == [] {
      assert path + rel == path;
      if t.Collection? { MembersListedBelow(t.members, path, q); }
    } else {
      assert path + rel != path by { assert |path + rel| > |path|; }
      if t.Collection? && q.depth != Zero {
        MembersAreExact(t.members, path, q, rel, k);
      }
    }
  }

  lemma {:induction false} MembersAreExact(ms: seq<Member>, path: Path, q: Query, rel: Path, k: bool)
    requires forall m :: m in ms ==> IsName(m.name) && WellFormed(m.tree)
    requires forall i, j :: 0 <= i < j < |ms| ==> ms[i].name != ms[j].name
    requires rel != [] && q.depth != Zero
    ensures InListing(MemberListing(ms, path, q), path, rel, k) <==>
              Find(ms, rel[0]).Some? && PicksBelow(Find(ms, rel[0]).value, rel[1..], k, q)
    decreases ms, 0
  {
    if ms != [] {
      MembersAreExact(ms[1..], path, q, rel, k);
      MembersListedBelow(ms[1..], path, q);
      OneListedBelow(ms[0], path, q);
      assert (path + rel)[|path|] == rel[0];
      if ms[0].name == rel[0] {
        OneIsExact(ms[0], path, q, rel, k);
        forall m | m in ms[1..] ensures m.name != rel[0] {
          var i :| 0 <= i < |ms[1..]| && ms[1..][i] == m;
          assert ms[i + 1] == m;
        }
      }
    }
  }

  /** What a member contributes, seen from the member. */
  predicate PicksBelow(t: Tree, rel: Path, k: bool, q: Query) {
    && Lookup(t, rel).Some? && k == Lookup(t, rel).value.Collection? && (if k then q.collections else q.resources)
    && (q.depth == Infinity || rel == [])
  }

  lemma {:induction false} OneIsExact(m: Member, path: Path, q: Query, rel: Path, k: bool)
    requires WellFormed(m.tree) && rel != [] && rel[0] == m.name && q.depth != Zero
    ensures InListing(OneMember(m, path, q), path, rel, k) <==> PicksBelow(m.tree, rel[1..], k, q)
    decreases m, 1
  {
    var p := path + [m.name];
    assert path + rel == p + rel[1..];
    ListedBelow(m.tree, p, q, false);
    if m.tree.Collection? && q.depth == Infinity {
      ListingIsExact(m.tree, p, q, false, rel[1..], k);
    }
    if rel[1..] == [] {
      assert p + rel[1..] == p;
    } else {
      assert |p + rel[1..]| > |p|;
    }
  }

  // ---------------------------------------------------------------- order

  /** Whether the first of two resources may stand before the second. */
  predicate MayPrecede(a: Resource, b: Resource, depthFirst: bool) {
    if depthFirst then !(a.path <= b.path) else !(b.path <= a.path)
  }

  /** No resource twice; containers after their contents, or before them. */
  predicate Ordered(l: seq<Resource>, depthFirst: bool) {
    forall i, j :: 0 <= i < j < |l| ==> MayPrecede(l[i], l[j], depthFirst)
  }

  lemma OrderedConcat(a: seq<Resource>, b: seq<Resource>, depthFirst: bool)
    requires Ordered(a, depthFirst) && Ordered(b, depthFirst)
    requires forall x, y :: x in a && y in b ==> MayPrecede(x, y, depthFirst)
    ensures Ordered(a + b, depthFirst)
  {
  }

  lemma {:induction false} ListingIsOrdered(t: Tree, path: Path, q: Query, addSelf: bool)
    requires WellFormed(t)
    ensures Ordered(Listing(t, path, q, addSelf), q.depthFirst)
    decreases t, 0
  {
    if q.depth != Zero && t.Collection? {
      MembersAreOrdered(t.members, path, q);
      MembersListedBelow(t.members, path, q);
      var l, s := MemberListing(t.members, path, q), [Self(t, path)];
      if q.depthFirst { OrderedConcat(l, s, true); } else { OrderedConcat(s, l, false); }
      assert l + [] == l && [] + l == l;
    }
  }

  lemma {:induction false} MembersAreOrdered(ms: seq<Member>, path: Path, q: Query)
    requires forall m :: m in ms ==> IsName(m.name) && WellFormed(m.tree)
    requires forall i, j :: 0 <= i < j < |ms| ==> ms[i].name != ms[j].name
    ensures Ordered(MemberListing(ms, path, q), q.depthFirst)
    decreases ms, 0
  {
    if ms != [] {
      OneIsOrdered(ms[0], path, q);
      MembersAreOrdered(ms[1..], path, q);
      OneListedBelow(ms[0], path, q);
      MembersListedBelow(ms[1..], path, q);
      forall m | m in ms[1..] ensures m.name != ms[0].name {
        var i :| 0 <= i < |ms[1..]| && ms[1..][i] == m;
        assert ms[i + 1] == m;
      }
      OrderedConcat(OneMember(ms[0], path, q), MemberListing(ms[1..], path, q), q.depthFirst);
    }
  }

  lemma {:induction false} OneIsOrdered(m: Member, path: Path, q: Query)
    requires WellFormed(m.tree)
    ensures Ordered(OneMember(m, path, q), q.depthFirst)
    decreases m, 1
  {
    var p := path + [m.name];
    var l := if m.tree.Collection? && q.depth == Infinity then Listing(m.tree, p, q, false) else [];
    var s := if Wants(q, m.tree) then [Self(m.tree, p)] else [];
    ListingIsOrdered(m.tree, p, q, false);
    ListedBelow(m.tree, p, q, false);
    if q.depthFirst { OrderedConcat(l, s, true); } else { OrderedConcat(s, l, false); }
    assert OneMember(m, path, q) == if q.depthFirst then l + s else s + l;
  }
}
