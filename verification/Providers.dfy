/**
  The DAV provider below the tree operations of `wsgidav/request_server.py`: a finite tree of
  resources keyed by the segments of their paths, with the two operations on single resources
  that `wsgidav/dav_provider.py` documents, `delete` and `copy_move_single`.
*/
module Providers {
  import opened PathStrings
  import opened Descendants

  /** A collection, or a resource with its content. */
  datatype Node = Folder | Document(body: string)

  type Nodes = map<Path, Node>

  /** Every resource but the share itself stands in a collection. */
  ghost predicate TreeShaped(nodes: Nodes) {
    forall p: Path, n: string :: p + [n] in nodes ==> p in nodes && nodes[p].Folder?
  }

  /** What a recursive delete leaves. */
  function Without(nodes: Nodes, p: Path): Nodes {
    map q | q in nodes && !(p <= q) :: nodes[q]
  }

  ghost predicate HasMembers(nodes: Nodes, p: Path) {
    exists q :: q in nodes && p < q
  }

  /** Whether a copy would land on a resource of the other kind. */
  predicate IsAcross(nodes: Nodes, p: Path, dest: Path)
    requires p in nodes
  {
    dest in nodes && nodes[dest].Folder? != nodes[p].Folder?
  }

  class Provider {
    var nodes: Nodes
    /**
      The collections deleted while members were left: `delete` documents that callers see to it
      that there are none.
    */
    ghost var deletedTooEarly: set<Path>
    /** The copies onto a resource of the other kind, which `copy_move_single` asks its callers to avoid. */
    ghost var copiedAcross: set<Path>

    constructor (nodes: Nodes)
      ensures this.nodes == nodes && deletedTooEarly == {} && copiedAcross == {}
    {
      this.nodes, deletedTooEarly, copiedAcross := nodes, {}, {};
    }

    /**
      `delete`, recursive where there is something below. It fails with a DAVError before
      anything is done, or because the resource is not there.
    */
    method Delete(p: Path, fails: bool) returns (ok: bool)
      modifies this
      ensures ok == (!fails && p in old(nodes))
      ensures nodes == if ok then Without(old(nodes), p) else old(nodes)
      ensures deletedTooEarly == old(deletedTooEarly) + if ok && HasMembers(old(nodes), p) then {p} else {}
      ensures copiedAcross == old(copiedAcross)
    {
      ok := !fails && p in nodes;
      if ok {
        if HasMembers(nodes, p) { deletedTooEarly := deletedTooEarly + {p}; }
        nodes := map q | q in nodes && !(p <= q) :: nodes[q];
      }
    }

    /**
      `copy_move_single`: one resource without its members. It fails with an error before
      anything is done, or because the resource is not there. What becomes of the store if
      `dest` is of the other kind is not specified.
    */
    method CopyMoveSingle(p: Path, dest: Path, fails: bool) returns (ok: bool)
      modifies this
      ensures ok == (!fails && p in old(nodes))
      ensures var across := ok && IsAcross(old(nodes), p, dest);
              && (!across ==> nodes == if ok then old(nodes)[dest := old(nodes)[p]] else old(nodes))
              && copiedAcross == old(copiedAcross) + (if across then {dest} else {})
      ensures deletedTooEarly == old(deletedTooEarly)
    {
      ok := !fails && p in nodes;
      if ok {
        if IsAcross(nodes, p, dest) {
          copiedAcross := copiedAcross + {dest};
          nodes := *;
        } else {
          nodes := nodes[dest := nodes[p]];
        }
      }
    }

    method Exists(p: Path) returns (found: bool)
      ensures found <==> p in nodes
    {
      found := p in nodes;
    }
  }

  // ---------------------------------------------------------------- lists of resources

  function Rel(root: Path, p: Path): Path
    requires root <= p
  {
    p[|root|..]
  }

  /** A list with every resource at or below `root` once, containers before or after their contents. */
  ghost predicate Lists(l: seq<Resource>, nodes: Nodes, root: Path, depthFirst: bool, addSelf: bool) {
    && Ordered(l, depthFirst)
    && (forall i :: 0 <= i < |l| ==> Listed(l[i], nodes, root, addSelf))
    && (forall p {:trigger InList(l, p)} :: p in nodes && root <= p && (addSelf || p != root) ==> InList(l, p))
  }

  predicate InList(l: seq<Resource>, p: Path) {
    exists i :: 0 <= i < |l| && l[i].path == p
  }

  lemma InListSnoc(l: seq<Resource>, p: Path)
    requires l != []
    ensures InList(l, p) <==> InList(l[..|l| - 1], p) || l[|l| - 1].path == p
  {
    var n := |l| - 1;
    if InList(l[..n], p) {
      var i :| 0 <= i < n && l[..n][i].path == p;
      assert l[i].path == p;
    }
    if i :| 0 <= i < |l| && l[i].path == p {
      assert i < n ==> l[..n][i].path == p;
    }
  }

  ghost predicate Listed(r: Resource, nodes: Nodes, root: Path, addSelf: bool) {
    && root <= r.path && r.path in nodes && r.isCollection == nodes[r.path].Folder?
    && (addSelf || r.path != root) && Names(Rel(root, r.path))
  }

  /** The tree is what the provider holds at and below `root`. */
  ghost predicate Shows(t: Tree, nodes: Nodes, root: Path) {
    forall rel :: (root + rel in nodes <==> Lookup(t, rel).Some?)
                  && (root + rel in nodes ==> nodes[root + rel].Folder? == Lookup(t, rel).value.Collection?)
  }

  lemma {:induction false} FoundMember(ms: seq<Member>, name: string)
    requires Find(ms, name).Some?
    ensures exists m :: m in ms && m.name == name && m.tree == Find(ms, name).value
  {
    if ms[0].name != name {
      FoundMember(ms[1..], name);
      var m :| m in ms[1..] && m.name == name && m.tree == Find(ms[1..], name).value;
      assert m in ms;
    } else {
      assert ms[0] in ms;
    }
  }

  lemma {:induction false} LookupNames(t: Tree, rel: Path)
    requires WellFormed(t) && Lookup(t, rel).Some?
    ensures Names(rel)
    decreases |rel|
  {
    if rel != [] {
      FoundMember(t.members, rel[0]);
      var m :| m in t.members && m.name == rel[0] && m.tree == Find(t.members, rel[0]).value;
      LookupNames(m.tree, rel[1..]);
      assert forall i :: 0 < i < |rel| ==> rel[i] == rel[1..][i - 1];
    }
  }

  /** `get_descendants` with depth infinity lists what the provider holds. */
  lemma DescendantsAreListed(t: Tree, nodes: Nodes, root: Path, depthFirst: bool, addSelf: bool)
    requires WellFormed(t) && Shows(t, nodes, root)
    ensures Lists(Listing(t, root, Query(true, true, depthFirst, Infinity), addSelf), nodes, root, depthFirst, addSelf)
  {
    var q := Query(true, true, depthFirst, Infinity);
    var l := Listing(t, root, q, addSelf);
    ListingIsOrdered(t, root, q, addSelf);
    forall i | 0 <= i < |l| ensures Listed(l[i], nodes, root, addSelf) {
      assert l[i] in l;
      ListedBelow(t, root, q, addSelf);
      ListedIsThere(t, nodes, root, q, addSelf, Rel(root, l[i].path), l[i]);
    }
    forall p | p in nodes && root <= p && (addSelf || p != root) ensures InList(l, p) {
      ThereIsListed(t, nodes, root, q, addSelf, Rel(root, p), p);
    }
  }

  lemma ListedIsThere(t: Tree, nodes: Nodes, root: Path, q: Query, addSelf: bool, rel: Path, r: Resource)
    requires WellFormed(t) && Shows(t, nodes, root) && r in Listing(t, root, q, addSelf) && root <= r.path
    requires rel == Rel(root, r.path)
    ensures Listed(r, nodes, root, addSelf)
  {
    assert root + rel == r.path;
    ListingIsExact(t, root, q, addSelf, rel, r.isCollection);
    assert InListing(Listing(t, root, q, addSelf), root, rel, r.isCollection);
    LookupNames(t, rel);
    assert root + [] == root;
  }

  lemma ThereIsListed(t: Tree, nodes: Nodes, root: Path, q: Query, addSelf: bool, rel: Path, p: Path)
    requires WellFormed(t) && Shows(t, nodes, root) && p in nodes && root <= p && rel == Rel(root, p)
    requires q == Query(true, true, q.depthFirst, Infinity) && (addSelf || p != root)
    ensures InList(Listing(t, root, q, addSelf), p)
  {
    assert root + rel == p;
    var k := Lookup(t, rel).value.Collection?;
    ListingIsExact(t, root, q, addSelf, rel, k);
    assert rel == [] ==> root + rel == root;
    assert Resource(p, k) in Listing(t, root, q, addSelf);
  }

  /** Ancestors of a resource are there, and collections. */
  lemma {:induction false} AncestorIsFolder(nodes: Nodes, p: Path, q: Path)
    requires TreeShaped(nodes) && q in nodes && p < q
    ensures p in nodes && nodes[p].Folder?
    decreases |q|
  {
    var up := Parent(q);
    assert up + [q[|q| - 1]] == q;
    if up != p {
      assert p < up;
      AncestorIsFolder(nodes, p, up);
    }
  }
}
