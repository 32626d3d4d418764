/**
  The file-by-file processing of `do_DELETE` in `wsgidav/request_server.py`: resources after
  their contents, every resource allowed to fail, and the table of paths that hold an error.
*/
module DeleteRequests {
  import opened Sequences
  import opened Wrappers
  import opened Uri
  import opened PathStrings
  import opened Descendants
  import opened Providers

  /**
    How the provider writes paths: the requested URL, the key of its resource, and the resources
    with a slash at the end.
  */
  datatype Spelling = Spelling(base: string, root: Path, slashed: set<Path>)
  {
    /** `res.path` */
    function PathOf(p: Path): string
      requires root <= p
    {
      PathString(base, Rel(root, p), p in slashed)
    }

    /** Whether the resource is written the way its members write their parent. */
    predicate Marks(p: Path) {
      root <= p && Marked(base, Rel(root, p), p in slashed)
    }

    /**
      Whether the parent of a member is recognised: it is marked, and the member is not written
      like the root of the share, as one named by white space only may be.
    */
    predicate Told(c: Path) {
      root < c && Marks(Parent(c)) && !LooksLikeRoot(PathOf(c))
    }
  }

  /** From `p` down to `f`, `p` itself not counted, every parent is recognised. */
  ghost predicate Passes(w: Spelling, p: Path, f: Path) {
    forall q :: p < q && q <= f ==> w.Told(q)
  }

  /** A failure at `p`, or one below it that is passed on up to it. */
  ghost predicate Held(nodes: Nodes, w: Spelling, fails: set<Path>, p: Path) {
    exists f :: f in fails && f in nodes && p <= f && Passes(w, p, f)
  }

  ghost predicate HoldsChild(nodes: Nodes, w: Spelling, fails: set<Path>, p: Path) {
    exists n: string :: p + [n] in nodes && Held(nodes, w, fails, p + [n])
  }

  /** A held child that is recognised as one. */
  ghost predicate IsTold(nodes: Nodes, w: Spelling, fails: set<Path>, p: Path) {
    exists n: string :: p + [n] in nodes && Held(nodes, w, fails, p + [n]) && w.Told(p + [n])
  }

  /** The member of `p` on the way to `f`. */
  function Next(p: Path, f: Path): (c: Path)
    requires p < f
    ensures p < c <= f && c == p + [f[|p|]]
  {
    p + [f[|p|]]
  }

  lemma NextIsFirst(p: Path, f: Path, q: Path)
    requires p < f && p < q <= f
    ensures Next(p, f) <= q
  {
  }

  lemma NextIsThere(nodes: Nodes, p: Path, f: Path)
    requires TreeShaped(nodes) && f in nodes && p < f
    ensures Next(p, f) in nodes
  {
    if Next(p, f) != f { AncestorIsFolder(nodes, Next(p, f), f); }
  }

  lemma PassesStep(w: Spelling, p: Path, f: Path)
    requires p < f
    ensures Passes(w, p, f) <==> w.Told(Next(p, f)) && Passes(w, Next(p, f), f)
  {
    if w.Told(Next(p, f)) && Passes(w, Next(p, f), f) {
      forall q | p < q && q <= f ensures w.Told(q) {
        NextIsFirst(p, f, q);
        assert q == Next(p, f) || Next(p, f) < q;
      }
    }
  }

  /** What the loop can see: a failure of its own, or a held child that is recognised. */
  lemma HeldStep(nodes: Nodes, w: Spelling, fails: set<Path>, p: Path)
    requires TreeShaped(nodes) && p in nodes
    ensures Held(nodes, w, fails, p) <==> p in fails || IsTold(nodes, w, fails, p)
  {
    if p in fails {
      assert Passes(w, p, p);
    } else {
      if Held(nodes, w, fails, p) {
        var f :| f in fails && f in nodes && p <= f && Passes(w, p, f);
        assert p != f;
        NextIsThere(nodes, p, f);
        PassesStep(w, p, f);
        assert Held(nodes, w, fails, Next(p, f));
      }
      if IsTold(nodes, w, fails, p) {
        var n :| p + [n] in nodes && Held(nodes, w, fails, p + [n]) && w.Told(p + [n]);
        var f :| f in fails && f in nodes && p + [n] <= f && Passes(w, p + [n], f);
        assert p < f && Next(p, f) == p + [n];
        PassesStep(w, p, f);
      }
    }
  }

  // ---------------------------------------------------------------- the loop

  /** The resources a DELETE leaves. */
  ghost predicate Remains(nodes: Nodes, w: Spelling, fails: set<Path>, p: Path) {
    p in nodes && forall q :: w.root <= q <= p ==> Held(nodes, w, fails, q)
  }

  /** Whether the loop gets to try the resource and fails. */
  ghost predicate Reported(nodes: Nodes, w: Spelling, fails: set<Path>, p: Path) {
    p in fails && !IsTold(nodes, w, fails, p)
  }

  /** The resources of the list that are reported, in its order. */
  ghost function Reports(l: seq<Resource>, nodes: Nodes, w: Spelling, fails: set<Path>): seq<Path> {
    if l == [] then []
    else Reports(l[..|l| - 1], nodes, w, fails)
         + if Reported(nodes, w, fails, l[|l| - 1].path) then [l[|l| - 1].path] else []
  }

  /** A resource of the list is in the report exactly if its own attempt failed. */
  lemma {:induction false} ReportsIff(l: seq<Resource>, nodes: Nodes, w: Spelling, fails: set<Path>, p: Path)
    ensures p in Reports(l, nodes, w, fails) <==> InList(l, p) && p in fails && !IsTold(nodes, w, fails, p)
  {
    if l != [] {
      ReportsIff(l[..|l| - 1], nodes, w, fails, p);
      InListSnoc(l, p);
    }
  }

  /** And it is there once. */
  lemma {:induction false} ReportedOnce(l: seq<Resource>, nodes: Nodes, w: Spelling, fails: set<Path>)
    requires Ordered(l, true)
    ensures NoRepeats(Reports(l, nodes, w, fails))
  {
    if l != [] {
      var n := |l| - 1;
      LastIsNew(l);
      ReportedOnce(l[..n], nodes, w, fails);
      ReportsIff(l[..n], nodes, w, fails, l[n].path);
    }
  }

  lemma LastIsNew(l: seq<Resource>)
    requires l != [] && Ordered(l, true)
    ensures Ordered(l[..|l| - 1], true) && !InList(l[..|l| - 1], l[|l| - 1].path)
  {
    var n := |l| - 1;
    forall i | 0 <= i < n ensures l[..n][i].path != l[n].path { assert MayPrecede(l[i], l[n], true); }
  }

  /** Collections that go while a member is still there. */
  ghost predicate GoesTooEarly(nodes: Nodes, w: Spelling, fails: set<Path>, p: Path) {
    p in nodes && w.root <= p && !Held(nodes, w, fails, p) && HoldsChild(nodes, w, fails, p)
  }

  predicate Sees(w: Spelling, p: Path, s: Option<string>) {
    w.root <= p && s == GetUriParent(w.PathOf(p))
  }

  /** The table: the parent paths of the held resources so far. */
  ghost predicate IgnoreIs(ignore: set<Option<string>>, done: seq<Resource>, nodes: Nodes, w: Spelling,
          fails: set<Path>) {
    forall s :: s in ignore <==> Noted(s, done, nodes, w, fails)
  }

  ghost predicate Noted(s: Option<string>, done: seq<Resource>, nodes: Nodes, w: Spelling, fails: set<Path>) {
    exists i :: 0 <= i < |done| && Held(nodes, w, fails, done[i].path) && Sees(w, done[i].path, s)
  }

  /** No deleted resource above it so far. */
  ghost predicate Spared(p: Path, done: seq<Resource>, nodes: Nodes, w: Spelling, fails: set<Path>) {
    forall i :: 0 <= i < |done| && done[i].path <= p ==> Held(nodes, w, fails, done[i].path)
  }

  ghost predicate LeftIs(left: Nodes, done: seq<Resource>, nodes: Nodes, w: Spelling, fails: set<Path>) {
    forall p :: (p in left <==> p in nodes && Spared(p, done, nodes, w, fails)) && (p in left ==> left[p] == nodes[p])
  }

  lemma ChildIsEarlier(l: seq<Resource>, k: nat, nodes: Nodes, root: Path, c: Path) returns (i: nat)
    requires k < |l| && Lists(l, nodes, root, true, true) && c in nodes && l[k].path < c
    ensures i < k && l[i].path == c && Listed(l[i], nodes, root, true)
  {
    assert Listed(l[k], nodes, root, true);
    assert InList(l, c);
    i :| 0 <= i < |l| && l[i].path == c;
    assert i > k ==> MayPrecede(l[k], l[i], true);
  }

  lemma RelSnoc(root: Path, q: Path, n: string)
    requires root <= q
    ensures Rel(root, q + [n]) == Rel(root, q) + [n]
  {
  }

  lemma RelInjective(root: Path, p: Path, q: Path)
    requires root <= p && root <= q
    ensures Rel(root, p) == Rel(root, q) <==> p == q
  {
  }

  lemma WrittenParent(w: Spelling, p: Path, q: Path, n: string)
    requires w.root <= p && w.root <= q && Names(Rel(w.root, p)) && Names(Rel(w.root, q)) && IsName(n)
    ensures Sees(w, q + [n], Some(w.PathOf(p))) <==> w.Told(q + [n]) && p == q
  {
    RelSnoc(w.root, q, n);
    RelInjective(w.root, p, q);
    assert Parent(q + [n]) == q;
    if !LooksLikeRoot(w.PathOf(q + [n])) {
      ParentStringMatches(w.base, Rel(w.root, p), p in w.slashed, Rel(w.root, q), n, q + [n] in w.slashed);
    }
  }

  lemma SplitLast(root: Path, c: Path) returns (q: Path, n: string)
    requires root < c && Names(Rel(root, c))
    ensures root <= q && q + [n] == c && IsName(n) && Names(Rel(root, q))
  {
    q, n := Parent(c), c[|c| - 1];
    assert Rel(root, c)[|c| - 1 - |root|] == n;
    assert forall i :: 0 <= i < |q| - |root| ==> Rel(root, q)[i] == Rel(root, c)[i];
  }

  /** An entry that names `p` comes from a child of `p` that is recognised. */
  lemma EntryIsFromChild(l: seq<Resource>, k: nat, i: nat, nodes: Nodes, w: Spelling) returns (n: string)
    requires i < k < |l| && Lists(l, nodes, w.root, true, true)
    requires w.root <= l[k].path && Sees(w, l[i].path, Some(w.PathOf(l[k].path)))
    ensures w.Told(l[i].path) && l[i].path == l[k].path + [n] && l[i].path in nodes
  {
    assert MayPrecede(l[i], l[k], true);
    assert Listed(l[i], nodes, w.root, true);
    assert l[i].path != w.root;
    var q;
    q, n := SplitLast(w.root, l[i].path);
    WrittenParent(w, l[k].path, q, n);
  }

  /** The look-up in the table says whether a held child is recognised. */
  lemma IgnoredIff(ignore: set<Option<string>>, l: seq<Resource>, k: nat, nodes: Nodes, w: Spelling, fails: set<Path>)
    requires k < |l| && Lists(l, nodes, w.root, true, true)
    requires IgnoreIs(ignore, l[..k], nodes, w, fails)
    ensures w.root <= l[k].path
    ensures Some(w.PathOf(l[k].path)) in ignore <==> IsTold(nodes, w, fails, l[k].path)
  {
    var p := l[k].path;
    if Some(w.PathOf(p)) in ignore {
      var i :| 0 <= i < k && Held(nodes, w, fails, l[..k][i].path) && Sees(w, l[..k][i].path, Some(w.PathOf(p)));
      var n := EntryIsFromChild(l, k, i, nodes, w);
    }
    if IsTold(nodes, w, fails, p) {
      var n :| p + [n] in nodes && Held(nodes, w, fails, p + [n]) && w.Told(p + [n]);
      var i := ChildIsEarlier(l, k, nodes, w.root, p + [n]);
      assert Rel(w.root, p + [n])[|p| - |w.root|] == n;
      WrittenParent(w, p, p, n);
      assert l[..k][i] == l[i];
    }
  }

  /** When a resource comes up it is still there. */
  lemma StillThere(left: Nodes, l: seq<Resource>, k: nat, nodes: Nodes, w: Spelling, fails: set<Path>)
    requires k < |l| && Lists(l, nodes, w.root, true, true) && LeftIs(left, l[..k], nodes, w, fails)
    ensures l[k].path in left
  {
  }

  /** Members are left below it exactly if a child is held. */
  lemma MembersLeft(left: Nodes, l: seq<Resource>, k: nat, nodes: Nodes, w: Spelling, fails: set<Path>)
    requires k < |l| && TreeShaped(nodes) && Lists(l, nodes, w.root, true, true)
    requires LeftIs(left, l[..k], nodes, w, fails)
    ensures HasMembers(left, l[k].path) <==> HoldsChild(nodes, w, fails, l[k].path)
  {
    var p := l[k].path;
    if HasMembers(left, p) {
      var q :| q in left && p < q;
      NextIsThere(nodes, p, q);
      var i := ChildIsEarlier(l, k, nodes, w.root, Next(p, q));
      assert l[..k][i] == l[i];
      assert Held(nodes, w, fails, p + [q[|p|]]);
    }
    if HoldsChild(nodes, w, fails, p) {
      var n :| p + [n] in nodes && Held(nodes, w, fails, p + [n]);
      ChildIsSpared(l, k, nodes, w, fails, n);
    }
  }

  lemma ChildIsSpared(l: seq<Resource>, k: nat, nodes: Nodes, w: Spelling, fails: set<Path>, n: string)
    requires k < |l| && Ordered(l, true) && Held(nodes, w, fails, l[k].path + [n])
    ensures Spared(l[k].path + [n], l[..k], nodes, w, fails)
  {
  }

  // ---------------------------------------------------------------- one round

  lemma SparedStep(p: Path, l: seq<Resource>, k: nat, nodes: Nodes, w: Spelling, fails: set<Path>)
    requires k < |l|
    ensures Spared(p, l[..k + 1], nodes, w, fails) <==>
              Spared(p, l[..k], nodes, w, fails) && (l[k].path <= p ==> Held(nodes, w, fails, l[k].path))
  {
  }

  lemma LeftStep(left: Nodes, left': Nodes, l: seq<Resource>, k: nat, nodes: Nodes, w: Spelling, fails: set<Path>)
    requires k < |l| && LeftIs(left, l[..k], nodes, w, fails)
    requires left' == if Held(nodes, w, fails, l[k].path) then left else Without(left, l[k].path)
    ensures LeftIs(left', l[..k + 1], nodes, w, fails)
  {
    forall p ensures (p in left' <==> p in nodes && Spared(p, l[..k + 1], nodes, w, fails)) && (p in left' ==> left'[p] == nodes[p]) {
      SparedStep(p, l, k, nodes, w, fails);
    }
  }

  lemma IgnoreStep(ignore: set<Option<string>>, ignore': set<Option<string>>, l: seq<Resource>, k: nat, nodes: Nodes,
          w: Spelling, fails: set<Path>)
    requires k < |l| && w.root <= l[k].path && IgnoreIs(ignore, l[..k], nodes, w, fails)
    requires ignore' == ignore + if Held(nodes, w, fails, l[k].path) then {GetUriParent(w.PathOf(l[k].path))} else {}
    ensures IgnoreIs(ignore', l[..k + 1], nodes, w, fails)
  {
    forall s ensures s in ignore' <==> Noted(s, l[..k + 1], nodes, w, fails) {
      NotedStep(s, l, k, nodes, w, fails);
    }
  }

  lemma NotedStep(s: Option<string>, l: seq<Resource>, k: nat, nodes: Nodes, w: Spelling, fails: set<Path>)
    requires k < |l|
    ensures Noted(s, l[..k + 1], nodes, w, fails) <==>
              Noted(s, l[..k], nodes, w, fails) || (Held(nodes, w, fails, l[k].path) && Sees(w, l[k].path, s))
  {
    var more := l[..k + 1];
    assert more[k] == l[k] && forall i :: 0 <= i < k ==> more[i] == l[..k][i];
    if Noted(s, l[..k], nodes, w, fails) {
      var i :| 0 <= i < k && Held(nodes, w, fails, l[..k][i].path) && Sees(w, l[..k][i].path, s);
      assert Held(nodes, w, fails, more[i].path) && Sees(w, more[i].path, s);
    }
    if Held(nodes, w, fails, l[k].path) && Sees(w, l[k].path, s) {
      assert Held(nodes, w, fails, more[k].path) && Sees(w, more[k].path, s);
    }
  }

  ghost predicate EarlyIs(early: set<Path>, done: seq<Resource>, nodes: Nodes, w: Spelling, fails: set<Path>) {
    forall p :: p in early <==> GoesTooEarly(nodes, w, fails, p) && InList(done, p)
  }

  lemma EarlyStep(early: set<Path>, early': set<Path>, l: seq<Resource>, k: nat, nodes: Nodes, w: Spelling,
          fails: set<Path>)
    requires k < |l| && EarlyIs(early, l[..k], nodes, w, fails)
    requires early' == early + if GoesTooEarly(nodes, w, fails, l[k].path) then {l[k].path} else {}
    ensures EarlyIs(early', l[..k + 1], nodes, w, fails)
  {
  }

  lemma AllDone(left: Nodes, early: set<Path>, l: seq<Resource>, nodes: Nodes, w: Spelling, fails: set<Path>)
    requires TreeShaped(nodes) && Lists(l, nodes, w.root, true, true)
    requires LeftIs(left, l, nodes, w, fails) && EarlyIs(early, l, nodes, w, fails)
    ensures forall p :: (p in left <==> Remains(nodes, w, fails, p)) && (p in left ==> left[p] == nodes[p])
    ensures forall p :: p in early <==> GoesTooEarly(nodes, w, fails, p)
  {
    forall p ensures p in left <==> Remains(nodes, w, fails, p) {
      if p in nodes { SparedByAll(p, l, nodes, w, fails); }
    }
    EarlyInAll(early, l, nodes, w, fails);
  }

  lemma EarlyInAll(early: set<Path>, l: seq<Resource>, nodes: Nodes, w: Spelling, fails: set<Path>)
    requires Lists(l, nodes, w.root, true, true) && EarlyIs(early, l, nodes, w, fails)
    ensures forall p :: p in early <==> GoesTooEarly(nodes, w, fails, p)
  {
  }

  lemma SparedByAll(p: Path, l: seq<Resource>, nodes: Nodes, w: Spelling, fails: set<Path>)
    requires TreeShaped(nodes) && Lists(l, nodes, w.root, true, true) && p in nodes
    ensures Spared(p, l, nodes, w, fails) <==> Remains(nodes, w, fails, p)
  {
    if Spared(p, l, nodes, w, fails) {
      forall q | w.root <= q <= p ensures Held(nodes, w, fails, q) {
        if q != p { AncestorIsFolder(nodes, q, p); }
        assert InList(l, q);
        var i :| 0 <= i < |l| && l[i].path == q;
      }
    }
    if Remains(nodes, w, fails, p) {
      assert forall i :: 0 <= i < |l| ==> Listed(l[i], nodes, w.root, true);
    }
  }

  // ---------------------------------------------------------------- the request

  /** What the loop changes. */
  datatype Progress = Progress(ignore: set<Option<string>>, left: Nodes, early: set<Path>, errors: seq<Path>)

  ghost predicate ProgressIs(g: Progress, done: seq<Resource>, nodes: Nodes, w: Spelling, fails: set<Path>) {
    && IgnoreIs(g.ignore, done, nodes, w, fails) && LeftIs(g.left, done, nodes, w, fails)
    && EarlyIs(g.early, done, nodes, w, fails) && g.errors == Reports(done, nodes, w, fails)
  }

  /** One round of the loop: skip, fail or delete. */
  ghost predicate Round(g: Progress, h: Progress, p: Path, w: Spelling, fails: set<Path>)
    requires w.root <= p
  {
    var skipped := Some(w.PathOf(p)) in g.ignore;
    var failed := !skipped && p in fails;
    && h.ignore == g.ignore + (if skipped || failed then {GetUriParent(w.PathOf(p))} else {})
    && h.errors == g.errors + (if failed then [p] else [])
    && h.left == (if skipped || failed then g.left else Without(g.left, p))
    && h.early == g.early + (if !skipped && !failed && HasMembers(g.left, p) then {p} else {})
  }

  lemma RoundKeepsProgress(g: Progress, h: Progress, l: seq<Resource>, k: nat, nodes: Nodes, w: Spelling,
          fails: set<Path>)
    requires k < |l| && TreeShaped(nodes) && Lists(l, nodes, w.root, true, true)
    requires ProgressIs(g, l[..k], nodes, w, fails) && w.root <= l[k].path && Round(g, h, l[k].path, w, fails)
    ensures ProgressIs(h, l[..k + 1], nodes, w, fails)
  {
    assert Listed(l[k], nodes, w.root, true);
    HeldStep(nodes, w, fails, l[k].path);
    IgnoredIff(g.ignore, l, k, nodes, w, fails);
    MembersLeft(g.left, l, k, nodes, w, fails);
    assert l[..k + 1][..k] == l[..k];
    RoundKeepsSets(g, h, l, k, nodes, w, fails);
  }

  /** A round in terms of what is held. */
  lemma RoundKeepsSets(g: Progress, h: Progress, l: seq<Resource>, k: nat, nodes: Nodes, w: Spelling, fails: set<Path>)
    requires k < |l| && w.root <= l[k].path && ProgressIs(g, l[..k], nodes, w, fails)
    requires h.left == if Held(nodes, w, fails, l[k].path) then g.left else Without(g.left, l[k].path)
    requires h.ignore == g.ignore + if Held(nodes, w, fails, l[k].path) then {GetUriParent(w.PathOf(l[k].path))} else {}
    requires h.early == g.early + if GoesTooEarly(nodes, w, fails, l[k].path) then {l[k].path} else {}
    requires h.errors == Reports(l[..k + 1], nodes, w, fails)
    ensures ProgressIs(h, l[..k + 1], nodes, w, fails)
  {
    LeftStep(g.left, h.left, l, k, nodes, w, fails);
    IgnoreStep(g.ignore, h.ignore, l, k, nodes, w, fails);
    EarlyStep(g.early, h.early, l, k, nodes, w, fails);
  }

  ghost function ProgressOf(prov: Provider, ignore: set<Option<string>>, errors: seq<Path>): Progress
    reads prov
  {
    Progress(ignore, prov.nodes, prov.deletedTooEarly, errors)
  }

  /** The body of the loop. */
  method DeleteOne(prov: Provider, w: Spelling, p: Path, fails: set<Path>, ignore: set<Option<string>>,
          errors: seq<Path>)
    returns (ignore': set<Option<string>>, errors': seq<Path>)
    requires w.root <= p && p in prov.nodes
    modifies prov
    ensures Round(old(ProgressOf(prov, ignore, errors)), ProgressOf(prov, ignore', errors'), p, w, fails)
  {
    ignore', errors' := ignore, errors;
    var path := w.PathOf(p);
    if Some(path) in ignore {
      ignore' := ignore + {GetUriParent(path)};
    } else {
      var ok := prov.Delete(p, p in fails);
      var there := prov.Exists(p);
      if !ok || there {
        errors' := errors + [p];
        ignore' := ignore + {GetUriParent(path)};
      }
    }
  }

  /** The loop over a list. */
  method DeleteListed(prov: Provider, w: Spelling, l: seq<Resource>, fails: set<Path>, ghost nodes: Nodes)
    returns (ghost ignored: set<Option<string>>, errors: seq<Path>)
    requires TreeShaped(nodes) && Lists(l, nodes, w.root, true, true)
    requires ProgressIs(ProgressOf(prov, {}, []), [], nodes, w, fails)
    modifies prov
    ensures ProgressIs(ProgressOf(prov, ignored, errors), l, nodes, w, fails)
  {
    var ignore: set<Option<string>> := {};
    errors := [];
    for k := 0 to |l|
      invariant ProgressIs(ProgressOf(prov, ignore, errors), l[..k], nodes, w, fails)
    {
      ghost var g := ProgressOf(prov, ignore, errors);
      assert Listed(l[k], nodes, w.root, true);
      StillThere(prov.nodes, l, k, nodes, w, fails);
      ignore, errors := DeleteOne(prov, w, l[k].path, fails, ignore, errors);
      RoundKeepsProgress(g, ProgressOf(prov, ignore, errors), l, k, nodes, w, fails);
    }
    assert l[..|l|] == l;
    ignored := ignore;
  }

  /**
    DELETE, file by file: a resource whose path the table holds is skipped and its parent put
    there; any other is deleted, or its error noted and its parent put there. `fails` are the
    resources whose attempt ends in a DAVError, whatever the reason.
  */
  method DeleteFileByFile(prov: Provider, t: Tree, w: Spelling, fails: set<Path>) returns (errors: seq<Path>)
    requires WellFormed(t) && Shows(t, prov.nodes, w.root) && TreeShaped(prov.nodes)
    requires prov.deletedTooEarly == {}
    modifies prov
    ensures forall p :: (p in prov.nodes <==> Remains(old(prov.nodes), w, fails, p)) && (p in prov.nodes ==> prov.nodes[p] == old(prov.nodes)[p])
    ensures forall p :: p in prov.deletedTooEarly <==> GoesTooEarly(old(prov.nodes), w, fails, p)
    ensures errors == Reports(Listing(t, w.root, Query(true, true, true, Infinity), true), old(prov.nodes), w, fails)
  {
    var l := GetDescendants(t, w.root, Query(true, true, true, Infinity), true);
    ghost var nodes := prov.nodes;
    DescendantsAreListed(t, nodes, w.root, true, true);
    ghost var ignored;
    ignored, errors := DeleteListed(prov, w, l, fails, nodes);
    AllDone(prov.nodes, prov.deletedTooEarly, l, nodes, w, fails);
  }

  // ---------------------------------------------------------------- what a DELETE keeps

  /**
    Every collection with members is written with its slash, and no member like the root of the
    share.
  */
  ghost predicate AllMarked(nodes: Nodes, w: Spelling) {
    && (forall p :: p in nodes && w.root <= p && HasMembers(nodes, p) ==> w.Marks(p))
    && (forall c :: c in nodes && w.root < c ==> !LooksLikeRoot(w.PathOf(c)))
  }

  ghost predicate AllTold(nodes: Nodes, w: Spelling) {
    forall c :: c in nodes && w.root < c ==> w.Told(c)
  }

  lemma ParentHasMember(nodes: Nodes, root: Path, c: Path)
    requires TreeShaped(nodes) && c in nodes && root < c
    ensures Parent(c) in nodes && root <= Parent(c) && HasMembers(nodes, Parent(c))
  {
    assert Parent(c) < c;
    AncestorIsFolder(nodes, Parent(c), c);
  }

  lemma ToldIsMarked(nodes: Nodes, w: Spelling, p: Path)
    requires TreeShaped(nodes) && AllTold(nodes, w) && w.root <= p && HasMembers(nodes, p)
    ensures w.Marks(p)
  {
    var q :| q in nodes && p < q;
    NextIsThere(nodes, p, q);
    assert w.Told(Next(p, q)) && Parent(Next(p, q)) == p;
  }

  lemma AllMarkedIff(nodes: Nodes, w: Spelling)
    requires TreeShaped(nodes)
    ensures AllMarked(nodes, w) <==> AllTold(nodes, w)
  {
    if AllMarked(nodes, w) {
      forall c | c in nodes && w.root < c ensures w.Told(c) { ParentHasMember(nodes, w.root, c); }
    }
    if AllTold(nodes, w) {
      forall p | p in nodes && w.root <= p && HasMembers(nodes, p) ensures w.Marks(p) { ToldIsMarked(nodes, w, p); }
      forall c | c in nodes && w.root < c ensures !LooksLikeRoot(w.PathOf(c)) { assert w.Told(c); }
    }
  }

  ghost predicate FailureAtOrBelow(nodes: Nodes, fails: set<Path>, p: Path) {
    exists f :: f in fails && f in nodes && p <= f
  }

  lemma MarkedHeld(nodes: Nodes, w: Spelling, fails: set<Path>, p: Path)
    requires TreeShaped(nodes) && AllMarked(nodes, w) && w.root <= p
    ensures Held(nodes, w, fails, p) <==> FailureAtOrBelow(nodes, fails, p)
  {
    AllMarkedIff(nodes, w);
    if f :| f in fails && f in nodes && p <= f {
      forall q | p < q && q <= f ensures w.Told(q) {
        if q != f { AncestorIsFolder(nodes, q, f); }
      }
      assert Passes(w, p, f);
    }
  }

  /**
    With slashes after the collections: what stays is exactly what failed and everything above
    it, no collection goes before its members, and the topmost failures of a branch are not
    reported again.
  */
  lemma MarkedDeleteKeepsFailures(nodes: Nodes, w: Spelling, fails: set<Path>, p: Path)
    requires TreeShaped(nodes) && AllMarked(nodes, w) && p in nodes && w.root <= p
    ensures Remains(nodes, w, fails, p) <==> FailureAtOrBelow(nodes, fails, p)
    ensures !GoesTooEarly(nodes, w, fails, p)
    ensures Reported(nodes, w, fails, p) <==> p in fails && !(exists f :: f in fails && f in nodes && p < f)
  {
    MarkedHeld(nodes, w, fails, p);
    AllMarkedIff(nodes, w);
    if FailureAtOrBelow(nodes, fails, p) {
      forall q | w.root <= q <= p ensures Held(nodes, w, fails, q) {
        MarkedHeld(nodes, w, fails, q);
      }
    }
    if HoldsChild(nodes, w, fails, p) {
      var n :| p + [n] in nodes && Held(nodes, w, fails, p + [n]);
      MarkedHeld(nodes, w, fails, p + [n]);
      assert p < p + [n] && w.Told(p + [n]);
      HeldStep(nodes, w, fails, p);
    }
    if f :| f in fails && f in nodes && p < f {
      NextIsThere(nodes, p, f);
      MarkedHeld(nodes, w, fails, Next(p, f));
      assert w.Told(p + [f[|p|]]);
    }
  }

  /** Whatever fails, no collection is deleted while members are left. */
  ghost predicate NeverTooEarly(nodes: Nodes, w: Spelling) {
    forall fails: set<Path>, p :: !GoesTooEarly(nodes, w, fails, p)
  }

  /** Whatever fails, what failed is still there afterwards. */
  ghost predicate NeverTakesFailures(nodes: Nodes, w: Spelling) {
    forall fails: set<Path>, f :: f in fails && f in nodes && w.root <= f ==> Remains(nodes, w, fails, f)
  }

  /** Both hold exactly if every collection with members is written with its slash. */
  lemma DeleteIsSafeIff(nodes: Nodes, w: Spelling)
    requires TreeShaped(nodes)
    ensures NeverTooEarly(nodes, w) <==> AllMarked(nodes, w)
    ensures NeverTakesFailures(nodes, w) <==> AllMarked(nodes, w)
  {
    AllMarkedIff(nodes, w);
    if AllTold(nodes, w) {
      MarkedIsSafe(nodes, w);
    } else {
      var c :| c in nodes && w.root < c && !w.Told(c);
      UntoldIsUnsafe(nodes, w, c);
    }
  }

  lemma MarkedIsSafe(nodes: Nodes, w: Spelling)
    requires TreeShaped(nodes) && AllMarked(nodes, w)
    ensures NeverTooEarly(nodes, w) && NeverTakesFailures(nodes, w)
  {
    forall fails: set<Path>, p ensures !GoesTooEarly(nodes, w, fails, p) {
      if p in nodes && w.root <= p { MarkedDeleteKeepsFailures(nodes, w, fails, p); }
    }
    forall fails: set<Path>, f | f in fails && f in nodes && w.root <= f ensures Remains(nodes, w, fails, f) {
      MarkedDeleteKeepsFailures(nodes, w, fails, f);
    }
  }

  lemma UntoldIsUnsafe(nodes: Nodes, w: Spelling, c: Path)
    requires TreeShaped(nodes) && c in nodes && w.root < c && !w.Told(c)
    ensures !NeverTooEarly(nodes, w) && !NeverTakesFailures(nodes, w)
  {
    var p, n := Parent(c), c[|c| - 1];
    assert p + [n] == c;
    UntoldIsLost(nodes, w, p, n);
    assert c in {c};
  }

  /** A failing child that is not recognised goes with the collection. */
  lemma UntoldIsLost(nodes: Nodes, w: Spelling, p: Path, n: string)
    requires TreeShaped(nodes) && w.root <= p && !w.Told(p + [n]) && p + [n] in nodes
    ensures GoesTooEarly(nodes, w, {p + [n]}, p) && !Remains(nodes, w, {p + [n]}, p + [n])
  {
    var c := p + [n];
    assert Passes(w, c, c);
    assert Held(nodes, w, {c}, c);
    assert p < c;
    assert !Passes(w, p, c);
    assert !Held(nodes, w, {c}, p);
  }

  /**
    `join_uri` writes members without a slash: a member collection with a member of its own can
    then lose it.
  */
  lemma JoinedPathsAreUnsafe(nodes: Nodes, w: Spelling, p: Path)
    requires TreeShaped(nodes) && w.root < p && p in nodes && HasMembers(nodes, p) && p !in w.slashed
    ensures !NeverTakesFailures(nodes, w)
  {
    assert !w.Marks(p);
    DeleteIsSafeIff(nodes, w);
  }
}
