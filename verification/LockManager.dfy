/**
  The lock manager of `wsgidav/lock_man/lock_manager.py`: who may lock a URL and who may write
  to it.

  Each public method of the original is one step here; `now` is the clock it reads. Tokens are
  fresh and URLs quoted (without white space).
*/
module LockManager {
  import opened Sequences
  import opened Wrappers
  import opened Uri
  import opened LockStorage

  // ---------------------------------------------------------------- scopes

  /** Section 6.1 of RFC 4918: a lock covers its root and, with depth infinity, everything below. */
  predicate Covers(l: Lock, path: string) {
    l.root == path || (l.depth.Infinity? && IsChildUri(l.root, path))
  }

  predicate Overlap(a: Lock, b: Lock) {
    Covers(a, b.root) || Covers(b, a.root)
  }

  /** Two locks that may not stand together. */
  predicate Clash(a: Lock, b: Lock) {
    Overlap(a, b) && !(a.scope.Shared? && b.scope.Shared?)
  }

  ghost predicate Compatible(st: Store) {
    forall s, t :: s in st.locks && t in st.locks && s != t ==> !Clash(st.locks[s], st.locks[t])
  }

  /** The tokens of the locks rooted at a path or at one of its ancestors. */
  function AboveOrAt(st: Store, path: string): set<Token> {
    set t | t in st.locks && AtOrAbove(st.locks[t].root, path)
  }

  /** Those of them that the scans of their lists meet. */
  function MetAbove(st: Store, now: int, shared: bool, path: string): set<Token> {
    set t | t in AboveOrAt(st, path) && t in Met(st, now, shared, st.locks[t].root)
  }

  // ---------------------------------------------------------------- the walk through the table

  type Seen = (string, Lock)

  function Tag(u: string, locks: seq<Lock>): seq<Seen> {
    seq(|locks|, i requires 0 <= i < |locks| => (u, locks[i]))
  }

  /** Direct scans of some URLs, one after the other. */
  ghost function WalkScan(st: Store, now: int, shared: bool, us: seq<string>): (r: (Store, seq<Seen>))
    requires Valid(st)
    ensures Valid(r.0)
    decreases |us|
  {
    if us == [] then (st, [])
    else
      var (st1, locks) := ScanList(st, now, shared, NormalizeLockRoot(us[0]));
      var (st2, rest) := WalkScan(st1, now, shared, us[1..]);
      (st2, Tag(us[0], locks) + rest)
  }

  /** No URL of the walk has the same path as a later one, or the lists are copies and it does not matter. */
  ghost predicate Separate(shared: bool, us: seq<string>) {
    shared ==> forall i, j :: 0 <= i < j < |us| ==> NormalizeLockRoot(us[i]) != NormalizeLockRoot(us[j])
  }

  function MetAlong(st: Store, now: int, shared: bool, us: seq<string>): set<Token> {
    set t, u | u in us && t in Met(st, now, shared, NormalizeLockRoot(u)) :: t
  }

  /** What a walk leaves in the table and what it sees. */
  ghost predicate WalkOutcome(st: Store, now: int, shared: bool, us: seq<string>, cur: Store, seen: seq<Seen>) {
    && cur == Purge(st, MetAlong(st, now, shared, us) * ExpiredTokens(st, now))
    && forall u, l :: (u, l) in seen <==>
         u in us && Stored(st, l) && l.token in Met(st, now, shared, NormalizeLockRoot(u)) && !Expired(l, now)
  }

  /** After one direct scan every other scan meets what it would have met, without the purged. */
  lemma MetAfterScan(st: Store, now: int, shared: bool, p: string, q: string)
    requires Valid(st) && (shared ==> p != q)
    ensures var gone := MetSet(st, now, shared, p) * ExpiredTokens(st, now);
            forall t :: t in Met(Purge(st, gone), now, shared, q) <==> t in Met(st, now, shared, q) && t !in gone
  {
    var gone := MetSet(st, now, shared, p) * ExpiredTokens(st, now);
    MetAreStored(st, now, shared, q);
    ScanListSpec(st, now, shared, p);
    if p != q {
      ScanIsLocal(st, gone, now, shared, q);
    } else {
      PurgeToks(st, gone, q);
      FilterSpec(Toks(st, q), gone);
      CopiedListsAreMetWhole(Toks(st, q), ExpiredTokens(st, now));
      CopiedListsAreMetWhole(Filter(Toks(st, q), gone), ExpiredTokens(Purge(st, gone), now));
    }
  }

  lemma {:induction false} WalkScanSpec(st: Store, now: int, shared: bool, us: seq<string>)
    requires Valid(st) && Separate(shared, us)
    ensures var (cur, seen) := WalkScan(st, now, shared, us);
            WalkOutcome(st, now, shared, us, cur, seen)
    decreases |us|
  {
    if us == [] {
      PurgeNothing(st, MetAlong(st, now, shared, us) * ExpiredTokens(st, now));
    } else {
      var p, rest := NormalizeLockRoot(us[0]), us[1..];
      var (st1, locks) := ScanList(st, now, shared, p);
      var gone := MetSet(st, now, shared, p) * ExpiredTokens(st, now);
      ScanListSpec(st, now, shared, p);
      forall u | u in rest
        ensures forall t :: t in Met(st1, now, shared, NormalizeLockRoot(u)) <==>
                  t in Met(st, now, shared, NormalizeLockRoot(u)) && t !in gone
      {
        var i :| 0 <= i < |rest| && rest[i] == u;
        assert us[i + 1] == u;
        MetAfterScan(st, now, shared, p, NormalizeLockRoot(u));
      }
      WalkScanSpec(st1, now, shared, rest);
      PurgeTwice(st, gone, MetAlong(st1, now, shared, rest) * ExpiredTokens(st1, now));
      WalkPurges(st, now, shared, us, gone, st1);
      WalkSees(st, now, shared, us, locks, gone, st1);
    }
  }

  /** The relation between the table before and after the first scan that the two lemmas below use. */
  ghost predicate FirstScan(st: Store, now: int, shared: bool, us: seq<string>, gone: set<Token>, st1: Store) {
    && us != []
    && gone == MetSet(st, now, shared, NormalizeLockRoot(us[0])) * ExpiredTokens(st, now)
    && st1 == Purge(st, gone)
    && forall u :: u in us[1..] ==>
         forall t :: t in Met(st1, now, shared, NormalizeLockRoot(u)) <==> t in Met(st, now, shared, NormalizeLockRoot(u)) && t !in gone
  }

  lemma WalkPurges(st: Store, now: int, shared: bool, us: seq<string>, gone: set<Token>, st1: Store)
    requires FirstScan(st, now, shared, us, gone, st1)
    ensures gone + MetAlong(st1, now, shared, us[1..]) * ExpiredTokens(st1, now)
            == MetAlong(st, now, shared, us) * ExpiredTokens(st, now)
  {
  }

  lemma WalkSees(st: Store, now: int, shared: bool, us: seq<string>, locks: seq<Lock>, gone: set<Token>, st1: Store)
    requires Valid(st1) && FirstScan(st, now, shared, us, gone, st1)
    requires Reports(st, locks, MetSet(st, now, shared, NormalizeLockRoot(us[0])) - ExpiredTokens(st, now))
    requires var (cur, seen) := WalkScan(st1, now, shared, us[1..]);
             WalkOutcome(st1, now, shared, us[1..], cur, seen)
    ensures var seen := WalkScan(st1, now, shared, us[1..]).1;
            forall u, l :: (u, l) in Tag(us[0], locks) + seen <==>
              u in us && Stored(st, l) && l.token in Met(st, now, shared, NormalizeLockRoot(u)) && !Expired(l, now)
  {
    var seen := WalkScan(st1, now, shared, us[1..]).1;
    forall u, l ensures (u, l) in Tag(us[0], locks) + seen <==>
              u in us && Stored(st, l) && l.token in Met(st, now, shared, NormalizeLockRoot(u)) && !Expired(l, now)
    {
      assert u in us <==> u == us[0] || u in us[1..];
      TagSpec(us[0], locks, u, l);
    }
  }

  lemma TagSpec(u: string, locks: seq<Lock>, v: string, l: Lock)
    ensures (v, l) in Tag(u, locks) <==> v == u && l in locks
  {
    if v == u && l in locks {
      var i :| 0 <= i < |locks| && locks[i] == l;
      assert Tag(u, locks)[i] == (u, l);
    }
  }

  // ---------------------------------------------------------------- permissions

  predicate Absolute(url: string) {
    url != "" && url[0] == '/' && NoSpace(url)
  }

  /** With one leading slash; the walk up from such a URL has no path twice. */
  predicate SingleRooted(url: string) {
    url == "/" || (|url| > 1 && url[0] == '/' && url[1] != '/')
  }

  /** The two questions asked of every lock met: may a lock of some scope join it, may a client write in spite of it. */
  datatype Check = ForLock(scope: Scope) | ForWrite(principal: string, tokens: seq<Token>)

  predicate Tolerates(check: Check, l: Lock) {
    match check
    case ForLock(scope) => l.scope.Shared? && scope.Shared?
    case ForWrite(principal, tokens) => principal == l.principal && l.token in tokens
  }

  /** The test in the loops over the locks at `u`, on the way up from `url`. */
  predicate Denies(check: Check, url: string, u: string, l: Lock) {
    !(u != url && l.depth != Infinity) && !Tolerates(check, l)
  }

  /** The live locks met on the way up that cover the path and are not tolerated. */
  function DeniedAbove(st: Store, now: int, shared: bool, path: string, check: Check): set<Token> {
    set t | t in MetAbove(st, now, shared, path) && !Expired(st.locks[t], now)
            && Covers(st.locks[t], path) && !Tolerates(check, st.locks[t])
  }

  function LiveBelow(st: Store, now: int, path: string): set<Token> {
    Below(st, path) - ExpiredTokens(st, now)
  }

  lemma {:induction false} WalkIsUpward(st: Store, now: int, shared: bool, url: string)
    requires Valid(st) && Absolute(url)
    ensures MetAlong(st, now, shared, Walk(url)) == MetAbove(st, now, shared, NormalizeLockRoot(url))
  {
    var p := NormalizeLockRoot(url);
    NormalizeIsNormal(url);
    forall t | t in MetAlong(st, now, shared, Walk(url)) ensures t in MetAbove(st, now, shared, p) {
      var u :| u in Walk(url) && t in Met(st, now, shared, NormalizeLockRoot(u));
      MetAreStored(st, now, shared, NormalizeLockRoot(u));
      NormalizeIsNormal(u);
      WalkVisitsAncestors(url, NormalizeLockRoot(u));
    }
    forall t | t in MetAbove(st, now, shared, p) ensures t in MetAlong(st, now, shared, Walk(url)) {
      assert Indexed(st, t);
      WalkVisitsAncestors(url, st.locks[t].root);
    }
  }

  /** The string tests on the way up decide exactly which locks cover the path. */
  lemma {:induction false} WalkDenies(st: Store, now: int, shared: bool, url: string, check: Check, cur: Store, seen: seq<Seen>)
    requires Valid(st) && Absolute(url) && WalkOutcome(st, now, shared, Walk(url), cur, seen)
    ensures forall l :: (exists u :: (u, l) in seen && Denies(check, url, u, l)) <==>
              Stored(st, l) && l.token in DeniedAbove(st, now, shared, NormalizeLockRoot(url), check)
  {
    var p := NormalizeLockRoot(url);
    WalkIsUpward(st, now, shared, url);
    NormalizeIsNormal(url);
    forall l | Stored(st, l) && l.token in DeniedAbove(st, now, shared, p, check)
      ensures exists u :: (u, l) in seen && Denies(check, url, u, l)
    {
      assert Indexed(st, l.token);
      WalkVisitsAncestors(url, l.root);
      if l.root == p {
        assert Walk(url)[0] == url;
        assert (url, l) in seen && Denies(check, url, url, l);
      } else {
        var u :| u in Walk(url) && NormalizeLockRoot(u) == l.root;
        assert (u, l) in seen && Denies(check, url, u, l);
      }
    }
    forall u, l | (u, l) in seen && Denies(check, url, u, l)
      ensures Stored(st, l) && l.token in DeniedAbove(st, now, shared, p, check)
    {
      MetAreStored(st, now, shared, NormalizeLockRoot(u));
      assert l.token in MetAlong(st, now, shared, Walk(url));
    }
  }

  lemma SameWalkOnce(url: string)
    requires Absolute(url) && SingleRooted(url)
    ensures Separate(true, Walk(url))
    decreases |url|
  {
    var us := Walk(url);
    NormalizeIsNormal(url);
    NoSpaceIsKept(url);
    if url != "/" {
      ParentSpec(url);
      var v := GetUriParent(url).value;
      assert us[1..] == Walk(v);
      ParentIsSingleRooted(url, v);
      SameWalkOnce(v);
      forall j | 0 < j < |us| ensures NormalizeLockRoot(us[j]) != NormalizeLockRoot(url) {
        assert us[j] in us[1..];
        NormalizeIsNormal(us[j]);
        WalkVisitsAncestors(url, NormalizeLockRoot(us[j]));
        NoOwnChild(NormalizeLockRoot(url));
        SingleRootedBody(url);
      }
      forall i, j | 0 <= i < j < |us| ensures NormalizeLockRoot(us[i]) != NormalizeLockRoot(us[j]) {
        if i > 0 { assert us[i] == Walk(v)[i - 1] && us[j] == Walk(v)[j - 1]; }
      }
    }
  }

  lemma SingleRootedBody(url: string)
    requires SingleRooted(url) && url != "/"
    ensures NormalizeLockRoot(url) != "/"
  {
    var lo, hi := StripSpec(url);
  }

  /** With one leading slash, a URL and its lock root differ at their ends only. */
  lemma SingleRootedEnds(url: string)
    requires url != "" && url[0] == '/' && SingleRooted(url)
    ensures RStrip(url) == RStrip(NormalizeLockRoot(url))
  {
    var lo, hi := StripSpec(url);
    var p := NormalizeLockRoot(url);
    NormalizeIsNormal(url);
    RStripUnique(p, if p == "/" then "" else p);
    if lo == hi {
      RStripUnique(url, "");
    } else {
      assert url[lo] == Strip(url)[0];
      assert lo == 1 && url[..hi] == p;
    }
  }

  /** Then the test whether a lock root is the URL or above it is the relation on lock roots. */
  lemma LockedByTokenMeans(root: string, url: string)
    requires url != "" && url[0] == '/' && SingleRooted(url) && Normal(root)
    ensures IsEqualOrChildUri(root, url) <==> AtOrAbove(root, NormalizeLockRoot(url))
  {
    SingleRootedEnds(url);
    NormalizeIsNormal(url);
    EqualOrChildIsAtOrAbove(root, NormalizeLockRoot(url));
  }

  lemma ParentIsSingleRooted(url: string, v: string)
    requires Absolute(url) && SingleRooted(url) && url != "/" && GetUriParent(url) == Some(v)
    ensures SingleRooted(v)
  {
    ParentSpec(url);
    NoSpaceIsKept(url);
    RStripSpec(url);
    var r := RStrip(url);
    assert v == RSplitHead(r) + "/";
    var k := LastSlash(r);
    assert url[1] != '/' && r[0] == url[0];
    assert v == r[..k + 1];
    assert k > 0 ==> v[1] == url[1];
  }

  /** The check on the members of a collection fails, as an assertion, exactly on doubled leading slashes. */
  lemma ChildAssertionHolds(url: string, child: string)
    requires Absolute(url) && Normal(child) && IsChildUri(NormalizeLockRoot(url), child)
    ensures IsChildUri(url, child) <==> SingleRooted(url) || Strip(url) == ""
  {
    var lo, hi := StripSpec(url);
    var p := NormalizeLockRoot(url);
    NormalizeIsNormal(url);
    RStripUnique(p, if p == "/" then "" else p);
    RStripUnique(child, if child == "/" then "" else child);
    ChildIsChildBody(p, child);
    if lo == hi {
      RStripUnique(url, "");
    } else if SingleRooted(url) {
      assert lo == 1 by { assert url[lo] == Strip(url)[0]; }
      assert url[..hi] == p;
    } else {
      assert lo > 1;
      assert (url[..hi] + "/")[1] == '/' && child[1] == p[1] == Strip(url)[0];
    }
  }

  predicate IsRootOf(h: string, locks: seq<Lock>) {
    exists l :: l in locks && l.root == h
  }

  predicate IsRootAmong(h: string, st: Store, tokens: set<Token>)
    requires tokens <= st.locks.Keys
  {
    exists t :: t in tokens && st.locks[t].root == h
  }

  datatype Verdict = Permitted | Locked(hrefs: seq<string>) | Raised | AssertFailed

  /** What the check of a URL finds out and does to the table. */
  ghost predicate CheckOutcome(st: Store, now: int, shared: bool, url: string, depth: Depth, check: Check, r: Verdict,
          gone: set<Token>) {
    var p, expired := NormalizeLockRoot(url), ExpiredTokens(st, now);
    var denied := DeniedAbove(st, now, shared, p, check) + if depth.Infinity? then LiveBelow(st, now, p) else {};
    && MayRaise(shared, r.Raised?, if depth.Infinity? then Below(st, p) * expired else {})
    && (!r.Raised? ==> gone == (MetAbove(st, now, shared, p) + if depth.Infinity? then Below(st, p) else {}) * expired)
    && (r.Permitted? <==> !r.Raised? && denied == {})
    && (r.AssertFailed? <==>
          !r.Raised? && depth.Infinity? && LiveBelow(st, now, p) != {} && !SingleRooted(url) && Strip(url) != "")
    && (r.Locked? ==> NoRepeats(r.hrefs) && forall h :: h in r.hrefs <==> IsRootAmong(h, st, denied))
  }

  /** `add_href` for every lock that denies. */
  method AddDenied(hrefs: seq<string>, url: string, u: string, locks: seq<Lock>, check: Check) returns (r: seq<string>)
    requires NoRepeats(hrefs)
    ensures NoRepeats(r)
    ensures forall h :: h in r <==> h in hrefs || exists l: Lock :: l in locks && Denies(check, url, u, l) && l.root == h
  {
    r := hrefs;
    for i := 0 to |locks|
      invariant NoRepeats(r)
      invariant forall h :: h in r <==> h in hrefs || exists l :: l in locks[..i] && Denies(check, url, u, l) && l.root == h
    {
      var lock := locks[i];
      assert locks[..i + 1] == locks[..i] + [lock];
      if u != url && lock.depth != Infinity {
        continue;
      } else if Tolerates(check, lock) {
        continue;
      }
      if lock.root !in r {
        r := r + [lock.root];
      }
    }
    assert locks[..|locks|] == locks;
  }

  /** `add_href` for every member lock, after the assertion that it is one. */
  method AddMembers(hrefs: seq<string>, url: string, locks: seq<Lock>) returns (r: seq<string>, ok: bool)
    requires NoRepeats(hrefs)
    ensures NoRepeats(r)
    ensures ok <==> forall l :: l in locks ==> IsChildUri(url, l.root)
    ensures ok ==> forall h :: h in r <==> h in hrefs || IsRootOf(h, locks)
  {
    r, ok := hrefs, true;
    for i := 0 to |locks|
      invariant NoRepeats(r)
      invariant forall l :: l in locks[..i] ==> IsChildUri(url, l.root)
      invariant forall h :: h in r <==> h in hrefs || IsRootOf(h, locks[..i])
    {
      var lock := locks[i];
      assert locks[..i + 1] == locks[..i] + [lock];
      if !IsChildUri(url, lock.root) {
        ok := false;
        return;
      }
      if lock.root !in r {
        r := r + [lock.root];
      }
    }
    assert locks[..|locks|] == locks;
  }

  function WalkFrom(u: Option<string>): seq<string>
    requires u.Some? ==> Absolute(u.value)
  {
    if u.Some? then Walk(u.value) else []
  }

  lemma WalkFromNext(u: string)
    requires Absolute(u)
    ensures Walk(u)[0] == u
    ensures GetUriParent(u).Some? ==> Absolute(GetUriParent(u).value) && |GetUriParent(u).value| < |u|
    ensures Walk(u)[1..] == WalkFrom(GetUriParent(u))
  {
    NoSpaceIsKept(u);
    if u != "/" { ParentSpec(u); }
  }

  /** The hrefs collected so far are the roots of the locks that deny among those seen. */
  ghost predicate HrefsOf(hrefs: seq<string>, seen: seq<Seen>, url: string, check: Check) {
    && NoRepeats(hrefs)
    && forall h :: h in hrefs <==> exists l: Lock :: l.root == h && exists u :: (u, l) in seen && Denies(check, url, u, l)
  }

  lemma HrefsGrow(hrefs: seq<string>, more: seq<string>, seen: seq<Seen>, url: string, u: string, locks: seq<Lock>,
          check: Check)
    requires HrefsOf(hrefs, seen, url, check) && NoRepeats(more)
    requires forall h :: h in more <==> h in hrefs || exists l: Lock :: l in locks && Denies(check, url, u, l) && l.root == h
    ensures HrefsOf(more, seen + Tag(u, locks), url, check)
  {
    forall v, l ensures (v, l) in seen + Tag(u, locks) <==> (v, l) in seen || (v == u && l in locks) { TagSpec(u, locks, v, l); }
  }

  /** A walk over `us` from here completes `seen` to the outcome of the whole walk. */
  ghost predicate Continues(all: (Store, seq<Seen>), st: Store, now: int, shared: bool, us: seq<string>,
          seen: seq<Seen>)
    requires Valid(st)
  {
    var (cur, rest) := WalkScan(st, now, shared, us);
    all == (cur, seen + rest)
  }

  lemma WalkContinues(all: (Store, seq<Seen>), st: Store, now: int, shared: bool, u: string, seen: seq<Seen>)
    requires Valid(st) && Absolute(u) && Continues(all, st, now, shared, Walk(u), seen)
    ensures GetUriParent(u).Some? ==> Absolute(GetUriParent(u).value) && |GetUriParent(u).value| < |u|
    ensures var (st1, locks) := ScanList(st, now, shared, NormalizeLockRoot(u));
            Continues(all, st1, now, shared, WalkFrom(GetUriParent(u)), seen + Tag(u, locks))
  {
    WalkFromNext(u);
    ContinuesUnfolds(all, st, now, shared, Walk(u), seen);
  }

  lemma ContinuesUnfolds(all: (Store, seq<Seen>), st: Store, now: int, shared: bool, us: seq<string>, seen: seq<Seen>)
    requires Valid(st) && us != [] && Continues(all, st, now, shared, us, seen)
    ensures var (st1, locks) := ScanList(st, now, shared, NormalizeLockRoot(us[0]));
            Continues(all, st1, now, shared, us[1..], seen + Tag(us[0], locks))
  {
    WalkScanUnfolds(st, now, shared, us);
    var (st1, locks) := ScanList(st, now, shared, NormalizeLockRoot(us[0]));
    RegroupSeen(seen, Tag(us[0], locks), WalkScan(st1, now, shared, us[1..]).1);
  }

  lemma RegroupSeen(a: seq<Seen>, b: seq<Seen>, c: seq<Seen>)
    ensures (a + b) + c == a + (b + c)
  {
  }

  lemma WalkScanUnfolds(st: Store, now: int, shared: bool, us: seq<string>)
    requires Valid(st) && us != []
    ensures var (st1, locks) := ScanList(st, now, shared, NormalizeLockRoot(us[0]));
            var (cur, rest) := WalkScan(st1, now, shared, us[1..]);
            WalkScan(st, now, shared, us) == (cur, Tag(us[0], locks) + rest)
  {
  }

  lemma NotAboveAndBelow(p: string, q: string)
    requires Normal(p) && Normal(q) && IsChildUri(p, q)
    ensures !AtOrAbove(q, p)
  {
  }

  /** The scan below a path is not touched by the walk above it. */
  lemma WalkLeavesBelow(st: Store, now: int, shared: bool, url: string, gone: set<Token>)
    requires Valid(st) && gone <= AboveOrAt(st, NormalizeLockRoot(url))
    ensures var p, cur := NormalizeLockRoot(url), Purge(st, gone);
            && Below(cur, p) == Below(st, p) && Below(st, p) !! gone
            && Below(cur, p) * ExpiredTokens(cur, now) == Below(st, p) * ExpiredTokens(st, now)
            && LiveBelow(cur, now, p) == LiveBelow(st, now, p)
  {
    var p := NormalizeLockRoot(url);
    NormalizeIsNormal(url);
    forall t | t in Below(st, p) ensures t !in gone {
      assert Indexed(st, t);
      NotAboveAndBelow(p, st.locks[t].root);
    }
  }

  /** What the walk up found, in terms of the path. */
  lemma WayDenied(st: Store, now: int, shared: bool, url: string, check: Check, cur: Store, seen: seq<Seen>,
          hrefs: seq<string>)
    returns (gone: set<Token>)
    requires Valid(st) && Absolute(url) && Separate(shared, Walk(url))
    requires (cur, seen) == WalkScan(st, now, shared, Walk(url)) && HrefsOf(hrefs, seen, url, check)
    ensures var p := NormalizeLockRoot(url);
            && gone == MetAbove(st, now, shared, p) * ExpiredTokens(st, now)
            && gone <= AboveOrAt(st, p) && cur == Purge(st, gone)
            && NoRepeats(hrefs) && forall h :: h in hrefs <==> IsRootAmong(h, st, DeniedAbove(st, now, shared, p, check))
  {
    WalkScanSpec(st, now, shared, Walk(url));
    WalkIsUpward(st, now, shared, url);
    WalkDenies(st, now, shared, url, check, cur, seen);
    gone := MetAbove(st, now, shared, NormalizeLockRoot(url)) * ExpiredTokens(st, now);
    forall t | t in DeniedAbove(st, now, shared, NormalizeLockRoot(url), check) ensures Stored(st, st.locks[t]) { assert Indexed(st, t); }
  }

  /** A walk purges expired locks only. */
  lemma {:induction false} WalkPurgesExpired(st: Store, now: int, shared: bool, us: seq<string>)
    returns (gone: set<Token>)
    requires Valid(st)
    ensures gone <= ExpiredTokens(st, now) && WalkScan(st, now, shared, us).0 == Purge(st, gone)
    decreases |us|
  {
    if us == [] {
      PurgeNothing(st, {});
      gone := {};
    } else {
      var p := NormalizeLockRoot(us[0]);
      ScanListSpec(st, now, shared, p);
      var first := MetSet(st, now, shared, p) * ExpiredTokens(st, now);
      var rest := WalkPurgesExpired(Purge(st, first), now, shared, us[1..]);
      PurgeTwice(st, first, rest);
      gone := first + rest;
    }
  }

  /** The members found below: their hrefs, and whether the assertion about them holds. */
  lemma MembersDenied(st: Store, now: int, url: string, locks: seq<Lock>)
    requires Valid(st) && Absolute(url) && Reports(st, locks, LiveBelow(st, now, NormalizeLockRoot(url)))
    ensures (forall l :: l in locks ==> IsChildUri(url, l.root))
            <==> LiveBelow(st, now, NormalizeLockRoot(url)) == {} || SingleRooted(url) || Strip(url) == ""
    ensures forall h :: IsRootOf(h, locks) <==> IsRootAmong(h, st, LiveBelow(st, now, NormalizeLockRoot(url)))
  {
    var p := NormalizeLockRoot(url);
    forall t | t in LiveBelow(st, now, p)
      ensures st.locks[t] in locks && (IsChildUri(url, st.locks[t].root) <==> SingleRooted(url) || Strip(url) == "")
    {
      assert Indexed(st, t);
      ChildAssertionHolds(url, st.locks[t].root);
    }
    forall l | l in locks ensures l.token in LiveBelow(st, now, p) && st.locks[l.token] == l { }
  }

  class LockManager {
    const storage: LockStorage

    constructor (storage: LockStorage)
      ensures this.storage == storage
    {
      this.storage := storage;
    }

    /** The locks rooted at a URL. */
    method GetUrlLockList(url: string, now: int) returns (locks: seq<Lock>)
      requires Valid(storage.Abs()) && url != "" && url[0] == '/'
      modifies storage
      ensures Valid(storage.Abs())
      ensures (storage.Abs(), locks) == ScanList(old(storage.Abs()), now, storage.shared, NormalizeLockRoot(url))
    {
      var scan, _ := storage.GetLockList(url, true, false, now);
      return scan.locks;
    }

    /** The loop from a URL to the root, as both permission checks have it. */
    method DeniedOnTheWay(url: string, check: Check, now: int) returns (hrefs: seq<string>, ghost seen: seq<Seen>)
      requires Valid(storage.Abs()) && Absolute(url)
      modifies storage
      ensures Valid(storage.Abs())
      ensures (storage.Abs(), seen) == WalkScan(old(storage.Abs()), now, storage.shared, Walk(url))
      ensures HrefsOf(hrefs, seen, url, check)
    {
      ghost var all := WalkScan(storage.Abs(), now, storage.shared, Walk(url));
      hrefs, seen := [], [];
      var u := Some(url);
      assert [] + all.1 == all.1;
      while u.Some?
        invariant u.Some? ==> Absolute(u.value)
        invariant Valid(storage.Abs()) && HrefsOf(hrefs, seen, url, check)
        invariant Continues(all, storage.Abs(), now, storage.shared, WalkFrom(u), seen)
        decreases if u.Some? then |u.value| else 0
      {
        WalkContinues(all, storage.Abs(), now, storage.shared, u.value, seen);
        var locks := GetUrlLockList(u.value, now);
        var more := AddDenied(hrefs, url, u.value, locks, check);
        HrefsGrow(hrefs, more, seen, url, u.value, locks, check);
        seen := seen + Tag(u.value, locks);
        hrefs := more;
        u := GetUriParent(u.value);
      }
      assert seen + [] == seen;
    }

    /** The loop over the members; `raised` and `ok` tell how it ended. */
    method DeniedBelow(url: string, hrefs: seq<string>, now: int)
      returns (more: seq<string>, raised: bool, ok: bool, ghost gone: set<Token>)
      requires Valid(storage.Abs()) && Absolute(url) && NoRepeats(hrefs)
      modifies storage
      ensures Valid(storage.Abs()) && storage.Abs() == Purge(old(storage.Abs()), gone)
      ensures MembersOutcome(old(storage.Abs()), now, storage.shared, url, hrefs, more, raised, ok, gone)
    {
      ghost var st := storage.Abs();
      more, raised, ok := hrefs, false, true;
      var scan;
      scan, gone := storage.GetLockList(url, false, true, now);
      assert Wanted(st, now, storage.shared, NormalizeLockRoot(url), false, true) == Below(st, NormalizeLockRoot(url));
      if scan.Raises? {
        raised := true;
        return;
      }
      MembersDenied(st, now, url, scan.locks);
      more, ok := AddMembers(hrefs, url, scan.locks);
    }

    /** What both permission checks do: the way up, and for depth infinity the members. */
    method CheckUrl(url: string, depth: Depth, check: Check, now: int) returns (r: Verdict, ghost gone: set<Token>)
      requires Valid(storage.Abs()) && Absolute(url)
      modifies storage
      ensures Valid(storage.Abs()) && storage.Abs() == Purge(old(storage.Abs()), gone)
      ensures gone <= ExpiredTokens(old(storage.Abs()), now)
      ensures Separate(storage.shared, Walk(url)) ==> CheckOutcome(old(storage.Abs()), now, storage.shared, url, depth, check, r, gone)
    {
      ghost var st, shared := storage.Abs(), storage.shared;
      var hrefs, seen := DeniedOnTheWay(url, check, now);
      gone := WayPurged(st, now, shared, url, check, storage.Abs(), seen, hrefs);
      if depth == Zero {
        WayAlone(st, now, shared, url, check, gone, hrefs);
        return if |hrefs| > 0 then Locked(hrefs) else Permitted, gone;
      }
      var more, raised, ok, below := DeniedBelow(url, hrefs, now);
      PurgeTwice(st, gone, below);
      if WayOutcome(st, now, shared, url, check, hrefs, gone) {
        MembersMove(st, now, shared, url, gone, hrefs, more, raised, ok, below);
        ChecksCompose(st, now, shared, url, check, gone, hrefs, more, raised, ok, below);
      }
      gone := gone + below;
      if raised {
        return Raised, gone;
      } else if !ok {
        return AssertFailed, gone;
      }
      return if |more| > 0 then Locked(more) else Permitted, gone;
    }

    method CheckLockPermission(url: string, scope: Scope, depth: Depth, now: int) returns (r: Verdict,
            ghost gone: set<Token>)
      requires Valid(storage.Abs()) && Normal(url) && NoSpace(url)
      modifies storage
      ensures Valid(storage.Abs()) && storage.Abs() == Purge(old(storage.Abs()), gone)
      ensures CheckOutcome(old(storage.Abs()), now, storage.shared, url, depth, ForLock(scope), r, gone)
      ensures !r.AssertFailed?
    {
      SameWalkOnce(url);
      r, gone := CheckUrl(url, depth, ForLock(scope), now);
    }

    /** May the principal, having submitted these tokens, modify the URL? */
    method CheckWritePermission(url: string, depth: Depth, principal: string, tokens: seq<Token>, now: int)
      returns (r: Verdict, ghost gone: set<Token>)
      requires Valid(storage.Abs()) && Absolute(url)
      modifies storage
      ensures Valid(storage.Abs()) && storage.Abs() == Purge(old(storage.Abs()), gone)
      ensures gone <= ExpiredTokens(old(storage.Abs()), now)
      ensures !storage.shared || SingleRooted(url) ==>
                CheckOutcome(old(storage.Abs()), now, storage.shared, url, depth, ForWrite(principal, tokens), r, gone)
    {
      if SingleRooted(url) { SameWalkOnce(url); }
      r, gone := CheckUrl(url, depth, ForWrite(principal, tokens), now);
    }

    method Acquire(q: Request, token: Token, now: int) returns (r: Answer, ghost gone: set<Token>)
      requires Valid(storage.Abs()) && q.url != "" && NoSpace(q.url) && token !in storage.locks
      modifies storage
      ensures Valid(storage.Abs())
      ensures AcquireOutcome(old(storage.Abs()), now, storage.shared, q, token, r, gone, storage.Abs())
    {
      var url := NormalizeLockRoot(q.url);
      NormalizeIsNormal(q.url);
      NormalizeKeepsNoSpace(q.url);
      NormalIsFixed(url);
      var verdict;
      verdict, gone := CheckLockPermission(url, q.scope, q.depth, now);
      if verdict != Permitted {
        return Refused(verdict), gone;
      }
      var c := storage.Create(url, q.principal, q.scope, q.depth, q.owner, Seconds(q.timeout), token, now);
      return if c.Created? then Granted(c.lock) else InvalidTimeout, gone;
    }

    method Release(token: Token)
      requires Valid(storage.Abs())
      modifies storage
      ensures Valid(storage.Abs()) && storage.Abs() == Purge(old(storage.Abs()), {token})
    {
      var _ := storage.Delete(token);
    }

    method Refresh(token: Token, timeout: Option<int>, now: int) returns (r: Creation)
      requires Valid(storage.Abs())
      modifies storage
      ensures Valid(storage.Abs())
      ensures storage.Abs() == RefreshEffect(old(storage.Abs()), token, timeout, now)
      ensures r.Created? <==> token in old(storage.locks) && RefreshSeconds(timeout) != 0 && RefreshSeconds(timeout) >= -1
    {
      r := storage.Refresh(token, if timeout.None? then LOCK_TIME_OUT_DEFAULT else timeout.value, now);
    }

    /** Is the URL, or one of its parents, the root of the lock with this token? Depth does not matter. */
    method IsUrlLockedByToken(url: string, token: Token, now: int) returns (r: bool)
      requires Valid(storage.Abs())
      modifies storage
      ensures Valid(storage.Abs())
      ensures storage.Abs() == Purge(old(storage.Abs()), {token} * ExpiredTokens(old(storage.Abs()), now))
      ensures r <==> token in storage.locks && IsEqualOrChildUri(storage.locks[token].root, url)
      ensures SingleRooted(url) ==> (r <==> token in storage.locks && AtOrAbove(storage.locks[token].root, NormalizeLockRoot(url)))
    {
      ghost var st := storage.Abs();
      PurgeNothing(st, {});
      if token !in st.locks { PurgeNothing(st, {token}); }
      var lock := storage.Get(token, now);
      assert {token} * ExpiredTokens(st, now) == if token in st.locks && Expired(st.locks[token], now) then {token} else {};
      assert token in storage.locks ==> Indexed(storage.Abs(), token);
      if SingleRooted(url) && token in storage.locks { LockedByTokenMeans(storage.locks[token].root, url); }
      r := lock != [] && lock[0].root != "" && IsEqualOrChildUri(lock[0].root, url);
    }

    /** The locks that protect a URL, directly or from above; those of one principal if one is given. */
    method GetIndirectUrlLockList(url: string, principal: Option<string>, now: int) returns (locks: seq<Lock>)
      requires Valid(storage.Abs()) && url != "" && NoSpace(url)
      modifies storage
      ensures Valid(storage.Abs())
      ensures var st, p := old(storage.Abs()), NormalizeLockRoot(url);
              && storage.Abs() == Purge(st, MetAbove(st, now, storage.shared, p) * ExpiredTokens(st, now))
              && Reports(st, locks, Protecting(st, now, storage.shared, p, principal))
    {
      ghost var st := storage.Abs();
      var top := NormalizeLockRoot(url);
      NormalizeIsNormal(url);
      NormalizeKeepsNoSpace(url);
      NormalIsFixed(top);
      SameWalkOnce(top);
      ghost var all, seen := WalkScan(st, now, storage.shared, Walk(top)), [];
      locks := [];
      var u := Some(top);
      assert [] + all.1 == all.1;
      while u.Some?
        invariant u.Some? ==> Absolute(u.value)
        invariant Valid(storage.Abs())
        invariant Continues(all, storage.Abs(), now, storage.shared, WalkFrom(u), seen)
        invariant SelectedFrom(locks, seen, top, principal)
        decreases if u.Some? then |u.value| else 0
      {
        WalkContinues(all, storage.Abs(), now, storage.shared, u.value, seen);
        var list := GetUrlLockList(u.value, now);
        var more := AddProtecting(top, u.value, list, principal);
        SelectionGrows(locks, more, seen, top, u.value, list, principal);
        seen := seen + Tag(u.value, list);
        locks := locks + more;
        u := GetUriParent(u.value);
      }
      assert seen + [] == seen;
      WalkScanSpec(st, now, storage.shared, Walk(top));
      SelectionIsProtecting(st, now, storage.shared, top, principal, storage.Abs(), seen, locks);
      WalkIsUpward(st, now, storage.shared, top);
    }

    method ReleaseAll(locks: seq<Lock>)
      requires Valid(storage.Abs())
      modifies storage
      ensures Valid(storage.Abs()) && storage.Abs() == Purge(old(storage.Abs()), TokensOf(locks))
    {
      ghost var st := storage.Abs();
      PurgeNothing(st, {});
      assert TokensOf([]) == {};
      for i := 0 to |locks|
        invariant Valid(storage.Abs()) && storage.Abs() == Purge(st, TokensOf(locks[..i]))
      {
        assert locks[..i + 1] == locks[..i] + [locks[i]];
        assert TokensOf(locks[..i + 1]) == TokensOf(locks[..i]) + {locks[i].token};
        PurgeTwice(st, TokensOf(locks[..i]), {locks[i].token});
        Release(locks[i].token);
      }
      assert locks[..|locks|] == locks;
    }

    method RemoveAllLocksFromUrl(url: string, recursive: bool, now: int) returns (raised: bool, ghost gone: set<Token>)
      requires Valid(storage.Abs()) && url != ""
      modifies storage
      ensures Valid(storage.Abs()) && storage.Abs() == Purge(old(storage.Abs()), gone)
      ensures RemovalOutcome(old(storage.Abs()), now, storage.shared, NormalizeLockRoot(url), recursive, raised, gone)
    {
      ghost var st := storage.Abs();
      var p := NormalizeLockRoot(url);
      NormalizeIsNormal(url);
      NormalIsFixed(p);
      var scan;
      scan, gone := storage.GetLockList(p, true, recursive, now);
      RemovalDone(st, now, storage.shared, p, recursive, scan, gone);
      if scan.Raises? {
        return true, gone;
      }
      ReleaseAll(scan.locks);
      PurgeTwice(st, gone, TokensOf(scan.locks));
      return false, gone + TokensOf(scan.locks);
    }
  }

  function TokensOf(locks: seq<Lock>): set<Token> {
    set l | l in locks :: l.token
  }

  /**
    Unless the scan raises, the locks it met at the URL are removed and, if recursive, all below.
    Copied lists are met whole.
  */
  ghost predicate RemovalOutcome(st: Store, now: int, shared: bool, path: string, recursive: bool, raised: bool,
          gone: set<Token>) {
    var below := if recursive then Below(st, path) else {};
    && MayRaise(shared, raised, below * ExpiredTokens(st, now))
    && gone <= MetSet(st, now, shared, path) + below
    && (raised ==> gone <= ExpiredTokens(st, now))
    && (!raised ==> gone == MetSet(st, now, shared, path) + below)
  }

  /** Everything at the URL goes exactly if lists are copies or no token of its list but the last has expired. */
  lemma RemovalIsCompleteIff(st: Store, now: int, shared: bool, path: string, recursive: bool, gone: set<Token>)
    requires Valid(st) && Normal(path) && RemovalOutcome(st, now, shared, path, recursive, false, gone)
    ensures gone == At(st, path) + (if recursive then Below(st, path) else {})
            <==> !shared || OnlyLastExpired(Toks(st, path), ExpiredTokens(st, now))
  {
    MetSetIff(st, now, shared, path);
    ScanListSpec(st, now, shared, path);
    forall t | t in At(st, path) ensures t !in Below(st, path) { NoOwnChild(path); }
  }

  lemma RemovalDone(st: Store, now: int, shared: bool, path: string, recursive: bool, scan: Scan, gone: set<Token>)
    requires Valid(st) && ScanOutcome(st, now, shared, path, true, recursive, scan, gone)
    ensures RemovalOutcome(st, now, shared, path, recursive, scan.Raises?, if scan.Raises? then gone else gone + TokensOf(scan.locks))
  {
    ScanListSpec(st, now, shared, path);
    if scan.Locks? {
      ReportedTokens(st, scan.locks, Wanted(st, now, shared, path, true, recursive) - ExpiredTokens(st, now));
    }
  }

  lemma ReportedTokens(st: Store, locks: seq<Lock>, tokens: set<Token>)
    requires Valid(st) && Reports(st, locks, tokens)
    ensures TokensOf(locks) == tokens
  {
  }

  lemma NormalizeKeepsNoSpace(url: string)
    requires NoSpace(url)
    ensures NoSpace(NormalizeLockRoot(url))
  {
    var lo, hi := StripSpec(url);
    assert forall i :: 0 <= i < |Strip(url)| ==> Strip(url)[i] == url[lo + i];
  }

  /** What a client asks for; `timeout` None is a request without a timeout. */
  datatype Request = Request(url: string, principal: string, scope: Scope, depth: Depth, owner: string, timeout: Option<int>)

  datatype Answer = Granted(lock: Lock) | Refused(verdict: Verdict) | InvalidTimeout

  /** Seconds to live as `_generate_lock` passes them on. */
  function Seconds(timeout: Option<int>): int {
    if timeout.None? then LOCK_TIME_OUT_DEFAULT else if timeout.value < 0 then -1 else timeout.value
  }

  function RefreshSeconds(timeout: Option<int>): int {
    if timeout.None? then LOCK_TIME_OUT_DEFAULT else timeout.value
  }

  function RefreshEffect(st: Store, token: Token, timeout: Option<int>, now: int): Store {
    if token in st.locks && RefreshSeconds(timeout) != 0 && RefreshSeconds(timeout) >= -1
    then Retimed(st, token, Clamp(RefreshSeconds(timeout)), now)
    else st
  }

  function NewLock(q: Request, token: Token, now: int): Lock {
    Lock(token, NormalizeLockRoot(q.url), q.principal, q.scope, q.depth, q.owner, Clamp(Seconds(q.timeout)),
         now + Clamp(Seconds(q.timeout)))
  }

  /** A request is granted exactly when the check of its URL permits it, and then adds one lock. */
  ghost predicate AcquireOutcome(st: Store, now: int, shared: bool, q: Request, token: Token, r: Answer,
          gone: set<Token>, after: Store) {
    && CheckOutcome(st, now, shared, NormalizeLockRoot(q.url), q.depth, ForLock(q.scope), if r.Refused? then r.verdict else Permitted, gone)
    && (r.Refused? ==> !r.verdict.Permitted? && !r.verdict.AssertFailed?)
    && (r.InvalidTimeout? ==> q.timeout == Some(0))
    && (r.Granted? ==> q.timeout != Some(0) && r.lock == NewLock(q, token, now))
    && after == if r.Granted? then Add(Purge(st, gone), r.lock) else Purge(st, gone)
  }

  // ---------------------------------------------------------------- the locks that protect a URL

  predicate Selects(principal: Option<string>, url: string, u: string, l: Lock) {
    !(u != url && l.depth != Infinity) && (principal.None? || principal.value == l.principal)
  }

  function Protecting(st: Store, now: int, shared: bool, path: string, principal: Option<string>): set<Token> {
    set t | t in MetAbove(st, now, shared, path) && !Expired(st.locks[t], now) && Covers(st.locks[t], path)
            && (principal.None? || principal.value == st.locks[t].principal)
  }

  method AddProtecting(url: string, u: string, locks: seq<Lock>, principal: Option<string>) returns (r: seq<Lock>)
    ensures forall l :: l in r <==> l in locks && Selects(principal, url, u, l)
  {
    r := [];
    for i := 0 to |locks|
      invariant forall l :: l in r <==> l in locks[..i] && Selects(principal, url, u, l)
    {
      var lock := locks[i];
      assert locks[..i + 1] == locks[..i] + [lock];
      if u != url && lock.depth != Infinity {
        continue;
      }
      if principal.None? || principal.value == lock.principal {
        r := r + [lock];
      }
    }
    assert locks[..|locks|] == locks;
  }

  ghost predicate SelectedFrom(locks: seq<Lock>, seen: seq<Seen>, url: string, principal: Option<string>) {
    forall l :: l in locks <==> exists u :: (u, l) in seen && Selects(principal, url, u, l)
  }

  lemma SelectionGrows(locks: seq<Lock>, more: seq<Lock>, seen: seq<Seen>, url: string, u: string, list: seq<Lock>,
          principal: Option<string>)
    requires SelectedFrom(locks, seen, url, principal)
    requires forall l :: l in more <==> l in list && Selects(principal, url, u, l)
    ensures SelectedFrom(locks + more, seen + Tag(u, list), url, principal)
  {
    forall v, l ensures (v, l) in seen + Tag(u, list) <==> (v, l) in seen || (v == u && l in list) { TagSpec(u, list, v, l); }
  }

  lemma SelectionIsProtecting(st: Store, now: int, shared: bool, url: string, principal: Option<string>, cur: Store,
                              seen: seq<Seen>, locks: seq<Lock>)
    requires Valid(st) && Absolute(url) && Normal(url)
    requires WalkOutcome(st, now, shared, Walk(url), cur, seen) && SelectedFrom(locks, seen, url, principal)
    ensures Reports(st, locks, Protecting(st, now, shared, url, principal))
  {
    // A check that tolerates nothing denies what covers the URL.
    NormalIsFixed(url);
    WalkDenies(st, now, shared, url, ForLock(Exclusive), cur, seen);
    forall u, l ensures Selects(principal, url, u, l) <==>
                        Denies(ForLock(Exclusive), url, u, l) && (principal.None? || principal.value == l.principal) { }
  }

  /** What the loop over the members of a URL finds out. */
  ghost predicate MembersOutcome(st: Store, now: int, shared: bool, url: string, hrefs: seq<string>, more: seq<string>,
                                 raised: bool, ok: bool, gone: set<Token>) {
    var p, expired := NormalizeLockRoot(url), ExpiredTokens(st, now);
    && gone <= Below(st, p) * expired
    && MayRaise(shared, raised, Below(st, p) * expired)
    && (!raised ==> gone == Below(st, p) * expired)
    && (!raised ==> (ok <==> LiveBelow(st, now, p) == {} || SingleRooted(url) || Strip(url) == ""))
    && NoRepeats(more)
    && (!raised && ok ==> forall h :: h in more <==> h in hrefs || IsRootAmong(h, st, LiveBelow(st, now, p)))
  }

  ghost predicate WayOutcome(st: Store, now: int, shared: bool, url: string, check: Check, hrefs: seq<string>,
          gone: set<Token>) {
    var p := NormalizeLockRoot(url);
    && gone == MetAbove(st, now, shared, p) * ExpiredTokens(st, now)
    && NoRepeats(hrefs)
    && forall h :: h in hrefs <==> IsRootAmong(h, st, DeniedAbove(st, now, shared, p, check))
  }

  lemma WayPurged(st: Store, now: int, shared: bool, url: string, check: Check, cur: Store, seen: seq<Seen>,
          hrefs: seq<string>)
    returns (gone: set<Token>)
    requires Valid(st) && Absolute(url)
    requires (cur, seen) == WalkScan(st, now, shared, Walk(url)) && HrefsOf(hrefs, seen, url, check)
    ensures gone <= ExpiredTokens(st, now) && cur == Purge(st, gone)
    ensures Separate(shared, Walk(url)) ==> WayOutcome(st, now, shared, url, check, hrefs, gone)
  {
    if Separate(shared, Walk(url)) {
      gone := WayDenied(st, now, shared, url, check, cur, seen, hrefs);
    } else {
      gone := WalkPurgesExpired(st, now, shared, Walk(url));
    }
  }

  lemma WayAlone(st: Store, now: int, shared: bool, url: string, check: Check, gone: set<Token>, hrefs: seq<string>)
    ensures WayOutcome(st, now, shared, url, check, hrefs, gone) ==>
              CheckOutcome(st, now, shared, url, Zero, check, if |hrefs| > 0 then Locked(hrefs) else Permitted, gone)
  {
    if WayOutcome(st, now, shared, url, check, hrefs, gone) {
      HrefsEmpty(st, hrefs, DeniedAbove(st, now, shared, NormalizeLockRoot(url), check));
    }
  }

  lemma HrefsEmpty(st: Store, hrefs: seq<string>, denied: set<Token>)
    requires denied <= st.locks.Keys
    requires forall h :: h in hrefs <==> IsRootAmong(h, st, denied)
    ensures |hrefs| == 0 <==> denied == {}
  {
    if denied != {} {
      var t :| t in denied;
      assert IsRootAmong(st.locks[t].root, st, denied);
    }
    if |hrefs| > 0 { assert hrefs[0] in hrefs; }
  }

  lemma MembersMove(st: Store, now: int, shared: bool, url: string, gone: set<Token>, hrefs: seq<string>,
                    more: seq<string>, raised: bool, ok: bool, below: set<Token>)
    requires Valid(st) && gone <= AboveOrAt(st, NormalizeLockRoot(url))
    requires MembersOutcome(Purge(st, gone), now, shared, url, hrefs, more, raised, ok, below)
    ensures MembersOutcome(st, now, shared, url, hrefs, more, raised, ok, below)
  {
    WalkLeavesBelow(st, now, shared, url, gone);
    var live := LiveBelow(st, now, NormalizeLockRoot(url));
    forall h ensures IsRootAmong(h, st, live) <==> IsRootAmong(h, Purge(st, gone), live) { }
  }

  lemma ChecksCompose(st: Store, now: int, shared: bool, url: string, check: Check, gone: set<Token>,
          hrefs: seq<string>,
                      more: seq<string>, raised: bool, ok: bool, below: set<Token>)
    requires WayOutcome(st, now, shared, url, check, hrefs, gone)
    requires MembersOutcome(st, now, shared, url, hrefs, more, raised, ok, below)
    ensures CheckOutcome(st, now, shared, url, Infinity, check,
                         if raised then Raised else if !ok then AssertFailed else if |more| > 0 then Locked(more) else Permitted,
                         gone + below)
  {
    var p := NormalizeLockRoot(url);
    var above, live := DeniedAbove(st, now, shared, p, check), LiveBelow(st, now, p);
    forall h ensures IsRootAmong(h, st, above + live) <==> IsRootAmong(h, st, above) || IsRootAmong(h, st, live) { }
    if !raised && ok { HrefsEmpty(st, more, above + live); }
  }
}
