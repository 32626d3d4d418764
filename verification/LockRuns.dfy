/**
  What every run of lock manager operations keeps, for a storage that hands out copies of its
  token lists and for one that hands out the lists themselves.
*/
module LockRuns {
  import opened Wrappers
  import opened Uri
  import opened LockStorage
  import opened LockManager

  // ---------------------------------------------------------------- one acquire

  /** The tokens at or above a path with an odd number of expired ones directly before them in a shared list. */
  ghost function PassedOver(st: Store, now: int, shared: bool, path: string): set<Token> {
    set t | t in AboveOrAt(st, path) && shared && BehindExpired(st, now, t)
  }

  /** Those are the tokens that no scan of the walk meets. */
  lemma PassedOverIsUnmet(st: Store, now: int, shared: bool, path: string)
    requires Valid(st)
    ensures PassedOver(st, now, shared, path) == AboveOrAt(st, path) - MetAbove(st, now, shared, path)
  {
    forall t | t in AboveOrAt(st, path) { MetIff(st, now, shared, t); }
  }

  lemma ClashNeedsScope(st: Store, t: Token, l: Lock)
    requires Valid(st) && t in st.locks && Normal(l.root) && Clash(st.locks[t], l)
    ensures t in AboveOrAt(st, l.root) ==> Covers(st.locks[t], l.root)
    ensures t !in AboveOrAt(st, l.root) ==> l.depth.Infinity? && t in Below(st, l.root)
  {
  }

  /** A granted lock clashes with a lock that stays only if that lock was passed over. */
  lemma OnlyThePassedOverClash(st: Store, now: int, shared: bool, q: Request, token: Token, r: Answer,
          gone: set<Token>, after: Store, t: Token)
    requires Valid(st) && q.url != "" && AcquireOutcome(st, now, shared, q, token, r, gone, after) && r.Granted?
    requires t in st.locks && t !in gone && Clash(st.locks[t], r.lock)
    ensures t in PassedOver(st, now, shared, NormalizeLockRoot(q.url))
  {
    var p, check := NormalizeLockRoot(q.url), ForLock(q.scope);
    NormalizeIsNormal(q.url);
    NormalIsFixed(p);
    PassedOverIsUnmet(st, now, shared, p);
    ClashNeedsScope(st, t, r.lock);
    var above, below := DeniedAbove(st, now, shared, p, check), if q.depth.Infinity? then LiveBelow(st, now, p) else {};
    assert above + below == {};
    assert gone == (MetAbove(st, now, shared, p) + if q.depth.Infinity? then Below(st, p) else {}) * ExpiredTokens(st, now);
    assert t !in above && t !in below;
    assert t in AboveOrAt(st, p);
    assert t !in MetAbove(st, now, shared, p);
  }

  lemma PassedOverStay(st: Store, now: int, shared: bool, q: Request, token: Token, r: Answer, gone: set<Token>,
          after: Store)
    requires Valid(st) && q.url != "" && AcquireOutcome(st, now, shared, q, token, r, gone, after) && r.Granted?
    ensures PassedOver(st, now, shared, NormalizeLockRoot(q.url)) !! gone
  {
    var p := NormalizeLockRoot(q.url);
    NormalizeIsNormal(q.url);
    NormalIsFixed(p);
    PassedOverIsUnmet(st, now, shared, p);
    forall t | t in PassedOver(st, now, shared, p) ensures t !in gone {
      assert Indexed(st, t);
      if t in Below(st, p) { NotAboveAndBelow(p, st.locks[t].root); }
    }
  }

  lemma {:induction false} ClashesArePassedOver(st: Store, now: int, shared: bool, q: Request, token: Token, r: Answer,
          gone: set<Token>, after: Store)
    requires Valid(st) && Compatible(st) && q.url != "" && token !in st.locks
    requires AcquireOutcome(st, now, shared, q, token, r, gone, after) && r.Granted?
    requires forall t :: t in PassedOver(st, now, shared, NormalizeLockRoot(q.url)) ==> !Clash(st.locks[t], r.lock)
    ensures Compatible(after)
  {
    forall t | t in after.locks && t != token ensures !Clash(after.locks[t], r.lock) {
      if Clash(st.locks[t], r.lock) { OnlyThePassedOverClash(st, now, shared, q, token, r, gone, after, t); }
    }
  }

  /** A granted acquire keeps the table compatible exactly when no lock its scans passed over clashes with it. */
  lemma {:induction false} GrantKeepsCompatibleIff(st: Store, now: int, shared: bool, q: Request, token: Token, r: Answer,
          gone: set<Token>, after: Store)
    requires Valid(st) && Compatible(st) && q.url != "" && token !in st.locks
    requires AcquireOutcome(st, now, shared, q, token, r, gone, after) && r.Granted?
    ensures Compatible(after) <==>
              forall t :: t in PassedOver(st, now, shared, NormalizeLockRoot(q.url)) ==> !Clash(st.locks[t], r.lock)
  {
    var p := NormalizeLockRoot(q.url);
    PassedOverStay(st, now, shared, q, token, r, gone, after);
    if forall t :: t in PassedOver(st, now, shared, p) ==> !Clash(st.locks[t], r.lock) {
      ClashesArePassedOver(st, now, shared, q, token, r, gone, after);
    } else {
      var t :| t in PassedOver(st, now, shared, p) && Clash(st.locks[t], r.lock);
      assert t in after.locks && after.locks[t] == st.locks[t] && after.locks[token] == r.lock;
    }
  }

  /** With copied lists every scan meets everything, so a granted acquire keeps the table compatible. */
  lemma {:induction false} CopiedGrantKeepsCompatible(st: Store, now: int, q: Request, token: Token, r: Answer, gone: set<Token>,
          after: Store)
    requires Valid(st) && Compatible(st) && q.url != "" && token !in st.locks
    requires AcquireOutcome(st, now, false, q, token, r, gone, after) && r.Granted?
    ensures Compatible(after)
  {
    GrantKeepsCompatibleIff(st, now, false, q, token, r, gone, after);
  }

  // ---------------------------------------------------------------- refusals

  /** A live lock that the scans meet. */
  ghost predicate Seen(st: Store, now: int, shared: bool, t: Token) {
    t in st.locks && !Expired(st.locks[t], now) && !(shared && BehindExpired(st, now, t))
  }

  /** The live locks in the way of a new one: those that clash with it, and those below the root of one that is to cover all below. */
  ghost function InTheWay(st: Store, now: int, shared: bool, l: Lock): set<Token> {
    set t | t in st.locks && !Expired(st.locks[t], now)
            && ((Seen(st, now, shared, t) && Clash(st.locks[t], l)) || (l.depth.Infinity? && IsChildUri(l.root, st.locks[t].root)))
  }

  /** The live locks that forbid a write: they cover the URL and are not the client's own, submitted ones, or stand below and all below is to change. */
  ghost function Forbidding(st: Store, now: int, shared: bool, url: string, depth: Depth, principal: string, tokens: seq<Token>): set<Token> {
    set t | t in st.locks && !Expired(st.locks[t], now)
            && ((Seen(st, now, shared, t) && Covers(st.locks[t], NormalizeLockRoot(url)) && !(st.locks[t].principal == principal && t in tokens))
                || (depth.Infinity? && IsChildUri(NormalizeLockRoot(url), st.locks[t].root)))
  }

  ghost function Denied(st: Store, now: int, shared: bool, p: string, depth: Depth, check: Check): set<Token> {
    DeniedAbove(st, now, shared, p, check) + if depth.Infinity? then LiveBelow(st, now, p) else {}
  }

  lemma {:induction false} DeniedIsInTheWay(st: Store, now: int, shared: bool, l: Lock)
    requires Valid(st) && Normal(l.root)
    ensures Denied(st, now, shared, l.root, l.depth, ForLock(l.scope)) == InTheWay(st, now, shared, l)
  {
    forall t ensures t in Denied(st, now, shared, l.root, l.depth, ForLock(l.scope)) <==> t in InTheWay(st, now, shared, l) {
      OneInTheWay(st, now, shared, l, t);
    }
  }

  lemma {:induction false} OneInTheWay(st: Store, now: int, shared: bool, l: Lock, t: Token)
    requires Valid(st) && Normal(l.root)
    ensures t in Denied(st, now, shared, l.root, l.depth, ForLock(l.scope)) <==> t in InTheWay(st, now, shared, l)
  {
    if t in st.locks {
      assert Indexed(st, t);
      MetIff(st, now, shared, t);
      NoOwnChild(l.root);
    }
  }

  lemma {:induction false} DeniedIsForbidding(st: Store, now: int, shared: bool, url: string, depth: Depth, principal: string,
          tokens: seq<Token>)
    requires Valid(st) && Absolute(url)
    ensures Denied(st, now, shared, NormalizeLockRoot(url), depth, ForWrite(principal, tokens))
            == Forbidding(st, now, shared, url, depth, principal, tokens)
  {
    forall t ensures t in Denied(st, now, shared, NormalizeLockRoot(url), depth, ForWrite(principal, tokens))
                     <==> t in Forbidding(st, now, shared, url, depth, principal, tokens) {
      OneForbidding(st, now, shared, url, depth, principal, tokens, t);
    }
  }

  lemma {:induction false} OneForbidding(st: Store, now: int, shared: bool, url: string, depth: Depth, principal: string,
          tokens: seq<Token>, t: Token)
    requires Valid(st) && Absolute(url)
    ensures t in Denied(st, now, shared, NormalizeLockRoot(url), depth, ForWrite(principal, tokens))
            <==> t in Forbidding(st, now, shared, url, depth, principal, tokens)
  {
    if t in st.locks {
      assert Indexed(st, t);
      MetIff(st, now, shared, t);
    }
  }

  /** The verdict of a check, in terms of the locks it denies for. */
  lemma {:induction false} VerdictNames(st: Store, now: int, shared: bool, url: string, depth: Depth, check: Check, r: Verdict, gone: set<Token>)
    requires CheckOutcome(st, now, shared, url, depth, check, r, gone)
    ensures var denied := Denied(st, now, shared, NormalizeLockRoot(url), depth, check);
            && (r.Permitted? <==> !r.Raised? && denied == {})
            && (r.Locked? ==> forall h :: h in r.hrefs <==> exists t :: t in denied && st.locks[t].root == h)
  {
  }

  /** The answer to every lock request that did not raise: refused exactly for the locks in the way, which it names. */
  lemma {:induction false} RefusedIff(st: Store, now: int, shared: bool, q: Request, token: Token, r: Answer, gone: set<Token>,
          after: Store)
    requires Valid(st) && q.url != "" && AcquireOutcome(st, now, shared, q, token, r, gone, after)
    requires r.Refused? ==> !r.verdict.Raised?
    ensures var way := InTheWay(st, now, shared, NewLock(q, token, now));
            && (r.Refused? <==> way != {})
            && (r.InvalidTimeout? <==> way == {} && q.timeout == Some(0))
            && (r.Refused? ==> r.verdict.Locked? && forall h :: h in r.verdict.hrefs <==> exists t :: t in way && st.locks[t].root == h)
  {
    var l := NewLock(q, token, now);
    NormalizeIsNormal(q.url);
    NormalIsFixed(l.root);
    DeniedIsInTheWay(st, now, shared, l);
    VerdictNames(st, now, shared, l.root, q.depth, ForLock(q.scope), if r.Refused? then r.verdict else Permitted, gone);
  }

  /** A write that did not raise is permitted exactly if no lock forbids it; a refused one names those that do. */
  lemma {:induction false} RefusedWriteNames(st: Store, now: int, shared: bool, url: string, depth: Depth, principal: string,
          tokens: seq<Token>, r: Verdict, gone: set<Token>)
    requires Valid(st) && Absolute(url) && CheckOutcome(st, now, shared, url, depth, ForWrite(principal, tokens), r, gone)
    ensures var forbidding := Forbidding(st, now, shared, url, depth, principal, tokens);
            && (!r.Raised? ==> (r.Permitted? <==> forbidding == {}))
            && (r.Locked? ==> forall h :: h in r.hrefs <==> exists t :: t in forbidding && st.locks[t].root == h)
  {
    DeniedIsForbidding(st, now, shared, url, depth, principal, tokens);
    VerdictNames(st, now, shared, url, depth, ForWrite(principal, tokens), r, gone);
  }

  /**
    Which live, met locks are in the way of a new one, by where they stand: at its root, those not
    shared with it; above, of these the ones of depth infinity; below, all if it is of depth infinity;
    elsewhere none.
  */
  lemma {:induction false} InTheWayByPlace(st: Store, now: int, shared: bool, l: Lock, t: Token)
    requires Valid(st) && Normal(l.root) && Seen(st, now, shared, t)
    ensures var o, way := st.locks[t], t in InTheWay(st, now, shared, l);
            && (o.root == l.root ==> (way <==> o.scope == Exclusive || l.scope == Exclusive))
            && (IsChildUri(o.root, l.root) ==> (way <==> o.depth == Infinity && (o.scope == Exclusive || l.scope == Exclusive)))
            && (IsChildUri(l.root, o.root) ==> (way <==> l.depth == Infinity))
            && (o.root != l.root && !IsChildUri(o.root, l.root) && !IsChildUri(l.root, o.root) ==> !way)
  {
    assert Indexed(st, t);
    NoOwnChild(l.root);
    if IsChildUri(st.locks[t].root, l.root) { NotAboveAndBelow(st.locks[t].root, l.root); }
  }

  /** Which of them forbid a write: the same by place, unless they are the client's own, submitted ones. */
  lemma {:induction false} ForbiddingByPlace(st: Store, now: int, shared: bool, url: string, depth: Depth, principal: string,
          tokens: seq<Token>, t: Token)
    requires Valid(st) && Absolute(url) && Seen(st, now, shared, t)
    ensures var o, p, forbids := st.locks[t], NormalizeLockRoot(url), t in Forbidding(st, now, shared, url, depth, principal, tokens);
            && (o.root == p ==> (forbids <==> o.principal != principal || t !in tokens))
            && (IsChildUri(o.root, p) ==> (forbids <==> o.depth == Infinity && (o.principal != principal || t !in tokens)))
            && (IsChildUri(p, o.root) ==> (forbids <==> depth == Infinity))
            && (o.root != p && !IsChildUri(o.root, p) && !IsChildUri(p, o.root) ==> !forbids)
  {
    assert Indexed(st, t);
    NormalizeIsNormal(url);
    NoOwnChild(NormalizeLockRoot(url));
    if IsChildUri(st.locks[t].root, NormalizeLockRoot(url)) { NotAboveAndBelow(st.locks[t].root, NormalizeLockRoot(url)); }
  }

  /** A removal raises only if it is recursive and a lock below has expired; in a shared dictionary then always. */
  lemma RemovalRaisesOnlyBelow(st: Store, now: int, shared: bool, path: string, recursive: bool, raised: bool, gone: set<Token>)
    requires RemovalOutcome(st, now, shared, path, recursive, raised, gone)
    ensures raised ==> recursive && exists t :: t in st.locks && Expired(st.locks[t], now) && IsChildUri(path, st.locks[t].root)
    ensures shared && recursive && (exists t :: t in st.locks && Expired(st.locks[t], now) && IsChildUri(path, st.locks[t].root)) ==> raised
  {
    var purged := if recursive then Below(st, path) * ExpiredTokens(st, now) else {};
    assert purged != {} ==> exists t :: t in purged;
    if recursive {
      forall t | t in st.locks && Expired(st.locks[t], now) && IsChildUri(path, st.locks[t].root) ensures t in purged { }
    }
  }

  /** A check raises only where it goes over the members and one of their locks has expired; a shared dictionary then always. */
  lemma RaisesOnlyBelow(st: Store, now: int, shared: bool, url: string, depth: Depth, check: Check, r: Verdict, gone: set<Token>)
    requires CheckOutcome(st, now, shared, url, depth, check, r, gone)
    ensures r.Raised? ==>
              depth.Infinity? && exists t :: t in st.locks && Expired(st.locks[t], now) && IsChildUri(NormalizeLockRoot(url), st.locks[t].root)
    ensures shared && depth.Infinity?
            && (exists t :: t in st.locks && Expired(st.locks[t], now) && IsChildUri(NormalizeLockRoot(url), st.locks[t].root))
            ==> r.Raised?
  {
    var purged := if depth.Infinity? then Below(st, NormalizeLockRoot(url)) * ExpiredTokens(st, now) else {};
    assert purged != {} ==> exists t :: t in purged;
    if depth.Infinity? {
      forall t | t in st.locks && Expired(st.locks[t], now) && IsChildUri(NormalizeLockRoot(url), st.locks[t].root)
        ensures t in purged
      {
      }
    }
  }

  // ---------------------------------------------------------------- the life of a lock

  /** A granted lock has the root, scope, depth and owner asked for, and lives for the seconds asked for, four weeks at most, a week if none are given. */
  lemma {:induction false} GrantedLife(st: Store, now: int, shared: bool, q: Request, token: Token, r: Answer, gone: set<Token>,
          after: Store, later: int)
    requires AcquireOutcome(st, now, shared, q, token, r, gone, after) && r.Granted? && now >= 0
    ensures r.lock.token == token && r.lock.root == NormalizeLockRoot(q.url) && r.lock.principal == q.principal
    ensures r.lock.scope == q.scope && r.lock.depth == q.depth && r.lock.owner == q.owner
    ensures after.locks == (st.locks - gone)[token := r.lock]
    ensures var seconds := if q.timeout.None? then 604800
                           else if 0 < q.timeout.value <= 2419200 then q.timeout.value else 2419200;
            r.lock.timeout == seconds && (Expired(r.lock, later) <==> later > now + seconds)
  {
  }

  /** And so does a refreshed one, from then on; a timeout of 0 or below -1 is no refresh. */
  lemma {:induction false} RefreshedLife(st: Store, token: Token, timeout: Option<int>, now: int, later: int)
    requires token in st.locks && now >= 0
    ensures var l, seconds := RefreshEffect(st, token, timeout, now).locks[token],
                              if timeout.None? then 604800 else if 0 < timeout.value <= 2419200 then timeout.value else 2419200;
            if timeout.Some? && (timeout.value == 0 || timeout.value < -1) then l == st.locks[token]
            else l == st.locks[token].(timeout := seconds, expire := now + seconds) && (Expired(l, later) <==> later > now + seconds)
  {
  }

  // ---------------------------------------------------------------- the locks that protect a URL

  /**
    The locks reported for a URL are the live ones met that cover it, of the principal alone if
    one is given.
  */
  lemma {:induction false} ProtectingMeans(st: Store, now: int, shared: bool, p: string, principal: Option<string>, t: Token)
    requires Valid(st) && Normal(p)
    ensures t in Protecting(st, now, shared, p, principal) <==>
              Seen(st, now, shared, t) && Covers(st.locks[t], p) && (principal.Some? ==> st.locks[t].principal == principal.value)
  {
    if t in st.locks {
      assert Indexed(st, t);
      MetIff(st, now, shared, t);
    }
  }

  /** A client may change a resource exactly if all locks reported for it are its own and it submits their tokens. */
  lemma {:induction false} OwnLocksPermit(st: Store, now: int, shared: bool, url: string, principal: string, tokens: seq<Token>,
          r: Verdict, gone: set<Token>)
    requires Valid(st) && Absolute(url) && CheckOutcome(st, now, shared, url, Zero, ForWrite(principal, tokens), r, gone)
    ensures var p := NormalizeLockRoot(url);
            r.Permitted? <==>
              && Protecting(st, now, shared, p, None) == Protecting(st, now, shared, p, Some(principal))
              && forall t :: t in Protecting(st, now, shared, p, None) ==> t in tokens
  {
    var p := NormalizeLockRoot(url);
    NormalizeIsNormal(url);
    RaisesOnlyBelow(st, now, shared, url, Zero, ForWrite(principal, tokens), r, gone);
    RefusedWriteNames(st, now, shared, url, Zero, principal, tokens, r, gone);
    var all, own := Protecting(st, now, shared, p, None), Protecting(st, now, shared, p, Some(principal));
    var forbidding := Forbidding(st, now, shared, url, Zero, principal, tokens);
    forall t ensures t in forbidding <==> t in all && !(t in own && t in tokens) {
      ProtectingMeans(st, now, shared, p, None, t);
      ProtectingMeans(st, now, shared, p, Some(principal), t);
    }
    forall t | t in own ensures t in all {
      ProtectingMeans(st, now, shared, p, None, t);
      ProtectingMeans(st, now, shared, p, Some(principal), t);
    }
    NothingForbids(forbidding, all, own, tokens);
  }

  lemma NothingForbids(forbidding: set<Token>, all: set<Token>, own: set<Token>, tokens: seq<Token>)
    requires own <= all && forall t :: t in forbidding <==> t in all && !(t in own && t in tokens)
    ensures forbidding == {} <==> all == own && forall t :: t in all ==> t in tokens
  {
    assert forbidding == {} ==> forall t :: t in all ==> t in own && t in tokens;
  }

  // ---------------------------------------------------------------- the shared list

  /** A list of two tokens of which the first has expired. */
  lemma SecondIsPassedOver(st: Store, p: string, a: Token, b: Token, now: int)
    requires Valid(st) && Normal(p) && st.locks.Keys == {a, b} && a != b && Toks(st, p) == [a, b]
    requires Expired(st.locks[a], now) && !Expired(st.locks[b], now)
    ensures ExpiredTokens(st, now) == {a} && MetAbove(st, now, true, p) == {a} && MetSet(st, now, true, p) == {a}
    ensures st.locks[a].root == p && st.locks[b].root == p && Below(st, p) == {}
  {
    ToksAreStored(st, p);
    NoOwnChild(p);
    assert ExpiredTokens(st, now) == {a};
    assert [a, b][2..] == [];
    assert Visited([a, b], {a}, true) == [a] + Visited([], {a}, true);
  }

  /** Where only live shared locks at one path are stored, a further shared lock of depth 0 is granted there. */
  lemma SharedIsGranted(st: Store, q: Request, token: Token, now: int, shared: bool)
    requires Valid(st) && Normal(q.url) && q.scope.Shared? && q.depth.Zero? && q.timeout != Some(0)
    requires token !in st.locks
    requires forall t :: t in st.locks ==> st.locks[t].root == q.url && st.locks[t].scope.Shared? && !Expired(st.locks[t], now)
    ensures AcquireOutcome(st, now, shared, q, token, Granted(NewLock(q, token, now)), {}, Add(st, NewLock(q, token, now)))
  {
    NormalIsFixed(q.url);
    PurgeNothing(st, {});
    assert DeniedAbove(st, now, shared, q.url, ForLock(Shared)) == {};
  }

  /** Behind an expired lock, a live shared lock is passed over, and an exclusive lock is granted beside it. */
  lemma SharedListsGrantTooMuch(st: Store, p: string, a: Token, b: Token, q: Request, token: Token, now: int)
    requires Valid(st) && Normal(p) && st.locks.Keys == {a, b} && a != b && Toks(st, p) == [a, b]
    requires Expired(st.locks[a], now) && !Expired(st.locks[b], now) && token !in st.locks
    requires q.url == p && q.scope.Exclusive? && q.depth.Zero? && q.timeout != Some(0)
    ensures var l := NewLock(q, token, now);
            && AcquireOutcome(st, now, true, q, token, Granted(l), {a}, Add(Purge(st, {a}), l))
            && !Compatible(Add(Purge(st, {a}), l))
  {
    NormalIsFixed(p);
    SecondIsPassedOver(st, p, a, b, now);
    var l := NewLock(q, token, now);
    var after := Add(Purge(st, {a}), l);
    assert b in after.locks && after.locks[b] == st.locks[b] && after.locks[token] == l;
    assert Clash(st.locks[b], l);
  }

  // ---------------------------------------------------------------- write permission

  /**
    Sections 6.1 and 7.4 of RFC 4918: every live lock covering the URL is the principal's and
    submitted, and, for depth infinity, no live lock stands below.
  */
  ghost predicate MayWrite(st: Store, now: int, url: string, depth: Depth, principal: string, tokens: seq<Token>) {
    forall t :: t in st.locks && !Expired(st.locks[t], now) ==>
      && (Covers(st.locks[t], NormalizeLockRoot(url)) ==> st.locks[t].principal == principal && t in tokens)
      && (depth.Infinity? ==> !IsChildUri(NormalizeLockRoot(url), st.locks[t].root))
  }

  /** No live lock that the scans passed over covers the URL against the principal. */
  ghost predicate NothingUnseen(st: Store, now: int, shared: bool, url: string, principal: string, tokens: seq<Token>) {
    forall t :: t in PassedOver(st, now, shared, NormalizeLockRoot(url)) && Covers(st.locks[t], NormalizeLockRoot(url)) ==>
      Expired(st.locks[t], now) || (st.locks[t].principal == principal && t in tokens)
  }

  /** Which live locks make the check deny. */
  lemma LiveLockDenies(st: Store, now: int, shared: bool, p: string, principal: string, tokens: seq<Token>, t: Token)
    requires Valid(st) && t in st.locks && !Expired(st.locks[t], now)
    ensures Covers(st.locks[t], p) ==> t in AboveOrAt(st, p)
    ensures t in DeniedAbove(st, now, shared, p, ForWrite(principal, tokens)) <==>
              t in MetAbove(st, now, shared, p) && Covers(st.locks[t], p) && !(st.locks[t].principal == principal && t in tokens)
    ensures t in LiveBelow(st, now, p) <==> IsChildUri(p, st.locks[t].root)
  {
    assert Indexed(st, t);
  }

  /** On either kind of list: the rule holds exactly if the check permits and has not passed over a lock that forbids. */
  lemma {:induction false} WritePermissionIff(st: Store, now: int, shared: bool, url: string, depth: Depth, principal: string,
          tokens: seq<Token>, r: Verdict, gone: set<Token>)
    requires Valid(st) && Absolute(url) && !r.Raised?
    requires CheckOutcome(st, now, shared, url, depth, ForWrite(principal, tokens), r, gone)
    ensures MayWrite(st, now, url, depth, principal, tokens) <==>
              r.Permitted? && NothingUnseen(st, now, shared, url, principal, tokens)
  {
    var p, check := NormalizeLockRoot(url), ForWrite(principal, tokens);
    PassedOverIsUnmet(st, now, shared, p);
    var denied := DeniedAbove(st, now, shared, p, check) + if depth.Infinity? then LiveBelow(st, now, p) else {};
    assert r.Permitted? <==> denied == {};
    if MayWrite(st, now, url, depth, principal, tokens) {
      forall t | t in denied ensures false { LiveLockDenies(st, now, shared, p, principal, tokens, t); }
    }
    if denied == {} && NothingUnseen(st, now, shared, url, principal, tokens) {
      forall t | t in st.locks && !Expired(st.locks[t], now)
        ensures Covers(st.locks[t], p) ==> st.locks[t].principal == principal && t in tokens
        ensures depth.Infinity? ==> !IsChildUri(p, st.locks[t].root)
      {
        LiveLockDenies(st, now, shared, p, principal, tokens, t);
        assert t !in denied;
      }
    }
  }

  /** On copied lists nothing is passed over, and the check is the rule. */
  lemma WritePermissionIsExact(st: Store, now: int, url: string, depth: Depth, principal: string, tokens: seq<Token>,
          r: Verdict, gone: set<Token>)
    requires Valid(st) && Absolute(url) && !r.Raised?
    requires CheckOutcome(st, now, false, url, depth, ForWrite(principal, tokens), r, gone)
    ensures r.Permitted? <==> MayWrite(st, now, url, depth, principal, tokens)
  {
    WritePermissionIff(st, now, false, url, depth, principal, tokens, r, gone);
  }

  /** Under an exclusive lock that is not passed over, two principals are never both permitted on a covered URL. */
  lemma ExclusiveKeepsOthersOut(st: Store, now: int, shared: bool, url: string, x: Token, depth1: Depth, depth2: Depth,
          principal1: string, tokens1: seq<Token>, principal2: string, tokens2: seq<Token>,
          r1: Verdict, gone1: set<Token>, r2: Verdict, gone2: set<Token>)
    requires Valid(st) && Absolute(url)
    requires x in st.locks && st.locks[x].scope.Exclusive? && !Expired(st.locks[x], now)
    requires Covers(st.locks[x], NormalizeLockRoot(url)) && x !in PassedOver(st, now, shared, NormalizeLockRoot(url))
    requires CheckOutcome(st, now, shared, url, depth1, ForWrite(principal1, tokens1), r1, gone1)
    requires CheckOutcome(st, now, shared, url, depth2, ForWrite(principal2, tokens2), r2, gone2)
    requires r1.Permitted? && r2.Permitted?
    ensures principal1 == principal2 == st.locks[x].principal && x in tokens1 && x in tokens2
  {
    ExclusiveIsHeeded(st, now, shared, url, x, depth1, principal1, tokens1, r1, gone1);
    ExclusiveIsHeeded(st, now, shared, url, x, depth2, principal2, tokens2, r2, gone2);
  }

  /** A lock that is not passed over lets only its principal through, with its token. */
  lemma ExclusiveIsHeeded(st: Store, now: int, shared: bool, url: string, x: Token, depth: Depth, principal: string,
          tokens: seq<Token>, r: Verdict, gone: set<Token>)
    requires Valid(st) && Absolute(url) && x in st.locks && !Expired(st.locks[x], now)
    requires Covers(st.locks[x], NormalizeLockRoot(url)) && x !in PassedOver(st, now, shared, NormalizeLockRoot(url))
    requires CheckOutcome(st, now, shared, url, depth, ForWrite(principal, tokens), r, gone) && r.Permitted?
    ensures principal == st.locks[x].principal && x in tokens
  {
    var p := NormalizeLockRoot(url);
    PassedOverIsUnmet(st, now, shared, p);
    assert Indexed(st, x);
    assert x in DeniedAbove(st, now, shared, p, ForWrite(principal, tokens)) <==> !(st.locks[x].principal == principal && x in tokens);
  }

  /** Behind an expired lock any lock goes unseen: the check lets everyone write. */
  lemma SecondIsUnheeded(st: Store, p: string, a: Token, x: Token, principal: string, now: int)
    requires HalfExpired(st, p, a, x, now) && Normal(p)
    ensures CheckOutcome(st, now, true, p, Zero, ForWrite(principal, []), Permitted, {a})
    ensures Covers(st.locks[x], p)
  {
    NormalIsFixed(p);
    SecondIsPassedOver(st, p, a, x, now);
  }

  /** And it stays behind when all locks of the URL are removed. */
  lemma SecondIsNotRemoved(st: Store, p: string, a: Token, b: Token, now: int)
    requires HalfExpired(st, p, a, b, now) && Normal(p)
    ensures RemovalOutcome(st, now, true, p, true, false, {a}) && At(st, p) == {a, b} && b in Purge(st, {a}).locks
  {
    SecondIsPassedOver(st, p, a, b, now);
    ToksAreStored(st, p);
  }

  /** Two locks at a path, of which only the first has expired. */
  ghost predicate HalfExpired(st: Store, p: string, a: Token, b: Token, now: int) {
    && Valid(st) && st.locks.Keys == {a, b} && a != b && Toks(st, p) == [a, b]
    && Expired(st.locks[a], now) && !Expired(st.locks[b], now)
  }

  // ---------------------------------------------------------------- runs

  datatype Op =
    | AcquireOp(q: Request, token: Token)
    | ReleaseOp(token: Token)
    | RefreshOp(token: Token, timeout: Option<int>)
    | ReadOp
    | RemoveAllOp(url: string, recursive: bool)
    | WaitOp(seconds: nat)

  datatype Moment = Moment(st: Store, now: int)

  /** What one operation may do; a read of any kind purges expired locks only. */
  ghost predicate Step(shared: bool, a: Moment, op: Op, b: Moment) {
    if op.WaitOp? then b == Moment(a.st, a.now + op.seconds)
    else
      && b.now == a.now
      && match op
         case AcquireOp(q, token) =>
           && q.url != "" && NoSpace(q.url) && token !in a.st.locks
           && exists r, gone :: AcquireOutcome(a.st, a.now, shared, q, token, r, gone, b.st)
         case ReleaseOp(token) => b.st == Purge(a.st, {token})
         case RefreshOp(token, timeout) => b.st == RefreshEffect(a.st, token, timeout, a.now)
         case ReadOp => exists gone :: gone <= ExpiredTokens(a.st, a.now) && b.st == Purge(a.st, gone)
         case RemoveAllOp(url, recursive) =>
           exists raised, gone :: RemovalOutcome(a.st, a.now, shared, NormalizeLockRoot(url), recursive, raised, gone) && b.st == Purge(a.st, gone)
  }

  ghost predicate IsRun(shared: bool, ms: seq<Moment>, ops: seq<Op>) {
    && |ms| == |ops| + 1
    && ms[0].st == EMPTY && ms[0].now >= 0
    && forall i :: 0 <= i < |ops| ==> Step(shared, ms[i], ops[i], ms[i + 1])
  }

  ghost predicate Bounded(m: Moment) {
    m.now >= 0 && forall t :: t in m.st.locks ==> 0 <= m.st.locks[t].expire <= m.now + LOCK_TIME_OUT_MAX
  }

  lemma PurgeKeepsCompatible(st: Store, gone: set<Token>)
    requires Compatible(st)
    ensures Compatible(Purge(st, gone))
  {
  }

  lemma RefreshKeepsCompatible(st: Store, token: Token, timeout: Option<int>, now: int)
    requires Compatible(st)
    ensures Compatible(RefreshEffect(st, token, timeout, now))
  {
  }

  lemma AcquireKeepsValid(shared: bool, a: Moment, q: Request, token: Token, b: Moment)
    requires Valid(a.st) && Bounded(a) && Step(shared, a, AcquireOp(q, token), b)
    ensures Valid(b.st) && Bounded(b)
  {
    var r, gone :| AcquireOutcome(a.st, a.now, shared, q, token, r, gone, b.st);
    PurgeKeepsValid(a.st, gone);
    if r.Granted? {
      NormalizeIsNormal(q.url);
      AddKeepsValid(Purge(a.st, gone), r.lock);
    }
  }

  lemma StepPurges(shared: bool, a: Moment, op: Op, b: Moment) returns (gone: set<Token>)
    requires Step(shared, a, op, b) && (op.ReleaseOp? || op.ReadOp? || op.RemoveAllOp?)
    ensures b.st == Purge(a.st, gone) && b.now == a.now
  {
    match op {
      case ReleaseOp(token) => gone := {token};
      case ReadOp => gone :| gone <= ExpiredTokens(a.st, a.now) && b.st == Purge(a.st, gone);
      case RemoveAllOp(url, recursive) =>
        var raised;
        raised, gone :| RemovalOutcome(a.st, a.now, shared, NormalizeLockRoot(url), recursive, raised, gone) && b.st == Purge(a.st, gone);
    }
  }

  lemma StepKeepsValid(shared: bool, a: Moment, op: Op, b: Moment)
    requires Valid(a.st) && Bounded(a) && Step(shared, a, op, b)
    ensures Valid(b.st) && Bounded(b)
  {
    match op {
      case AcquireOp(q, token) => AcquireKeepsValid(shared, a, q, token, b);
      case RefreshOp(token, timeout) =>
        if token in a.st.locks { RetimedKeepsValid(a.st, token, Clamp(RefreshSeconds(timeout)), a.now); }
      case WaitOp(seconds) =>
      case _ =>
        var gone := StepPurges(shared, a, op, b);
        PurgeKeepsValid(a.st, gone);
    }
  }

  lemma StepKeepsCompatible(a: Moment, op: Op, b: Moment)
    requires Valid(a.st) && Compatible(a.st) && Step(false, a, op, b)
    ensures Compatible(b.st)
  {
    match op {
      case AcquireOp(q, token) =>
        var r, gone :| AcquireOutcome(a.st, a.now, false, q, token, r, gone, b.st);
        if r.Granted? { CopiedGrantKeepsCompatible(a.st, a.now, q, token, r, gone, b.st); }
      case RefreshOp(token, timeout) => RefreshKeepsCompatible(a.st, token, timeout, a.now);
      case WaitOp(seconds) =>
      case _ =>
        var gone := StepPurges(false, a, op, b);
        PurgeKeepsCompatible(a.st, gone);
    }
  }

  /** Index and table agree, and no lock outlives its limit, in every run on either kind of storage. */
  lemma {:induction false} EveryRunIsValid(shared: bool, ms: seq<Moment>, ops: seq<Op>, i: nat)
    requires IsRun(shared, ms, ops) && i < |ms|
    ensures Valid(ms[i].st) && Bounded(ms[i])
  {
    if i > 0 {
      EveryRunIsValid(shared, ms, ops, i - 1);
      StepKeepsValid(shared, ms[i - 1], ops[i - 1], ms[i]);
    }
  }

  /**
    Section 9.10.5 of RFC 4918 over all runs, with copied lists: stored locks whose scopes overlap
    are shared, expired ones and refreshed ones included.
  */
  lemma {:induction false} EveryRunIsCompatible(ms: seq<Moment>, ops: seq<Op>, i: nat)
    requires IsRun(false, ms, ops) && i < |ms|
    ensures Compatible(ms[i].st)
  {
    if i > 0 {
      EveryRunIsCompatible(ms, ops, i - 1);
      EveryRunIsValid(false, ms, ops, i - 1);
      StepKeepsCompatible(ms[i - 1], ops[i - 1], ms[i]);
    }
  }

  ghost predicate BreakingRun(shared: bool, ms: seq<Moment>, ops: seq<Op>) {
    IsRun(shared, ms, ops) && !Compatible(ms[|ms| - 1].st)
  }

  lemma RunSnoc(shared: bool, ms: seq<Moment>, ops: seq<Op>, op: Op, m: Moment)
    ensures IsRun(shared, ms, ops) && Step(shared, ms[|ms| - 1], op, m) ==> IsRun(shared, ms + [m], ops + [op])
  {
  }

  ghost predicate EndsAt(ms: seq<Moment>, ops: seq<Op>, m: Moment) {
    IsRun(true, ms, ops) && ms[|ms| - 1] == m
  }

  lemma OneMoreShared(ms: seq<Moment>, ops: seq<Op>, st: Store, q: Request, token: Token, now: int)
    requires EndsAt(ms, ops, Moment(st, now)) && Valid(st) && NoSpace(q.url) && token !in st.locks
    requires Normal(q.url) && q.scope.Shared? && q.depth.Zero? && q.timeout != Some(0)
    requires forall t :: t in st.locks ==> st.locks[t].root == q.url && st.locks[t].scope.Shared? && !Expired(st.locks[t], now)
    ensures var m := Moment(Add(st, NewLock(q, token, now)), now);
            Valid(m.st) && EndsAt(ms + [m], ops + [AcquireOp(q, token)], m)
  {
    SharedIsGranted(st, q, token, now, true);
    NormalIsFixed(q.url);
    AddKeepsValid(st, NewLock(q, token, now));
    var m := Moment(Add(st, NewLock(q, token, now)), now);
    assert Step(true, Moment(st, now), AcquireOp(q, token), m);
    RunSnoc(true, ms, ops, AcquireOp(q, token), m);
  }

  function SharedRequest(p: string, owner: string, timeout: int): Request {
    Request(p, owner, Shared, Zero, "", Some(timeout))
  }

  /** Two shared locks granted one after the other. */
  function TwoShared(p: string): Store {
    Add(Add(EMPTY, NewLock(SharedRequest(p, "a", 10), "1", 0)), NewLock(SharedRequest(p, "b", 1000), "2", 0))
  }

  lemma TwoSharedHalfExpire(p: string)
    requires Normal(p) && NoSpace(p) && Valid(TwoShared(p))
    ensures HalfExpired(TwoShared(p), p, "1", "2", 20)
  {
    NormalIsFixed(p);
    assert Toks(TwoShared(p), p) == ["1", "2"];
  }

  lemma RunToTwoShared(p: string) returns (ms: seq<Moment>, ops: seq<Op>)
    requires Normal(p) && NoSpace(p)
    ensures EndsAt(ms, ops, Moment(TwoShared(p), 0)) && Valid(TwoShared(p))
  {
    var qa, qb := SharedRequest(p, "a", 10), SharedRequest(p, "b", 1000);
    NormalIsFixed(p);
    ms, ops := [Moment(EMPTY, 0)], [];
    OneMoreShared(ms, ops, EMPTY, qa, "1", 0);
    var st1 := Add(EMPTY, NewLock(qa, "1", 0));
    ms, ops := ms + [Moment(st1, 0)], ops + [AcquireOp(qa, "1")];
    OneMoreShared(ms, ops, st1, qb, "2", 0);
    ms, ops := ms + [Moment(TwoShared(p), 0)], ops + [AcquireOp(qb, "2")];
  }

  /** A run to such a table, with the second lock alive at its end. */
  lemma RunToHalfExpired(p: string) returns (st: Store, ms: seq<Moment>, ops: seq<Op>)
    requires Normal(p) && NoSpace(p)
    ensures EndsAt(ms, ops, Moment(st, 20)) && HalfExpired(st, p, "1", "2", 20) && st == TwoShared(p)
  {
    st := TwoShared(p);
    ms, ops := RunToTwoShared(p);
    RunSnoc(true, ms, ops, WaitOp(20), Moment(st, 20));
    ms, ops := ms + [Moment(st, 20)], ops + [WaitOp(20)];
    TwoSharedHalfExpire(p);
  }

  lemma ClashStep(p: string)
    requires Normal(p) && NoSpace(p) && HalfExpired(TwoShared(p), p, "1", "2", 20)
    ensures !Compatible(ClashingStore(p))
    ensures Step(true, Moment(TwoShared(p), 20), AcquireOp(ExclusiveRequest(p), "3"), Moment(ClashingStore(p), 20))
  {
    SharedListsGrantTooMuch(TwoShared(p), p, "1", "2", ExclusiveRequest(p), "3", 20);
  }

  /** After that run an exclusive lock is granted beside the second. */
  lemma RunToClash(p: string) returns (st: Store, ms: seq<Moment>, ops: seq<Op>)
    requires Normal(p) && NoSpace(p)
    ensures EndsAt(ms, ops, Moment(st, 20)) && !Compatible(st) && st == ClashingStore(p)
  {
    var before;
    before, ms, ops := RunToHalfExpired(p);
    ClashStep(p);
    st := ClashingStore(p);
    RunSnoc(true, ms, ops, AcquireOp(ExclusiveRequest(p), "3"), Moment(st, 20));
    ms, ops := ms + [Moment(st, 20)], ops + [AcquireOp(ExclusiveRequest(p), "3")];
  }

  function ExclusiveRequest(p: string): Request {
    Request(p, "c", Exclusive, Zero, "", Some(1000))
  }

  function ClashingStore(p: string): Store {
    Add(Purge(TwoShared(p), {"1"}), NewLock(ExclusiveRequest(p), "3", 20))
  }

  /**
    With shared lists it is false: two shared locks, time for the first to expire, and an exclusive
    lock is granted beside the second.
  */
  lemma SharedListsBreakCompatibility(p: string)
    requires Normal(p) && NoSpace(p)
    ensures exists ms, ops :: BreakingRun(true, ms, ops)
  {
    var st, ms, ops := RunToClash(p);
    assert BreakingRun(true, ms, ops);
  }

  /** A run to a table in which a client may write to a path in spite of another's live exclusive lock there, or remove all locks but that one. */
  ghost predicate PermittingRun(shared: bool, ms: seq<Moment>, ops: seq<Op>, p: string, x: Token, principal: string) {
    && IsRun(shared, ms, ops)
    && var m := ms[|ms| - 1];
       && x in m.st.locks && m.st.locks[x].scope.Exclusive? && !Expired(m.st.locks[x], m.now)
       && Covers(m.st.locks[x], p) && m.st.locks[x].principal != principal
       && (exists gone :: CheckOutcome(m.st, m.now, shared, p, Zero, ForWrite(principal, []), Permitted, gone))
       && (exists gone :: RemovalOutcome(m.st, m.now, shared, p, true, false, gone) && x !in gone && x in At(m.st, p))
  }

  /** When the second shared lock has expired too, the exclusive one behind it goes unseen. */
  lemma ClashHalfExpires(p: string)
    requires Normal(p) && NoSpace(p) && Valid(ClashingStore(p))
    ensures HalfExpired(ClashingStore(p), p, "2", "3", 1010)
    ensures ClashingStore(p).locks["3"].scope.Exclusive? && ClashingStore(p).locks["3"].principal == "c"
  {
    NormalIsFixed(p);
    assert Toks(TwoShared(p), p) == ["1", "2"];
    PurgeToks(TwoShared(p), {"1"}, p);
    assert ["1", "2"][1..] == ["2"] && ["2"][1..] == [];
    assert Filter(["1", "2"], {"1"}) == ["2"];
    assert Toks(ClashingStore(p), p) == ["2", "3"];
  }

  /** With shared lists the check permits too much, and a removal leaves too much, in a run. */
  lemma SharedListsPermitTooMuch(p: string, principal: string)
    requires Normal(p) && NoSpace(p) && principal != "c"
    ensures exists ms, ops :: PermittingRun(true, ms, ops, p, "3", principal)
  {
    var st, ms, ops := RunToClash(p);
    EveryRunIsValid(true, ms, ops, |ms| - 1);
    var m := Moment(st, 1010);
    RunSnoc(true, ms, ops, WaitOp(990), m);
    ClashHalfExpires(p);
    SecondIsUnheeded(st, p, "2", "3", principal, 1010);
    SecondIsNotRemoved(st, p, "2", "3", 1010);
    assert (ms + [m])[|ms + [m]| - 1] == m;
    assert PermittingRun(true, ms + [m], ops + [WaitOp(990)], p, "3", principal);
  }
}
