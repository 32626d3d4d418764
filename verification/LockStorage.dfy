/**
  The lock table of `wsgidav/lock_man/lock_storage.py`: the locks by token, and the index
  from URL to the tokens of the locks rooted there.

  `Store` is the table as a value, and `Purge` (all traces of a set of tokens vanish) the one
  change reads may make. The class `LockStorage` has the two halves of the original dictionary
  as fields and changes them as the original does.

  The original scans a token list while `get` may purge from that same list. What that does
  depends on the container: a shelve hands out copies, the in-memory dictionary hands out the
  list itself, so that a removal moves the rest of the list under the running index. The
  constant `shared` tells which of the two a storage is, and `Visited` which tokens a scan meets.
*/
module LockStorage {
  import opened Sequences
  import opened Uri

  type Token = string

  datatype Scope = Shared | Exclusive
  datatype Depth = Zero | Infinity

  datatype Lock = Lock(token: Token, root: string, principal: string, scope: Scope, depth: Depth,
                       owner: string, timeout: int, expire: int)

  datatype Store = Store(locks: map<Token, Lock>, index: map<string, seq<Token>>)

  const LOCK_TIME_OUT_DEFAULT := 604800
  const LOCK_TIME_OUT_MAX := 4 * 604800
  const KEY_PREFIX := "URL2TOKEN:"
  const TOKEN_PREFIX := "opaquelocktoken:"
  const EMPTY := Store(map[], map[])

  function Key(path: string): string {
    KEY_PREFIX + path
  }

  predicate Expired(l: Lock, now: int) {
    l.expire >= 0 && l.expire < now
  }

  function Toks(st: Store, path: string): seq<Token> {
    if Key(path) in st.index then st.index[Key(path)] else []
  }

  /** The list of its lock's root has the token. */
  ghost predicate Indexed(st: Store, t: Token)
    requires t in st.locks
  {
    st.locks[t].token == t && Normal(st.locks[t].root) && t in Toks(st, st.locks[t].root)
  }

  /** A list of the index has tokens of stored locks rooted there, each once, and at least one. */
  ghost predicate Listed(st: Store, k: string)
    requires k in st.index
  {
    && st.index[k] != [] && NoRepeats(st.index[k])
    && forall t :: t in st.index[k] ==> t in st.locks && k == Key(st.locks[t].root)
  }

  /** The two halves agree: a token stands once in the list of its lock's root, and nowhere else. */
  ghost predicate Valid(st: Store) {
    && (forall t :: t in st.locks ==> Indexed(st, t))
    && (forall k :: k in st.index ==> Listed(st, k))
  }

  // ---------------------------------------------------------------- purging

  function Filter(q: seq<Token>, gone: set<Token>): seq<Token> {
    if q == [] then [] else if q[0] in gone then Filter(q[1..], gone) else [q[0]] + Filter(q[1..], gone)
  }

  function PurgeIndex(index: map<string, seq<Token>>, gone: set<Token>): map<string, seq<Token>> {
    map k | k in index && Filter(index[k], gone) != [] :: Filter(index[k], gone)
  }

  function Purge(st: Store, gone: set<Token>): Store {
    Store(st.locks - gone, PurgeIndex(st.index, gone))
  }

  lemma {:induction false} FilterMembers(q: seq<Token>, gone: set<Token>, t: Token)
    ensures t in Filter(q, gone) <==> t in q && t !in gone
  {
    if q != [] {
      FilterMembers(q[1..], gone, t);
      assert t in q <==> t == q[0] || t in q[1..];
    }
  }

  lemma {:induction false} FilterNoRepeats(q: seq<Token>, gone: set<Token>)
    requires NoRepeats(q)
    ensures NoRepeats(Filter(q, gone))
  {
    if q != [] {
      FilterNoRepeats(q[1..], gone);
      FilterMembers(q[1..], gone, q[0]);
    }
  }

  lemma {:induction false} FilterNothing(q: seq<Token>, gone: set<Token>)
    requires forall t :: t in q ==> t !in gone
    ensures Filter(q, gone) == q
  {
    if q != [] { FilterNothing(q[1..], gone); }
  }

  lemma FilterSpec(q: seq<Token>, gone: set<Token>)
    ensures forall t :: t in Filter(q, gone) <==> t in q && t !in gone
    ensures NoRepeats(q) ==> NoRepeats(Filter(q, gone))
    ensures (forall t :: t in q ==> t !in gone) ==> Filter(q, gone) == q
  {
    forall t ensures t in Filter(q, gone) <==> t in q && t !in gone { FilterMembers(q, gone, t); }
    if NoRepeats(q) { FilterNoRepeats(q, gone); }
    if forall t :: t in q ==> t !in gone { FilterNothing(q, gone); }
  }

  lemma {:induction false} FilterTwice(q: seq<Token>, a: set<Token>, b: set<Token>)
    ensures Filter(Filter(q, a), b) == Filter(q, a + b)
  {
    if q != [] {
      FilterTwice(q[1..], a, b);
      if q[0] !in a {
        assert Filter(q, a) == [q[0]] + Filter(q[1..], a);
        assert Filter(q, a)[1..] == Filter(q[1..], a);
      }
    }
  }

  lemma KeyIsInjective(p: string, q: string)
    ensures Key(p) == Key(q) <==> p == q
  {
    assert Key(p)[|KEY_PREFIX|..] == p && Key(q)[|KEY_PREFIX|..] == q;
  }

  lemma PurgeToks(st: Store, gone: set<Token>, p: string)
    ensures Toks(Purge(st, gone), p) == Filter(Toks(st, p), gone)
  {
  }

  lemma PurgeKeepsValid(st: Store, gone: set<Token>)
    requires Valid(st)
    ensures Valid(Purge(st, gone))
  {
    var st' := Purge(st, gone);
    forall k | k in st'.index ensures Listed(st', k) {
      assert Listed(st, k);
      FilterSpec(st.index[k], gone);
    }
    forall t | t in st'.locks ensures Indexed(st', t) {
      assert Indexed(st, t);
      PurgeToks(st, gone, st.locks[t].root);
      FilterMembers(Toks(st, st.locks[t].root), gone, t);
    }
  }

  lemma PurgeTwice(st: Store, a: set<Token>, b: set<Token>)
    ensures Purge(Purge(st, a), b) == Purge(st, a + b)
  {
    forall k | k in st.index ensures Filter(Filter(st.index[k], a), b) == Filter(st.index[k], a + b) {
      FilterTwice(st.index[k], a, b);
    }
    assert Filter([], b) == [];
  }

  lemma PurgeNothing(st: Store, gone: set<Token>)
    requires Valid(st) && forall t :: t in st.locks ==> t !in gone
    ensures Purge(st, gone) == st
  {
    forall k | k in st.index ensures Filter(st.index[k], gone) == st.index[k] && st.index[k] != [] {
      assert Listed(st, k);
      FilterNothing(st.index[k], gone);
    }
  }

  lemma {:induction false} RemovedIsFilter(q: seq<Token>, t: Token)
    requires NoRepeats(q)
    ensures Remove(q, t) == Filter(q, {t})
  {
    if q != [] {
      if q[0] == t { FilterNothing(q[1..], {t}); } else { RemovedIsFilter(q[1..], t); }
    }
  }

  // ---------------------------------------------------------------- scanning a list

  /** The tokens a scan meets; after a purge from a shared list it passes over the next one. */
  function Visited(q: seq<Token>, expired: set<Token>, shared: bool): seq<Token> {
    if q == [] then []
    else if shared && q[0] in expired && |q| > 1 then [q[0]] + Visited(q[2..], expired, shared)
    else [q[0]] + Visited(q[1..], expired, shared)
  }

  lemma {:induction false} CopiedListsAreMetWhole(q: seq<Token>, expired: set<Token>)
    ensures Visited(q, expired, false) == q
  {
    if q != [] { CopiedListsAreMetWhole(q[1..], expired); }
  }

  lemma {:induction false} VisitedSpec(q: seq<Token>, expired: set<Token>, shared: bool)
    ensures forall t :: t in Visited(q, expired, shared) ==> t in q
    ensures (forall t :: t in q ==> t !in expired) ==> Visited(q, expired, shared) == q
    ensures (exists t :: t in q && t in expired) ==> exists t :: t in Visited(q, expired, shared) && t in expired
  {
    if q != [] {
      var v := Visited(q, expired, shared);
      assert forall t :: t in q <==> t == q[0] || t in q[1..];
      if shared && q[0] in expired && |q| > 1 {
        VisitedSpec(q[2..], expired, shared);
        assert v[0] == q[0] && v[1..] == Visited(q[2..], expired, shared);
      } else {
        VisitedSpec(q[1..], expired, shared);
        assert v[0] == q[0] && v[1..] == Visited(q[1..], expired, shared);
      }
    }
  }

  /** How many expired tokens stand directly before a place of a list. */
  function ExpiredBefore(q: seq<Token>, expired: set<Token>, i: nat): nat
    requires i <= |q|
  {
    if i == 0 || q[i - 1] !in expired then 0 else 1 + ExpiredBefore(q, expired, i - 1)
  }

  lemma {:induction false} ExpiredBeforeShift(q: seq<Token>, expired: set<Token>, k: nat, i: nat)
    requires k <= i <= |q|
    ensures ExpiredBefore(q, expired, i) == ExpiredBefore(q[k..], expired, i - k) +
                                            if ExpiredBefore(q[k..], expired, i - k) == i - k then ExpiredBefore(q, expired, k) else 0
    ensures ExpiredBefore(q[k..], expired, i - k) <= i - k
  {
    if i > k {
      ExpiredBeforeShift(q, expired, k, i - 1);
      assert q[k..][i - k - 1] == q[i - 1];
    }
  }

  /** Behind a token that has not expired, and behind one that has and the next, the scan starts afresh. */
  lemma {:induction false} StartsAfresh(q: seq<Token>, expired: set<Token>, k: nat, i: nat)
    requires 0 < k <= i < |q| && if q[0] in expired then k == 2 else k == 1
    ensures ExpiredBefore(q, expired, i) % 2 == ExpiredBefore(q[k..], expired, i - k) % 2
  {
    ExpiredBeforeShift(q, expired, k, i);
    assert ExpiredBefore(q, expired, 0) == 0;
    assert ExpiredBefore(q, expired, 1) == if q[0] in expired then 1 else 0;
    if k == 2 { assert ExpiredBefore(q, expired, 2) == if q[1] in expired then 1 + ExpiredBefore(q, expired, 1) else 0; }
  }

  lemma {:induction false} VisitedTail(q: seq<Token>, expired: set<Token>, k: nat, i: nat)
    requires NoRepeats(q) && 0 < k <= i < |q| && if q[0] in expired then k == 2 else k == 1
    ensures q[i] in Visited(q, expired, true) <==> q[i] in Visited(q[k..], expired, true)
  {
    assert Visited(q, expired, true) == [q[0]] + Visited(q[k..], expired, true);
  }

  /** The scan of a shared list passes over a token exactly if an odd number of expired ones stands directly before it. */
  lemma {:induction false} VisitedIff(q: seq<Token>, expired: set<Token>, i: nat)
    requires NoRepeats(q) && i < |q|
    ensures q[i] in Visited(q, expired, true) <==> ExpiredBefore(q, expired, i) % 2 == 0
  {
    var k := if q[0] in expired then 2 else 1;
    if i >= k {
      StartsAfresh(q, expired, k, i);
      VisitedTail(q, expired, k, i);
      assert q[k..][i - k] == q[i];
      VisitedIff(q[k..], expired, i - k);
    } else if i == 1 {
      SecondIsHidden(q, expired);
    }
  }

  lemma {:induction false} SecondIsHidden(q: seq<Token>, expired: set<Token>)
    requires NoRepeats(q) && |q| > 1 && q[0] in expired
    ensures q[1] !in Visited(q, expired, true) && ExpiredBefore(q, expired, 1) == 1
  {
    VisitedSpec(q[2..], expired, true);
    assert Visited(q, expired, true) == [q[0]] + Visited(q[2..], expired, true);
    assert forall t :: t in q[2..] ==> t != q[1];
    assert ExpiredBefore(q, expired, 0) == 0;
  }

  /** An odd number of expired tokens stands directly before the token. */
  predicate Hidden(q: seq<Token>, expired: set<Token>, t: Token) {
    exists i :: 0 <= i < |q| && q[i] == t && ExpiredBefore(q, expired, i) % 2 == 1
  }

  lemma {:induction false} HiddenIff(q: seq<Token>, expired: set<Token>, t: Token)
    requires NoRepeats(q) && t in q
    ensures t in Visited(q, expired, true) <==> !Hidden(q, expired, t)
  {
    var i :| 0 <= i < |q| && q[i] == t;
    VisitedIff(q, expired, i);
  }

  /** No token but the last has expired. */
  predicate OnlyLastExpired(q: seq<Token>, expired: set<Token>) {
    forall i :: 0 <= i < |q| - 1 ==> q[i] !in expired
  }

  /** The scan of a shared list meets everything exactly if no token but the last has expired. */
  lemma {:induction false} MetWholeIff(q: seq<Token>, expired: set<Token>)
    requires NoRepeats(q)
    ensures (forall t :: t in q ==> t in Visited(q, expired, true)) <==> OnlyLastExpired(q, expired)
  {
    if OnlyLastExpired(q, expired) {
      forall t | t in q ensures t in Visited(q, expired, true) {
        var i :| 0 <= i < |q| && q[i] == t;
        assert ExpiredBefore(q, expired, i) == 0;
        VisitedIff(q, expired, i);
      }
    } else {
      var i := FirstExpired(q, expired);
      VisitedIff(q, expired, i + 1);
      assert q[i + 1] in q;
    }
  }

  lemma {:induction false} FirstExpired(q: seq<Token>, expired: set<Token>) returns (i: nat)
    requires !OnlyLastExpired(q, expired)
    ensures i < |q| - 1 && ExpiredBefore(q, expired, i + 1) == 1
  {
    i :| 0 <= i < |q| - 1 && q[i] in expired;
    while i > 0 && q[i - 1] in expired
      invariant i < |q| - 1 && q[i] in expired
    {
      i := i - 1;
    }
    assert ExpiredBefore(q, expired, i) == 0;
  }

  function ExpiredTokens(st: Store, now: int): set<Token> {
    set t | t in st.locks && Expired(st.locks[t], now)
  }

  function Met(st: Store, now: int, shared: bool, path: string): seq<Token> {
    Visited(Toks(st, path), ExpiredTokens(st, now), shared)
  }

  /** The list of the token's lock hides it from a scan. */
  ghost predicate BehindExpired(st: Store, now: int, t: Token)
    requires t in st.locks
  {
    Hidden(Toks(st, st.locks[t].root), ExpiredTokens(st, now), t)
  }

  lemma {:induction false} MetIff(st: Store, now: int, shared: bool, t: Token)
    requires Valid(st) && t in st.locks
    ensures t in Met(st, now, shared, st.locks[t].root) <==> !(shared && BehindExpired(st, now, t))
  {
    var q, expired := Toks(st, st.locks[t].root), ExpiredTokens(st, now);
    ToksAreStored(st, st.locks[t].root);
    if shared { HiddenIff(q, expired, t); } else { CopiedListsAreMetWhole(q, expired); }
  }

  function LocksOf(st: Store, toks: seq<Token>): seq<Lock>
    requires forall t :: t in toks ==> t in st.locks
  {
    if toks == [] then [] else [st.locks[toks[0]]] + LocksOf(st, toks[1..])
  }

  lemma {:induction false} LocksOfSpec(st: Store, toks: seq<Token>)
    requires forall t :: t in toks ==> t in st.locks
    ensures forall l :: l in LocksOf(st, toks) <==> exists t :: t in toks && st.locks[t] == l
  {
    if toks != [] {
      LocksOfSpec(st, toks[1..]);
      assert forall t :: t in toks <==> t == toks[0] || t in toks[1..];
    }
  }

  function LiveOf(st: Store, now: int, toks: seq<Token>): seq<Token> {
    Filter(toks, ExpiredTokens(st, now))
  }

  function Among(q: seq<Token>, s: set<Token>): set<Token> {
    set t | t in q && t in s
  }

  /** The tokens a direct scan of one URL purges. */
  function MetExpired(st: Store, now: int, shared: bool, path: string): set<Token> {
    Among(Met(st, now, shared, path), ExpiredTokens(st, now))
  }

  lemma ToksAreStored(st: Store, path: string)
    requires Valid(st)
    ensures NoRepeats(Toks(st, path))
    ensures forall t :: t in Toks(st, path) <==> t in st.locks && st.locks[t].root == path
  {
    if Key(path) in st.index { assert Listed(st, Key(path)); }
    forall t | t in Toks(st, path) ensures t in st.locks && st.locks[t].root == path {
      KeyIsInjective(path, st.locks[t].root);
    }
    forall t | t in st.locks && st.locks[t].root == path ensures t in Toks(st, path) { assert Indexed(st, t); }
  }

  lemma MetAreStored(st: Store, now: int, shared: bool, path: string)
    requires Valid(st)
    ensures forall t :: t in Met(st, now, shared, path) ==> t in st.locks && st.locks[t].root == path
    ensures forall t :: t in LiveOf(st, now, Met(st, now, shared, path)) <==>
              t in Met(st, now, shared, path) && !Expired(st.locks[t], now)
  {
    VisitedSpec(Toks(st, path), ExpiredTokens(st, now), shared);
    FilterSpec(Met(st, now, shared, path), ExpiredTokens(st, now));
    ToksAreStored(st, path);
  }

  /** What a direct scan of one URL leaves in the table, and the locks it reports. */
  ghost function ScanList(st: Store, now: int, shared: bool, path: string): (r: (Store, seq<Lock>))
    requires Valid(st)
    ensures Valid(r.0)
  {
    MetAreStored(st, now, shared, path);
    PurgeKeepsValid(st, MetExpired(st, now, shared, path));
    (Purge(st, MetExpired(st, now, shared, path)), LocksOf(st, LiveOf(st, now, Met(st, now, shared, path))))
  }

  // ---------------------------------------------------------------- creating and refreshing

  /** Seconds to live as `create` and `refresh` clamp them. */
  function Clamp(timeout: int): int {
    if timeout < 0 || timeout > LOCK_TIME_OUT_MAX then LOCK_TIME_OUT_MAX else timeout
  }

  function Add(st: Store, l: Lock): Store {
    Store(st.locks[l.token := l], st.index[Key(l.root) := Toks(st, l.root) + [l.token]])
  }

  lemma {:induction false} AddKeepsValid(st: Store, l: Lock)
    requires Valid(st) && Normal(l.root) && l.token !in st.locks
    ensures Valid(Add(st, l))
  {
    var st' := Add(st, l);
    ToksAreStored(st, l.root);
    forall t | t in st'.locks ensures Indexed(st', t) {
      if t != l.token {
        assert Indexed(st, t);
        KeyIsInjective(l.root, st.locks[t].root);
      }
    }
    forall k | k in st'.index ensures Listed(st', k) {
      if k != Key(l.root) { assert Listed(st, k); }
    }
  }

  lemma AddIndex(st: Store, l: Lock)
    ensures Add(st, l).index ==
            st.index[Key(l.root) := if Key(l.root) in st.index then st.index[Key(l.root)] + [l.token] else [l.token]]
  {
    assert [] + [l.token] == [l.token];
  }

  function Retimed(st: Store, token: Token, timeout: int, now: int): Store
    requires token in st.locks
  {
    st.(locks := st.locks[token := st.locks[token].(timeout := timeout, expire := now + timeout)])
  }

  lemma RetimedKeepsValid(st: Store, token: Token, timeout: int, now: int)
    requires Valid(st) && token in st.locks
    ensures Valid(Retimed(st, token, timeout, now))
  {
  }

  // ---------------------------------------------------------------- keys

  /** The prefix test on dictionary keys is the child test on the paths behind them. */
  lemma KeyScanIsChildScan(p: string, q: string)
    requires Normal(p) && Normal(q)
    ensures IsChildUri(Key(p), Key(q)) <==> IsChildUri(p, q)
  {
    RStripAfter(KEY_PREFIX, p);
    RStripAfter(KEY_PREFIX, q);
    var a, b := RStrip(p) + "/", RStrip(q);
    assert RStrip(Key(p)) + "/" == KEY_PREFIX + a;
    if a <= b { assert KEY_PREFIX + a <= KEY_PREFIX + b; }
    if KEY_PREFIX + a <= KEY_PREFIX + b {
      assert (KEY_PREFIX + a)[|KEY_PREFIX|..] == a && (KEY_PREFIX + b)[|KEY_PREFIX|..] == b;
    }
  }

  /** The scan over all dictionary keys never takes the entry of a lock for a child URL. */
  lemma TokensAreNoUrls(p: string, t: Token)
    requires TOKEN_PREFIX <= t
    ensures !IsChildUri(Key(p), t)
  {
    RStripAfter(KEY_PREFIX, p);
    RStripSpec(t);
    assert KEY_PREFIX[0] == 'U' && t[0] == TOKEN_PREFIX[0];
    var k := RStrip(Key(p)) + "/";
    assert k[0] == 'U';
  }

  lemma FilterOneToken(q: seq<Token>, t: Token)
    requires NoRepeats(q) && t in q
    ensures Filter(q, {t}) == [] <==> |q| == 1
    ensures Filter(q, {t}) == Remove(q, t)
  {
    RemovedIsFilter(q, t);
    if |q| > 1 {
      FilterMembers(q, {t}, q[0]);
      FilterMembers(q, {t}, q[1]);
    } else {
      assert q == [t];
    }
  }

  /** Taking a token off its list, or dropping the list with its last token, is a purge. */
  lemma DeleteIsPurge(index: map<string, seq<Token>>, key: string, token: Token)
    requires key in index && NoRepeats(index[key]) && token in index[key]
    requires forall k :: k in index ==> index[k] != []
    requires forall k :: k in index && k != key ==> token !in index[k]
    ensures PurgeIndex(index, {token}) ==
            if |index[key]| > 1 then index[key := Remove(index[key], token)] else index - {key}
  {
    FilterOneToken(index[key], token);
    forall k | k in index && k != key ensures Filter(index[k], {token}) == index[k] {
      FilterNothing(index[k], {token});
    }
  }

  // ---------------------------------------------------------------- the two kinds of scan

  /** The locks found, or the exception: RuntimeError from a shared dictionary, KeyError from a shelf. */
  datatype Scan = Locks(locks: seq<Lock>) | Raises

  datatype Creation = Created(lock: Lock) | AssertionError

  predicate Stored(st: Store, l: Lock) {
    l.token in st.locks && st.locks[l.token] == l
  }

  /** The list has exactly the locks with the given tokens. */
  ghost predicate Reports(st: Store, found: seq<Lock>, tokens: set<Token>) {
    && tokens <= st.locks.Keys
    && forall l :: l in found <==> (Stored(st, l) && l.token in tokens)
  }

  /** The tokens of the locks rooted at a path. */
  function At(st: Store, path: string): set<Token> {
    set t | t in st.locks && st.locks[t].root == path
  }

  /** The tokens of the locks rooted strictly below a path. */
  function Below(st: Store, path: string): set<Token> {
    set t | t in st.locks && IsChildUri(path, st.locks[t].root)
  }

  function MetSet(st: Store, now: int, shared: bool, path: string): set<Token> {
    set t | t in Met(st, now, shared, path)
  }

  lemma {:induction false} MetSetIsAt(st: Store, now: int, shared: bool, path: string)
    requires Valid(st)
    ensures MetSet(st, now, shared, path) == At(st, path) <==>
              forall t :: t in Toks(st, path) ==> t in Visited(Toks(st, path), ExpiredTokens(st, now), shared)
  {
    ToksAreStored(st, path);
    VisitedSpec(Toks(st, path), ExpiredTokens(st, now), shared);
    assert forall t :: t in Toks(st, path) <==> t in At(st, path);
  }

  /** A scan meets all locks of a path exactly if the list is a copy or no token of it but the last has expired. */
  lemma {:induction false} MetSetIff(st: Store, now: int, shared: bool, path: string)
    requires Valid(st)
    ensures MetSet(st, now, shared, path) == At(st, path) <==> !shared || OnlyLastExpired(Toks(st, path), ExpiredTokens(st, now))
  {
    var q, expired := Toks(st, path), ExpiredTokens(st, now);
    MetSetIsAt(st, now, shared, path);
    ToksAreStored(st, path);
    if shared {
      MetWholeIff(q, expired);
    } else {
      CopiedListsAreMetWhole(q, expired);
    }
  }

  /** A direct scan purges the expired ones of the tokens it met and reports the others. */
  lemma ScanListSpec(st: Store, now: int, shared: bool, path: string)
    requires Valid(st)
    ensures MetSet(st, now, shared, path) <= At(st, path)
    ensures ScanList(st, now, shared, path).0 == Purge(st, MetSet(st, now, shared, path) * ExpiredTokens(st, now))
    ensures Reports(st, ScanList(st, now, shared, path).1, MetSet(st, now, shared, path) - ExpiredTokens(st, now))
    ensures !shared || MetSet(st, now, shared, path) * ExpiredTokens(st, now) == {} ==> MetSet(st, now, shared, path) == At(st, path)
  {
    MetIsAll(st, now, shared, path);
    MetAreStored(st, now, shared, path);
    LiveReports(st, LiveOf(st, now, Met(st, now, shared, path)));
    assert MetExpired(st, now, shared, path) == MetSet(st, now, shared, path) * ExpiredTokens(st, now);
    assert (set t | t in LiveOf(st, now, Met(st, now, shared, path))) == MetSet(st, now, shared, path) - ExpiredTokens(st, now);
  }

  lemma LiveReports(st: Store, toks: seq<Token>)
    requires Valid(st) && forall t :: t in toks ==> t in st.locks
    ensures Reports(st, LocksOf(st, toks), set t | t in toks)
  {
    LocksOfSpec(st, toks);
    forall t | t in st.locks ensures Indexed(st, t) { }
  }

  lemma MetIsAll(st: Store, now: int, shared: bool, path: string)
    requires Valid(st)
    ensures !shared || MetSet(st, now, shared, path) * ExpiredTokens(st, now) == {} ==> MetSet(st, now, shared, path) == At(st, path)
  {
    var met, expired := Met(st, now, shared, path), ExpiredTokens(st, now);
    ToksAreStored(st, path);
    VisitedSpec(Toks(st, path), expired, shared);
    if !shared { CopiedListsAreMetWhole(Toks(st, path), expired); }
    assert forall t :: t in met && t in expired ==> t in MetSet(st, now, shared, path) * expired;
  }

  /** Purging elsewhere does not change what a direct scan sees. */
  lemma ScanIsLocal(st: Store, gone: set<Token>, now: int, shared: bool, path: string)
    requires Valid(st) && forall t :: t in gone && t in st.locks ==> st.locks[t].root != path
    ensures Valid(Purge(st, gone))
    ensures Met(Purge(st, gone), now, shared, path) == Met(st, now, shared, path)
    ensures MetSet(Purge(st, gone), now, shared, path) * ExpiredTokens(Purge(st, gone), now)
            == MetSet(st, now, shared, path) * ExpiredTokens(st, now)
    ensures MetSet(st, now, shared, path) <= At(st, path)
  {
    PurgeKeepsValid(st, gone);
    PurgeToks(st, gone, path);
    ToksAreStored(st, path);
    FilterNothing(Toks(st, path), gone);
    MetAreStored(st, now, shared, path);
    VisitedAgree(Toks(st, path), ExpiredTokens(st, now), ExpiredTokens(Purge(st, gone), now), shared);
  }

  /** A direct scan in a table from which other URLs' tokens were purged. */
  lemma ScanInPurged(st: Store, gone: set<Token>, now: int, shared: bool, path: string)
    requires Valid(st) && At(st, path) !! gone
    ensures Valid(Purge(st, gone))
    ensures MetSet(st, now, shared, path) <= At(st, path)
    ensures var (after, found) := ScanList(Purge(st, gone), now, shared, path);
            && after == Purge(Purge(st, gone), MetSet(st, now, shared, path) * ExpiredTokens(st, now))
            && Reports(Purge(st, gone), found, MetSet(st, now, shared, path) - ExpiredTokens(st, now))
  {
    var cur := Purge(st, gone);
    ScanIsLocal(st, gone, now, shared, path);
    ScanListSpec(cur, now, shared, path);
    SameLiveMet(st, gone, now, shared, path);
  }

  lemma SameLiveMet(st: Store, gone: set<Token>, now: int, shared: bool, path: string)
    requires Valid(st) && At(st, path) !! gone
    ensures MetSet(Purge(st, gone), now, shared, path) == MetSet(st, now, shared, path)
    ensures MetSet(Purge(st, gone), now, shared, path) - ExpiredTokens(Purge(st, gone), now)
            == MetSet(st, now, shared, path) - ExpiredTokens(st, now)
  {
    ScanIsLocal(st, gone, now, shared, path);
    SameRest(MetSet(st, now, shared, path), ExpiredTokens(Purge(st, gone), now), ExpiredTokens(st, now));
  }

  lemma SameRest(m: set<Token>, a: set<Token>, b: set<Token>)
    requires m * a == m * b
    ensures m - a == m - b
  {
    forall t | t in m ensures t in a <==> t in b { assert t in m * a <==> t in m * b; }
  }

  lemma {:induction false} VisitedAgree(q: seq<Token>, a: set<Token>, b: set<Token>, shared: bool)
    requires forall t :: t in q ==> (t in a <==> t in b)
    ensures Visited(q, a, shared) == Visited(q, b, shared)
  {
    if q != [] {
      if |q| > 1 { VisitedAgree(q[2..], a, b, shared); }
      VisitedAgree(q[1..], a, b, shared);
    }
  }

  // ---------------------------------------------------------------- the class

  class LockStorage {
    const shared: bool
    var locks: map<Token, Lock>
    var index: map<string, seq<Token>>

    function Abs(): Store
      reads this
    {
      Store(locks, index)
    }

    constructor (shared: bool)
      ensures Abs() == EMPTY && Valid(Abs()) && this.shared == shared
    {
      this.shared := shared;
      locks, index := map[], map[];
    }

    method Delete(token: Token) returns (found: bool)
      requires Valid(Abs())
      modifies this
      ensures Valid(Abs())
      ensures found == (token in old(locks))
      ensures Abs() == Purge(old(Abs()), {token})
    {
      PurgeKeepsValid(Abs(), {token});
      if token !in locks {
        PurgeNothing(Abs(), {token});
        return false;
      }
      var key := Key(locks[token].root);
      assert Indexed(Abs(), token) && Listed(Abs(), key);
      forall k | k in index ensures index[k] != [] && (k != key ==> token !in index[k]) { assert Listed(Abs(), k); }
      DeleteIsPurge(index, key, token);
      if key in index {
        var tokList := index[key];
        if |tokList| > 1 {
          index := index[key := Remove(tokList, token)];
        } else {
          index := index - {key};
        }
      }
      locks := locks - {token};
      return true;
    }

    method Get(token: Token, now: int) returns (lock: seq<Lock>)
      requires Valid(Abs())
      modifies this
      ensures Valid(Abs())
      ensures if token in old(locks) && !Expired(old(locks)[token], now)
              then lock == [old(locks)[token]] && Abs() == old(Abs())
              else lock == [] && Abs() == Purge(old(Abs()), {token})
    {
      if token !in locks {
        var _ := Delete(token);
        return [];
      }
      if Expired(locks[token], now) {
        var _ := Delete(token);
        return [];
      }
      return [locks[token]];
    }

    method Create(path: string, principal: string, scope: Scope, depth: Depth, owner: string, timeout: int,
                  token: Token, now: int) returns (r: Creation)
      requires Valid(Abs()) && token !in locks
      modifies this
      ensures Valid(Abs())
      ensures r.AssertionError? <==> '/' !in path || timeout == 0
      ensures r.AssertionError? ==> Abs() == old(Abs())
      ensures r.Created? ==>
                && r.lock == Lock(token, NormalizeLockRoot(path), principal, scope, depth, owner, Clamp(timeout), now + Clamp(timeout))
                && Abs() == Add(old(Abs()), r.lock)
                && 0 < r.lock.expire - now <= LOCK_TIME_OUT_MAX
    {
      if '/' !in path {
        return AssertionError;
      }
      var root := NormalizeLockRoot(path);
      NormalizeIsNormal(path);
      var seconds := timeout;
      if seconds < 0 || seconds > LOCK_TIME_OUT_MAX {
        seconds := LOCK_TIME_OUT_MAX;
      }
      if !(seconds > 0 || seconds == -1) {
        return AssertionError;
      }
      var lock := Lock(token, root, principal, scope, depth, owner, seconds, now + seconds);
      AddKeepsValid(Abs(), lock);
      StoreLock(lock);
      return Created(lock);
    }

    method StoreLock(lock: Lock)
      modifies this
      ensures Abs() == Add(old(Abs()), lock)
    {
      AddIndex(Abs(), lock);
      locks := locks[lock.token := lock];
      var key := Key(lock.root);
      if key !in index {
        index := index[key := [lock.token]];
      } else {
        index := index[key := index[key] + [lock.token]];
      }
    }

    method Refresh(token: Token, timeout: int, now: int) returns (r: Creation)
      requires Valid(Abs())
      modifies this
      ensures Valid(Abs())
      ensures r.Created? <==> token in old(locks) && (timeout == -1 || timeout > 0)
      ensures r.AssertionError? ==> Abs() == old(Abs())
      ensures r.Created? ==>
                && Abs() == Retimed(old(Abs()), token, Clamp(timeout), now) && r.lock == locks[token]
                && 0 < r.lock.expire - now <= LOCK_TIME_OUT_MAX
    {
      if token !in locks || !(timeout == -1 || timeout > 0) {
        return AssertionError;
      }
      var seconds := timeout;
      if seconds < 0 || seconds > LOCK_TIME_OUT_MAX {
        seconds := LOCK_TIME_OUT_MAX;
      }
      RetimedKeepsValid(Abs(), token, seconds, now);
      locks := locks[token := locks[token].(timeout := seconds, expire := now + seconds)];
      return Created(locks[token]);
    }

    /** The loop over one token list; in a shared container it runs over the list `Delete` shortens. */
    method AppendLocks(path: string, now: int) returns (found: seq<Lock>)
      requires Valid(Abs())
      modifies this
      ensures Valid(Abs())
      ensures (Abs(), found) == ScanList(old(Abs()), now, shared, path)
    {
      ghost var st := Abs();
      ToksAreStored(st, path);
      var key := Key(path);
      var toks := if key in index then index[key] else [];
      found := [];
      var i := 0;
      while i < |toks|
        invariant Valid(Abs()) && 0 <= i && NoRepeats(toks)
        invariant shared && i < |toks| ==> Toks(Abs(), path) == toks
        invariant ScanLoop(st, now, shared, Toks(st, path), []) == ScanLoop(Abs(), now, shared, Rest(toks, i), found)
        decreases |toks| - i
      {
        SharedListStep(Abs(), path, toks, i);
        var lock := Get(toks[i], now);
        if lock != [] {
          found := found + lock;
        } else if shared && key in index {
          toks := index[key];
        }
        i := i + 1;
      }
      ScanLoopIsScanList(st, now, shared, path);
    }

    /** The body of the loop over all keys, for the key `u`. */
    method AppendChildEntry(root: string, u: string, now: int, found: seq<Lock>, ghost st: Store, ghost keys: set<string>,
                            ghost gone: set<Token>)
      returns (found': seq<Lock>, raised: bool, ghost gone': set<Token>)
      requires Valid(st) && Valid(Abs()) && Abs() == Purge(st, gone)
      requires Normal(root) && u in keys && keys <= st.index.Keys && ChildScanInv(st, now, shared, root, keys, gone, found)
      modifies this
      ensures Valid(Abs()) && Abs() == Purge(st, gone')
      ensures if raised then BelowOutcome(st, now, shared, root, found', true, gone')
              else ChildScanInv(st, now, shared, root, keys - {u}, gone', found')
    {
      found', raised, gone' := found, false, gone;
      ChildKey(st, root, u);
      var p := u[|KEY_PREFIX|..];
      if !IsChildUri(Key(root), u) {
        BelowButOne(st, root, keys, p);
        return;
      }
      var size := |locks|;
      ghost var purged := ChildPurge(st, now, shared, root, keys, gone, p);
      ScanInPurged(st, gone, now, shared, p);
      ScanListSpec(st, now, shared, p);
      var more := AppendLocks(p, now);
      ChildScanStep(st, now, shared, root, keys, gone, found, p, MetSet(st, now, shared, p), more);
      found' := found + more;
      gone' := gone + purged;
      raised := shared && |locks| != size;
    }

    /**
      The loop over all keys, those of URLs and those of locks, which come in no particular order.
      A shared dictionary raises as soon as it has shrunk. A shelf goes over keys it listed before,
      and raises when it comes to that of a lock that is gone. `gone` are the tokens purged.
    */
    method AppendChildLocks(root: string, now: int) returns (found: seq<Lock>, raised: bool, ghost gone: set<Token>)
      requires Valid(Abs()) && Normal(root)
      modifies this
      ensures Valid(Abs()) && Abs() == Purge(old(Abs()), gone)
      ensures BelowOutcome(old(Abs()), now, shared, root, found, raised, gone)
    {
      ghost var st := Abs();
      found, raised, gone := [], false, {};
      var keys, tokens := index.Keys, locks.Keys;
      PurgeNothing(st, {});
      ChildScanInit(st, now, shared, root);
      while (keys != {} || tokens != {}) && !raised
        invariant Valid(Abs()) && Abs() == Purge(st, gone) && keys <= st.index.Keys && tokens <= st.locks.Keys
        invariant if raised then BelowOutcome(st, now, shared, root, found, true, gone)
                  else ChildScanInv(st, now, shared, root, keys, gone, found)
        decreases !raised, keys, tokens
      {
        var isToken: bool := *;
        if keys == {} || (isToken && tokens != {}) {
          var t :| t in tokens;
          if t !in locks {
            ChildScanBroken(st, now, shared, root, keys, gone, found);
            return found, true, gone;
          }
          tokens := tokens - {t};
        } else {
          var u :| u in keys;
          found, raised, gone := AppendChildEntry(root, u, now, found, st, keys, gone);
          keys := keys - {u};
        }
      }
      if !raised { ChildScanDone(st, now, shared, root, gone, found); }
    }

    /** The scan of a URL and, if asked, of all below it. */
    method GetLockList(path: string, includeRoot: bool, includeChildren: bool, now: int)
      returns (r: Scan, ghost gone: set<Token>)
      requires Valid(Abs())
      requires path != "" && path[0] == '/' && (includeRoot || includeChildren)
      modifies this
      ensures Valid(Abs()) && Abs() == Purge(old(Abs()), gone)
      ensures ScanOutcome(old(Abs()), now, shared, NormalizeLockRoot(path), includeRoot, includeChildren, r, gone)
      ensures !includeChildren ==> r.Locks? && (Abs(), r.locks) == ScanList(old(Abs()), now, shared, NormalizeLockRoot(path))
    {
      ghost var st := Abs();
      var root := NormalizeLockRoot(path);
      NormalizeIsNormal(path);
      var found := [];
      if includeRoot {
        found := AppendLocks(root, now);
      }
      gone := RootPurge(st, now, shared, root, includeRoot, Abs(), found);
      if includeChildren {
        var more, raised, below := AppendChildLocks(root, now);
        ScansCompose(st, now, shared, root, includeRoot, gone, found, more, raised, below);
        gone := gone + below;
        if raised {
          return Raises, gone;
        }
        found := found + more;
      }
      return Locks(found), gone;
    }
  }

  /**
    A scan that purges below its path raises from a shared dictionary, and may raise from a shelf,
    where it depends on the order of the keys.
  */
  predicate MayRaise(shared: bool, raised: bool, purged: set<Token>) {
    (raised ==> purged != {}) && (shared && purged != {} ==> raised)
  }

  /** What the scan below a path does to the tokens there, whether it ends or raises. */
  ghost predicate BelowOutcome(st: Store, now: int, shared: bool, root: string, found: seq<Lock>, raised: bool,
          gone: set<Token>) {
    var below, expired := Below(st, root), ExpiredTokens(st, now);
    && gone <= below * expired
    && MayRaise(shared, raised, below * expired)
    && (!raised ==> gone == below * expired && Reports(st, found, below - expired))
  }

  /**
    What a scan does: it purges only expired tokens it should look at; unless it raises it purges
    all those it met and reports the rest.
  */
  ghost predicate ScanOutcome(st: Store, now: int, shared: bool, path: string, includeRoot: bool, includeChildren: bool,
                              r: Scan, gone: set<Token>) {
    var wanted, expired := Wanted(st, now, shared, path, includeRoot, includeChildren), ExpiredTokens(st, now);
    && gone <= wanted * expired
    && MayRaise(shared, r.Raises?, if includeChildren then Below(st, path) * expired else {})
    && (r.Locks? ==> gone == wanted * expired && Reports(st, r.locks, wanted - expired))
  }

  lemma RootPurge(st: Store, now: int, shared: bool, root: string, includeRoot: bool, cur: Store, found: seq<Lock>)
    returns (gone: set<Token>)
    requires Valid(st)
    requires (cur, found) == if includeRoot then ScanList(st, now, shared, root) else (st, [])
    ensures cur == Purge(st, gone) && gone <= At(st, root)
    ensures ScanOutcome(st, now, shared, root, includeRoot, false, Locks(found), gone)
  {
    ScanListSpec(st, now, shared, root);
    PurgeNothing(st, {});
    gone := if includeRoot then MetSet(st, now, shared, root) * ExpiredTokens(st, now) else {};
  }

  lemma ScansCompose(st: Store, now: int, shared: bool, root: string, includeRoot: bool, gone: set<Token>,
          found: seq<Lock>,
                     more: seq<Lock>, raised: bool, below: set<Token>)
    requires Normal(root) && gone <= At(st, root)
    requires ScanOutcome(st, now, shared, root, includeRoot, false, Locks(found), gone)
    requires BelowOutcome(Purge(st, gone), now, shared, root, more, raised, below)
    ensures Purge(Purge(st, gone), below) == Purge(st, gone + below)
    ensures ScanOutcome(st, now, shared, root, includeRoot, true, if raised then Raises else Locks(found + more), gone + below)
  {
    PurgeTwice(st, gone, below);
    BelowInPurged(st, gone, now, root);
    var expired := ExpiredTokens(st, now);
    if !raised {
      ReportsMore(st, Purge(st, gone), found, more, Wanted(st, now, shared, root, includeRoot, false) - expired, Below(st, root) - expired);
    }
  }

  /** What a scan of `path` should look at: the tokens met at the path itself, and all below it. */
  function Wanted(st: Store, now: int, shared: bool, path: string, includeRoot: bool,
          includeChildren: bool): set<Token> {
    (if includeRoot then MetSet(st, now, shared, path) else {}) + (if includeChildren then Below(st, path) else {})
  }

  lemma BelowInPurged(st: Store, gone: set<Token>, now: int, root: string)
    requires gone <= At(st, root) && Normal(root)
    ensures Below(Purge(st, gone), root) == Below(st, root)
    ensures Below(Purge(st, gone), root) * ExpiredTokens(Purge(st, gone), now) == Below(st, root) * ExpiredTokens(st, now)
    ensures Below(Purge(st, gone), root) - ExpiredTokens(Purge(st, gone), now) == Below(st, root) - ExpiredTokens(st, now)
  {
  }

  /** What lies below `root` at keys that are not to be done any more. */
  function BelowBut(st: Store, root: string, keys: set<string>): set<Token> {
    set t | t in st.locks && IsChildUri(root, st.locks[t].root) && Key(st.locks[t].root) !in keys
  }

  /** The scan below `root` has done all keys but `keys`. */
  ghost predicate ChildScanInv(st: Store, now: int, shared: bool, root: string, keys: set<string>,
                               gone: set<Token>, found: seq<Lock>) {
    var done, expired := BelowBut(st, root, keys), ExpiredTokens(st, now);
    && gone == done * expired
    && Reports(st, found, done - expired)
    && (shared ==> done * expired == {})
  }

  lemma LocksDrop(st: Store, gone: set<Token>)
    requires gone <= st.locks.Keys
    ensures |Purge(st, gone).locks| == |st.locks| <==> gone == {}
  {
  }

  lemma NoOwnChild(p: string)
    requires Normal(p)
    ensures !IsChildUri(p, p)
  {
  }

  lemma ChildScanInit(st: Store, now: int, shared: bool, root: string)
    requires Valid(st)
    ensures ChildScanInv(st, now, shared, root, st.index.Keys, {}, [])
  {
  }

  /** Every key of the index is the key of a normalized path, and the prefix test on keys is the child test. */
  lemma ChildKey(st: Store, root: string, u: string)
    requires Valid(st) && Normal(root) && u in st.index
    ensures KEY_PREFIX <= u
    ensures var p := u[|KEY_PREFIX|..];
            u == Key(p) && Normal(p) && (IsChildUri(Key(root), u) <==> IsChildUri(root, p))
  {
    assert Listed(st, u);
    var t0 := st.index[u][0];
    assert Indexed(st, t0);
    assert u[|KEY_PREFIX|..] == st.locks[t0].root;
    KeyScanIsChildScan(root, st.locks[t0].root);
  }

  lemma BelowButOne(st: Store, root: string, keys: set<string>, p: string)
    ensures BelowBut(st, root, keys - {Key(p)}) == BelowBut(st, root, keys) + if IsChildUri(root, p) then At(st, p) else {}
  {
    forall t | t in st.locks ensures Key(st.locks[t].root) == Key(p) <==> st.locks[t].root == p {
      KeyIsInjective(st.locks[t].root, p);
    }
  }

  /** The tokens the next turn of the scan below `root` purges. */
  lemma ChildPurge(st: Store, now: int, shared: bool, root: string, keys: set<string>, gone: set<Token>, p: string)
    returns (purged: set<Token>)
    requires Valid(st) && Key(p) in keys && IsChildUri(root, p)
    requires gone == BelowBut(st, root, keys) * ExpiredTokens(st, now)
    ensures purged == MetSet(st, now, shared, p) * ExpiredTokens(st, now)
    ensures purged <= At(st, p) && At(st, p) !! gone
    ensures Purge(Purge(st, gone), purged) == Purge(st, gone + purged)
    ensures |Purge(st, gone + purged).locks| == |Purge(st, gone).locks| <==> purged == {}
  {
    purged := MetSet(st, now, shared, p) * ExpiredTokens(st, now);
    ScanListSpec(st, now, shared, p);
    PurgeTwice(st, gone, purged);
    LocksDrop(Purge(st, gone), purged);
  }

  lemma ChildScanStep(st: Store, now: int, shared: bool, root: string, keys: set<string>,
                      gone: set<Token>, found: seq<Lock>, p: string, met: set<Token>, more: seq<Lock>)
    requires Key(p) in keys && IsChildUri(root, p)
    requires ChildScanInv(st, now, shared, root, keys, gone, found)
    requires met <= At(st, p) && (!shared || met * ExpiredTokens(st, now) == {} ==> met == At(st, p))
    requires Reports(Purge(st, gone), more, met - ExpiredTokens(st, now))
    ensures var purged := met * ExpiredTokens(st, now);
            if shared && purged != {} then BelowOutcome(st, now, shared, root, found + more, true, gone + purged)
            else ChildScanInv(st, now, shared, root, keys - {Key(p)}, gone + purged, found + more)
  {
    BelowButOne(st, root, keys, p);
    var expired := ExpiredTokens(st, now);
    if shared && met * expired != {} {
      assert met * expired <= Below(st, root) * expired;
    } else {
      assert met == At(st, p);
      ReportsMore(st, Purge(st, gone), found, more, BelowBut(st, root, keys) - expired, met - expired);
      assert BelowBut(st, root, keys) - expired + (met - expired) == BelowBut(st, root, keys - {Key(p)}) - expired;
    }
  }

  /** Once something was purged, a look at a key that is gone is an outcome. */
  lemma ChildScanBroken(st: Store, now: int, shared: bool, root: string, keys: set<string>, gone: set<Token>,
          found: seq<Lock>)
    requires ChildScanInv(st, now, shared, root, keys, gone, found)
    ensures gone != {} ==> BelowOutcome(st, now, shared, root, found, true, gone)
  {
  }

  lemma ChildScanDone(st: Store, now: int, shared: bool, root: string, gone: set<Token>, found: seq<Lock>)
    requires ChildScanInv(st, now, shared, root, {}, gone, found)
    ensures BelowOutcome(st, now, shared, root, found, false, gone)
  {
  }

  lemma ReportsMore(st: Store, cur: Store, found: seq<Lock>, more: seq<Lock>, a: set<Token>, b: set<Token>)
    requires Reports(st, found, a) && Reports(cur, more, b)
    requires forall t :: t in cur.locks ==> t in st.locks && st.locks[t] == cur.locks[t]
    ensures Reports(st, found + more, a + b)
  {
  }

  /** What a running scan has still to meet after it met the head of `rest`. */
  function After(rest: seq<Token>, skips: bool): seq<Token>
    requires rest != []
  {
    if skips && |rest| > 1 then rest[2..] else rest[1..]
  }

  /** The loop of `AppendLocks` from some point on, on values; `rest` is the list from the running index on. */
  function ScanLoop(st: Store, now: int, shared: bool, rest: seq<Token>, found: seq<Lock>): (Store, seq<Lock>)
    decreases |rest|
  {
    if rest == [] then (st, found)
    else
      var t := rest[0];
      if t in st.locks && !Expired(st.locks[t], now) then
        ScanLoop(st, now, shared, rest[1..], found + [st.locks[t]])
      else
        ScanLoop(Purge(st, {t}), now, shared, After(rest, shared), found)
  }

  /** What `Delete` does to the list it finds in the index, seen from the running index. */
  lemma SharedListStep(st: Store, path: string, toks: seq<Token>, i: nat)
    requires i < |toks| && NoRepeats(toks)
    ensures Rest(toks, i) != [] && Rest(toks, i)[0] == toks[i] && Rest(toks, i)[1..] == Rest(toks, i + 1)
    ensures Toks(st, path) == toks ==>
              if Key(path) in Purge(st, {toks[i]}).index then
                var toks' := Purge(st, {toks[i]}).index[Key(path)];
                |toks'| <= |toks| && NoRepeats(toks') && Rest(toks', i + 1) == After(Rest(toks, i), true)
              else Rest(toks, i + 1) == [] == After(Rest(toks, i), true)
  {
    PurgeToks(st, {toks[i]}, path);
    FilterOneToken(toks, toks[i]);
    FilterNoRepeats(toks, {toks[i]});
    RemovedAt(toks, i);
    var toks' := toks[..i] + toks[i + 1..];
    if i + 1 < |toks| { assert Rest(toks', i + 1) == Rest(toks, i)[2..]; }
  }

  lemma VisitedUnfolds(rest: seq<Token>, expired: set<Token>, shared: bool)
    requires rest != [] && NoRepeats(rest)
    ensures var next := After(rest, shared && rest[0] in expired);
            && Visited(rest, expired, shared) == [rest[0]] + Visited(next, expired, shared)
            && NoRepeats(next) && forall u :: u in next ==> u in rest && u != rest[0]
  {
  }

  lemma RegroupTokens(a: seq<Token>, b: seq<Token>, c: seq<Token>)
    ensures (a + b) + c == a + (b + c)
  {
  }

  lemma {:induction false} ScanLoopEnds(st: Store, now: int, shared: bool, met: seq<Token>, rest: seq<Token>,
          cur: Store, found: seq<Lock>)
    requires NoRepeats(rest) && forall t :: t in rest ==> t in st.locks && t !in met
    requires ScannedSoFar(st, ExpiredTokens(st, now), met, cur, found)
    ensures var all := met + Visited(rest, ExpiredTokens(st, now), shared);
            var r := ScanLoop(cur, now, shared, rest, found);
            ScannedSoFar(st, ExpiredTokens(st, now), all, r.0, r.1)
    decreases |rest|
  {
    var expired := ExpiredTokens(st, now);
    if rest == [] {
      assert met + [] == met;
    } else {
      var t := rest[0];
      var next := After(rest, shared && t in expired);
      VisitedUnfolds(rest, expired, shared);
      ScanStep(st, expired, met, cur, found, t);
      RegroupTokens(met, [t], Visited(next, expired, shared));
      if t in expired { ScanLoopEnds(st, now, shared, met + [t], next, Purge(cur, {t}), found); }
      else { ScanLoopEnds(st, now, shared, met + [t], next, cur, found + [st.locks[t]]); }
    }
  }

  lemma ScanLoopIsScanList(st: Store, now: int, shared: bool, path: string)
    requires Valid(st)
    ensures ScanLoop(st, now, shared, Toks(st, path), []) == ScanList(st, now, shared, path)
  {
    PurgeNothing(st, {});
    ToksAreStored(st, path);
    assert Among([], ExpiredTokens(st, now)) == {};
    ScanLoopEnds(st, now, shared, [], Toks(st, path), st, []);
    assert [] + Met(st, now, shared, path) == Met(st, now, shared, path);
  }

  /** A scan that met `met` has purged the expired tokens among them and reported the locks of the others. */
  ghost predicate ScannedSoFar(st: Store, expired: set<Token>, met: seq<Token>, cur: Store, found: seq<Lock>) {
    && cur == Purge(st, Among(met, expired))
    && (forall t :: t in Filter(met, expired) ==> t in st.locks)
    && found == LocksOf(st, Filter(met, expired))
  }

  lemma ScanStep(st: Store, expired: set<Token>, met: seq<Token>, cur: Store, found: seq<Lock>, t: Token)
    requires ScannedSoFar(st, expired, met, cur, found) && t in st.locks && t !in met
    ensures t in cur.locks && cur.locks[t] == st.locks[t]
    ensures if t in expired then ScannedSoFar(st, expired, met + [t], Purge(cur, {t}), found)
            else ScannedSoFar(st, expired, met + [t], cur, found + [st.locks[t]])
  {
    AppendFilter(met, expired, t);
    AppendLocksOf(st, Filter(met, expired), t);
    if t in expired {
      PurgeTwice(st, Among(met, expired), {t});
      assert Among(met + [t], expired) == Among(met, expired) + {t};
    } else {
      assert Among(met + [t], expired) == Among(met, expired);
    }
  }

  function Rest(q: seq<Token>, i: nat): seq<Token> {
    if i <= |q| then q[i..] else []
  }

  lemma {:induction false} AppendFilter(q: seq<Token>, gone: set<Token>, t: Token)
    ensures Filter(q + [t], gone) == if t in gone then Filter(q, gone) else Filter(q, gone) + [t]
  {
    if q != [] {
      assert (q + [t])[1..] == q[1..] + [t];
      AppendFilter(q[1..], gone, t);
    }
  }

  lemma {:induction false} AppendLocksOf(st: Store, q: seq<Token>, t: Token)
    requires t in st.locks && forall u :: u in q ==> u in st.locks
    ensures forall u :: u in q + [t] ==> u in st.locks
    ensures LocksOf(st, q + [t]) == LocksOf(st, q) + [st.locks[t]]
  {
    if q != [] {
      assert (q + [t])[1..] == q[1..] + [t];
      AppendLocksOf(st, q[1..], t);
    }
  }

  lemma {:induction false} RemovedAt(q: seq<Token>, i: nat)
    requires NoRepeats(q) && i < |q|
    ensures Remove(q, q[i]) == q[..i] + q[i + 1..]
  {
    if i > 0 {
      var rest := q[1..];
      assert NoRepeats(rest) && rest[i - 1] == q[i];
      RemovedAt(rest, i - 1);
      assert [q[0]] + (rest[..i - 1] + rest[i..]) == q[..i] + q[i + 1..];
    }
  }
}
