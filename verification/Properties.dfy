/**
  `PropertyManager` of `wsgidav/prop_man/property_manager.py`: dead properties by URL, and the
  loop of `move_properties` that rewrites the keys of the table while it goes over them.
*/
module Properties {
  import opened Sequences
  import opened Uri
  import opened CopyPaths

  type Props = map<string, string>

  type Table = map<string, Props>

  // ---------------------------------------------------------------- str.replace

  /** `s.replace(a, b)` for a non-empty `a` */
  function Replace(s: string, a: string, b: string): string
    requires a != ""
  {
    if s == "" then ""
    else if a <= s then b + Replace(s[|a|..], a, b)
    else [s[0]] + Replace(s[1..], a, b)
  }

  predicate Occurs(a: string, s: string) {
    exists i :: 0 <= i <= |s| && a <= s[i..]
  }

  lemma {:induction false} ReplaceNothing(s: string, a: string, b: string)
    requires a != "" && !Occurs(a, s)
    ensures Replace(s, a, b) == s
  {
    if s != "" {
      assert s[0..] == s;
      forall i | 0 <= i <= |s[1..]| ensures !(a <= s[1..][i..]) {
        assert s[1..][i..] == s[i + 1..];
      }
      ReplaceNothing(s[1..], a, b);
    }
  }

  lemma {:induction false} ReplaceLength(s: string, a: string, b: string)
    requires a != ""
    ensures |a| <= |b| ==> |s| <= |Replace(s, a, b)|
    ensures |b| <= |a| ==> |Replace(s, a, b)| <= |s|
  {
    if s != "" {
      if a <= s { ReplaceLength(s[|a|..], a, b); } else { ReplaceLength(s[1..], a, b); }
    }
  }

  lemma OccursLater(a: string, s: string)
    requires a != "" && s != "" && !(a <= s)
    ensures Occurs(a, s) <==> Occurs(a, s[1..])
  {
    forall i | 0 < i <= |s| ensures s[i..] == s[1..][i - 1..] { }
    if i :| 0 <= i <= |s| && a <= s[i..] {
      assert s[0..] == s;
      assert a <= s[1..][i - 1..];
    }
    if i :| 0 <= i <= |s[1..]| && a <= s[1..][i..] {
      assert a <= s[i + 1..];
    }
  }

  /** An occurrence that is replaced by something else shows. */
  lemma {:induction false} ReplaceChanges(s: string, a: string, b: string)
    requires a != "" && a != b && Occurs(a, s)
    ensures Replace(s, a, b) != s
  {
    if a <= s {
      ReplaceLength(s[|a|..], a, b);
      assert s == a + s[|a|..];
      assert (b + Replace(s[|a|..], a, b))[..|b|] == b;
    } else {
      OccursLater(a, s);
      ReplaceChanges(s[1..], a, b);
    }
  }

  /** A URL below the source is re-rooted exactly if the source does not occur again behind its start. */
  lemma {:induction false} ReplacePrefixIff(url: string, src: string, dest: string)
    requires src != "" && src <= url
    ensures Replace(url, src, dest) == dest + url[|src|..] <==> src == dest || !Occurs(src, url[|src|..])
  {
    var tail := url[|src|..];
    assert Replace(url, src, dest) == dest + Replace(tail, src, dest);
    if src == dest {
      ReplaceBySame(tail, src);
    } else if Occurs(src, tail) {
      ReplaceChanges(tail, src, dest);
      SameTails(dest, Replace(tail, src, dest), tail);
    } else {
      ReplaceNothing(tail, src, dest);
    }
  }

  lemma SameTails(a: string, b: string, c: string)
    ensures a + b == a + c <==> b == c
  {
    assert (a + b)[|a|..] == b && (a + c)[|a|..] == c;
  }

  lemma {:induction false} ReplaceBySame(s: string, a: string)
    requires a != ""
    ensures Replace(s, a, a) == s
  {
    if s != "" {
      if a <= s { ReplaceBySame(s[|a|..], a); } else { ReplaceBySame(s[1..], a); }
    }
  }

  // ---------------------------------------------------------------- moving with children

  predicate Moves(src: string, url: string) {
    IsEqualOrChildUri(src, url)
  }

  /** The keys that move are those of the source and of all below it, written with the same slashes. */
  lemma {:induction false} MovesIff(src: string, url: string)
    requires src != "" && url != "" && src[0] == '/' && url[0] == '/'
    ensures Moves(src, url) <==> Segments(src) <= Segments(url) && Runs(src) <= Runs(url)
    ensures Moves(src, src)
  {
    BelowItselfIff(src, url);
    BelowItselfIff(src, src);
  }

  function Target(src: string, dest: string, url: string): string
    requires Moves(src, url)
  {
    Replace(url, src, dest)
  }

  /** What one round of the loop does with a key. */
  function MoveOne(t: Table, src: string, dest: string, url: string): Table
    requires url in t
  {
    if Moves(src, url) then t[Target(src, dest, url) := t[url]] - {url} else t
  }

  /** The keys, each once, in some order. */
  ghost predicate Enumerates(order: seq<string>, keys: set<string>) {
    NoRepeats(order) && forall k :: k in order <==> k in keys
  }

  lemma OneMoreKey(order: seq<string>, keys: set<string>, todo: set<string>, url: string)
    requires Enumerates(order, keys - todo) && url in todo && todo <= keys
    ensures Enumerates(order + [url], keys - (todo - {url}))
    ensures (order + [url])[..|order|] == order
  {
  }

  /** No moved key lands on a key of the table, and no two on the same. */
  ghost predicate Collisionless(t: Table, src: string, dest: string) {
    && (forall u :: u in t && Moves(src, u) ==> Target(src, dest, u) !in t)
    && (forall u, v :: u in t && v in t && Moves(src, u) && Moves(src, v) && u != v ==> Target(src, dest, u) != Target(src, dest, v))
  }

  /** The table with the keys in `done` moved, all at once. */
  ghost predicate RenamedIs(now: Table, t: Table, src: string, dest: string, done: set<string>) {
    && (forall k :: k in t && !(k in done && Moves(src, k)) ==> k in now && now[k] == t[k])
    && (forall k :: k in t && k in done && Moves(src, k) ==> Target(src, dest, k) in now && now[Target(src, dest, k)] == t[k])
    && (forall k :: k in now ==> (k in t && !(k in done && Moves(src, k))) || HasSource(k, t, src, dest, done))
  }

  ghost predicate HasSource(k: string, t: Table, src: string, dest: string, done: set<string>) {
    exists u :: u in t && u in done && Moves(src, u) && Target(src, dest, u) == k
  }

  lemma RenameStep(now: Table, t: Table, src: string, dest: string, done: set<string>, url: string)
    requires Collisionless(t, src, dest) && RenamedIs(now, t, src, dest, done) && url in t && url !in done && url in now
    ensures RenamedIs(MoveOne(now, src, dest, url), t, src, dest, done + {url})
  {
    var next := MoveOne(now, src, dest, url);
    forall k | k in next ensures (k in t && !(k in done + {url} && Moves(src, k))) || HasSource(k, t, src, dest, done + {url}) {
      SourceAdded(k, t, src, dest, done, url);
    }
    forall k | k in t && k in done + {url} && Moves(src, k)
      ensures Target(src, dest, k) in next && next[Target(src, dest, k)] == t[k]
    {
      TargetStays(now, t, src, dest, done, url, k);
    }
  }

  lemma TargetStays(now: Table, t: Table, src: string, dest: string, done: set<string>, url: string, k: string)
    requires Collisionless(t, src, dest) && RenamedIs(now, t, src, dest, done) && url in t && url !in done && url in now
    requires k in t && k in done + {url} && Moves(src, k)
    ensures var next := MoveOne(now, src, dest, url); Target(src, dest, k) in next && next[Target(src, dest, k)] == t[k]
  {
  }

  lemma SourceAdded(k: string, t: Table, src: string, dest: string, done: set<string>, url: string)
    requires url in t
    ensures HasSource(k, t, src, dest, done + {url})
            <==> HasSource(k, t, src, dest, done) || (Moves(src, url) && Target(src, dest, url) == k)
  {
    if u :| u in t && u in done && Moves(src, u) && Target(src, dest, u) == k {
      assert u in done + {url};
    }
    assert url in done + {url};
  }

  /** The whole loop, for some order of the keys. */
  function MoveAll(t: Table, src: string, dest: string, order: seq<string>): Table {
    if order == [] then t
    else
      var before := MoveAll(t, src, dest, order[..|order| - 1]);
      if order[|order| - 1] in before then MoveOne(before, src, dest, order[|order| - 1]) else before
  }

  function KeysOf(order: seq<string>): set<string> {
    set k | k in order
  }

  lemma {:induction false} MoveAllRenames(t: Table, src: string, dest: string, order: seq<string>)
    requires Collisionless(t, src, dest) && NoRepeats(order)
    requires forall k :: k in order ==> k in t
    ensures RenamedIs(MoveAll(t, src, dest, order), t, src, dest, KeysOf(order))
  {
    if order != [] {
      var rest, url := order[..|order| - 1], order[|order| - 1];
      assert order == rest + [url];
      forall k | k in rest ensures k in order { }
      MoveAllRenames(t, src, dest, rest);
      assert url in order && url !in rest;
      RenameStep(MoveAll(t, src, dest, rest), t, src, dest, KeysOf(rest), url);
      assert KeysOf(order) == KeysOf(rest) + {url};
    }
  }

  // ---------------------------------------------------------------- when entries are lost

  /** The loop, in whatever order it meets the keys, leaves as many entries as there were. */
  ghost predicate NeverLoses(t: Table, src: string, dest: string) {
    forall order :: Enumerates(order, t.Keys) ==> |MoveAll(t, src, dest, order)| == |t|
  }

  lemma MoveOneCounts(t: Table, src: string, dest: string, url: string)
    requires url in t
    ensures |MoveOne(t, src, dest, url)| <= |t|
    ensures Moves(src, url) && Target(src, dest, url) in t ==> |MoveOne(t, src, dest, url)| == |t| - 1
    ensures Moves(src, url) && Target(src, dest, url) !in t ==> |MoveOne(t, src, dest, url)| == |t|
  {
  }

  lemma {:induction false} MoveAllCounts(t: Table, src: string, dest: string, order: seq<string>)
    ensures |MoveAll(t, src, dest, order)| <= |t|
  {
    if order != [] {
      var rest, url := order[..|order| - 1], order[|order| - 1];
      MoveAllCounts(t, src, dest, rest);
      var before := MoveAll(t, src, dest, rest);
      if url in before { MoveOneCounts(before, src, dest, url); }
    }
  }

  lemma {:induction false} MoveAllMore(t: Table, src: string, dest: string, a: seq<string>, b: seq<string>)
    ensures |MoveAll(t, src, dest, a + b)| <= |MoveAll(t, src, dest, a)|
    decreases |b|
  {
    if b == [] {
      assert a + b == a;
    } else {
      var c, url := b[..|b| - 1], b[|b| - 1];
      assert (a + b)[..|a + b| - 1] == a + c;
      MoveAllMore(t, src, dest, a, c);
      var before := MoveAll(t, src, dest, a + c);
      if url in before { MoveOneCounts(before, src, dest, url); }
    }
  }

  lemma {:induction false} EnumerationExists(keys: set<string>) returns (order: seq<string>)
    ensures Enumerates(order, keys)
    decreases |keys|
  {
    if keys == {} {
      order := [];
    } else {
      var k :| k in keys;
      var rest := EnumerationExists(keys - {k});
      order := rest + [k];
    }
  }

  lemma EnumerationFrom(first: seq<string>, keys: set<string>) returns (rest: seq<string>)
    requires (forall k :: k in first ==> k in keys) && NoRepeats(first)
    ensures Enumerates(first + rest, keys)
  {
    rest := EnumerationExists(keys - KeysOf(first));
    var all := first + rest;
    forall i, j | 0 <= i < j < |all| ensures all[i] != all[j] {
      assert i < |first| ==> all[i] in KeysOf(first);
      assert j >= |first| ==> all[j] in rest;
    }
  }

  lemma MoveFirst(t: Table, src: string, dest: string, u: string)
    requires u in t && Moves(src, u)
    ensures MoveAll(t, src, dest, [u]) == MoveOne(t, src, dest, u)
  {
  }

  /** Moving a key onto another, or onto itself, loses an entry if that key is met first. */
  lemma CollisionLoses(t: Table, src: string, dest: string, u: string)
    requires u in t && Moves(src, u) && Target(src, dest, u) in t
    ensures !NeverLoses(t, src, dest)
  {
    var rest := EnumerationFrom([u], t.Keys);
    MoveFirst(t, src, dest, u);
    MoveOneCounts(t, src, dest, u);
    MoveAllMore(t, src, dest, [u], rest);
  }

  /** Two keys that land on the same new one lose an entry. */
  lemma SharedTargetLoses(t: Table, src: string, dest: string, u: string, v: string)
    requires u in t && v in t && Moves(src, u) && Moves(src, v) && u != v
    requires Target(src, dest, u) == Target(src, dest, v)
    ensures !NeverLoses(t, src, dest)
  {
    if Target(src, dest, u) in t {
      CollisionLoses(t, src, dest, u);
    } else {
      var rest := EnumerationFrom([u, v], t.Keys);
      MoveFirst(t, src, dest, u);
      MoveOneCounts(t, src, dest, u);
      var before := MoveOne(t, src, dest, u);
      assert [u, v][..1] == [u];
      assert MoveAll(t, src, dest, [u, v]) == MoveOne(before, src, dest, v);
      MoveOneCounts(before, src, dest, v);
      MoveAllMore(t, src, dest, [u, v], rest);
    }
  }

  lemma {:induction false} CountKept(t: Table, src: string, dest: string, order: seq<string>)
    requires Collisionless(t, src, dest) && NoRepeats(order)
    requires forall k :: k in order ==> k in t
    ensures |MoveAll(t, src, dest, order)| == |t|
  {
    if order != [] {
      var rest, url := order[..|order| - 1], order[|order| - 1];
      assert order == rest + [url];
      forall k | k in rest ensures k in order { }
      assert url in order && url !in rest;
      CountKept(t, src, dest, rest);
      MoveAllRenames(t, src, dest, rest);
      var before := MoveAll(t, src, dest, rest);
      assert url in before;
      if Moves(src, url) { TargetIsFree(before, t, src, dest, KeysOf(rest), url); }
      MoveOneCounts(before, src, dest, url);
    }
  }

  lemma TargetIsFree(now: Table, t: Table, src: string, dest: string, done: set<string>, url: string)
    requires Collisionless(t, src, dest) && RenamedIs(now, t, src, dest, done) && url in t && url !in done
    requires Moves(src, url)
    ensures Target(src, dest, url) !in now
  {
  }

  /** No entry is ever lost exactly if no two keys collide. */
  lemma NeverLosesIff(t: Table, src: string, dest: string)
    ensures NeverLoses(t, src, dest) <==> Collisionless(t, src, dest)
  {
    if Collisionless(t, src, dest) {
      forall order | Enumerates(order, t.Keys) ensures |MoveAll(t, src, dest, order)| == |t| {
        CountKept(t, src, dest, order);
      }
    } else if u :| u in t && Moves(src, u) && Target(src, dest, u) in t {
      CollisionLoses(t, src, dest, u);
    } else {
      var u, v :| u in t && v in t && Moves(src, u) && Moves(src, v) && u != v && Target(src, dest, u) == Target(src, dest, v);
      SharedTargetLoses(t, src, dest, u, v);
    }
  }

  // ---------------------------------------------------------------- when keys are re-rooted

  /**
    The source stands at the start of every moved key and nowhere else in it, and the re-rooted
    key is not there yet.
  */
  ghost predicate Rerootable(t: Table, src: string, dest: string) {
    forall u :: u in t && Moves(src, u) ==> src <= u && !Occurs(src, u[|src|..]) && dest + u[|src|..] !in t
  }

  /** Moved keys are at the same place below the destination, the others untouched, and there is nothing else. */
  ghost predicate RerootedIs(now: Table, t: Table, src: string, dest: string) {
    && |now| == |t|
    && (forall k :: k in t && !Moves(src, k) ==> k in now && now[k] == t[k])
    && (forall k :: k in t && Moves(src, k) ==> src <= k && dest + k[|src|..] in now && now[dest + k[|src|..]] == t[k])
    && (forall k :: k in now ==> (k in t && !Moves(src, k)) || IsReroot(k, t, src, dest))
  }

  ghost predicate IsReroot(k: string, t: Table, src: string, dest: string) {
    dest <= k && src + k[|dest|..] in t && Moves(src, src + k[|dest|..])
  }

  lemma RerootableIsCollisionless(t: Table, src: string, dest: string)
    requires Rerootable(t, src, dest)
    ensures Collisionless(t, src, dest)
    ensures forall u :: u in t && Moves(src, u) ==> src <= u && Target(src, dest, u) == dest + u[|src|..]
  {
    forall u | u in t && Moves(src, u) ensures src <= u && Target(src, dest, u) == dest + u[|src|..] {
      ReplacePrefixIff(u, src, dest);
    }
    forall u, v | u in t && v in t && Moves(src, u) && Moves(src, v) && u != v ensures Target(src, dest, u) != Target(src, dest, v) {
      assert u == src + u[|src|..] && v == src + v[|src|..];
      SameTails(dest, u[|src|..], v[|src|..]);
    }
  }

  /** Then the loop is a simultaneous renaming, whatever the order. */
  lemma {:induction false} MoveIsRenaming(t: Table, src: string, dest: string, order: seq<string>)
    requires Rerootable(t, src, dest) && Enumerates(order, t.Keys)
    ensures RerootedIs(MoveAll(t, src, dest, order), t, src, dest)
  {
    var now := MoveAll(t, src, dest, order);
    RerootableIsCollisionless(t, src, dest);
    CountKept(t, src, dest, order);
    MoveAllRenames(t, src, dest, order);
    assert KeysOf(order) == t.Keys;
    forall k | k in now ensures (k in t && !Moves(src, k)) || IsReroot(k, t, src, dest) {
      if HasSource(k, t, src, dest, t.Keys) {
        var u :| u in t && u in t.Keys && Moves(src, u) && Target(src, dest, u) == k;
        assert u == src + u[|src|..] && k == dest + u[|src|..] && k[|dest|..] == u[|src|..];
      }
    }
  }

  /** Strings by length, and strings of a length as in a dictionary. */
  predicate Before(a: string, b: string) {
    |a| < |b| || (|a| == |b| && Smaller(a, b))
  }

  predicate Smaller(a: string, b: string) {
    a != "" && b != "" && (a[0] < b[0] || (a[0] == b[0] && Smaller(a[1..], b[1..])))
  }

  lemma {:induction false} SmallerIsTransitive(a: string, b: string, c: string)
    requires Smaller(a, b) && Smaller(b, c)
    ensures Smaller(a, c)
  {
    if a[0] == b[0] == c[0] { SmallerIsTransitive(a[1..], b[1..], c[1..]); }
  }

  lemma {:induction false} SmallerIsTotal(a: string, b: string)
    requires |a| == |b|
    ensures a == b || Smaller(a, b) || Smaller(b, a)
    ensures !(Smaller(a, b) && Smaller(b, a)) && !Smaller(a, a)
  {
    if a != "" {
      SmallerIsTotal(a[1..], b[1..]);
      SmallerIsTotal(a[1..], a[1..]);
      assert a == [a[0]] + a[1..] && b == [b[0]] + b[1..];
    }
  }

  lemma {:induction false} SmallerInFront(a: string, b: string, c: string, d: string)
    requires |a| == |b| && Smaller(a, b)
    ensures Smaller(a + c, b + d)
  {
    assert (a + c)[1..] == a[1..] + c && (b + d)[1..] == b[1..] + d;
    if a[0] == b[0] { SmallerInFront(a[1..], b[1..], c, d); }
  }

  /** Replacing always goes up, or always goes down. */
  lemma {:induction false} ReplaceGoesOneWay(s: string, a: string, b: string)
    requires a != "" && Replace(s, a, b) != s
    ensures if Before(a, b) then Before(s, Replace(s, a, b)) else Before(Replace(s, a, b), s)
  {
    var now := Replace(s, a, b);
    if a <= s {
      ReplaceLength(s[|a|..], a, b);
      assert s == a + s[|a|..];
      if a == b {
        ReplaceBySame(s, a);
      } else if |a| == |b| {
        SmallerIsTotal(a, b);
        if Smaller(a, b) { SmallerInFront(a, b, s[|a|..], now[|b|..]); } else { SmallerInFront(b, a, now[|b|..], s[|a|..]); }
      }
    } else {
      assert s == [s[0]] + s[1..];
      ReplaceGoesOneWay(s[1..], a, b);
    }
  }

  /** The strings that a string still may become. */
  function Ahead(all: set<string>, s: string, up: bool): set<string> {
    set x | x in all && if up then Before(s, x) else Before(x, s)
  }

  lemma AheadShrinks(all: set<string>, s: string, next: string, up: bool)
    requires next in all && if up then Before(s, next) else Before(next, s)
    ensures |Ahead(all, next, up)| < |Ahead(all, s, up)|
  {
    if |s| == |next| { SmallerIsTotal(s, next); }
    SmallerIsTotal(next, next);
    forall x | x in Ahead(all, next, up) ensures x in Ahead(all, s, up) {
      if up && |s| == |next| == |x| { SmallerIsTransitive(s, next, x); }
      if !up && |s| == |next| == |x| { SmallerIsTransitive(x, next, s); }
    }
    assert Ahead(all, next, up) <= Ahead(all, s, up) - {next};
    FewerElements(Ahead(all, next, up), Ahead(all, s, up), next);
  }

  lemma FewerElements(a: set<string>, b: set<string>, x: string)
    requires a <= b - {x} && x in b
    ensures |a| < |b|
  {
    var rest := b - {x} - a;
    assert b == a + rest + {x};
  }

  /** A finite set that replacing leads into, no two strings to the same one, is not changed by it. */
  lemma {:induction false} ReplaceInside(all: set<string>, s: string, a: string, b: string)
    requires a != "" && s in all && forall x :: x in all ==> Replace(x, a, b) in all
    requires forall x, y :: x in all && y in all && Replace(x, a, b) == Replace(y, a, b) ==> x == y
    ensures Replace(s, a, b) == s
    decreases |Ahead(all, s, Before(a, b))|
  {
    var next := Replace(s, a, b);
    if next != s {
      ReplaceGoesOneWay(s, a, b);
      AheadShrinks(all, s, next, Before(a, b));
      ReplaceInside(all, next, a, b);
    }
  }

  /** What moved keys have behind the source. */
  ghost function Tails(t: Table, src: string): set<string>
    requires forall u :: u in t && Moves(src, u) ==> src <= u
  {
    set u | u in t && Moves(src, u) :: u[|src|..]
  }

  lemma TargetTail(src: string, dest: string, u: string)
    requires src <= u && Moves(src, u)
    ensures Target(src, dest, u) == dest + Replace(u[|src|..], src, dest)
  {
  }

  /** In a re-rooted table every target is the place below the destination, even if it could hold another's properties. */
  lemma TargetsArePlaces(now: Table, t: Table, src: string, dest: string, u: string)
    requires Collisionless(t, src, dest) && RenamedIs(now, t, src, dest, t.Keys) && RerootedIs(now, t, src, dest)
    requires u in t && Moves(src, u)
    ensures src <= u && Target(src, dest, u) == dest + u[|src|..]
  {
    var all := Tails(t, src);
    forall x | x in all ensures Replace(x, src, dest) in all {
      var v :| v in t && Moves(src, v) && v[|src|..] == x;
      TailLeadsInside(now, t, src, dest, v);
    }
    forall x, y | x in all && y in all && Replace(x, src, dest) == Replace(y, src, dest) ensures x == y {
      var v :| v in t && Moves(src, v) && v[|src|..] == x;
      var w :| w in t && Moves(src, w) && w[|src|..] == y;
      TargetTail(src, dest, v);
      TargetTail(src, dest, w);
    }
    ReplaceInside(all, u[|src|..], src, dest);
    TargetTail(src, dest, u);
  }

  lemma TailLeadsInside(now: Table, t: Table, src: string, dest: string, v: string)
    requires Collisionless(t, src, dest) && RenamedIs(now, t, src, dest, t.Keys) && RerootedIs(now, t, src, dest)
    requires v in t && Moves(src, v)
    ensures src <= v && Replace(v[|src|..], src, dest) in Tails(t, src)
  {
    var k, r := Target(src, dest, v), Replace(v[|src|..], src, dest);
    TargetTail(src, dest, v);
    assert k in now && k !in t;
    assert k[|dest|..] == r;
    assert src + r in t && Moves(src, src + r) && (src + r)[|src|..] == r;
  }

  /**
    Whatever the order, `move_properties` re-roots the moved keys and keeps all else, exactly if
    every moved key has the source at its start and not again behind it, and its new place is free.
  */
  lemma {:induction false} MoveIsRenamingIff(t: Table, src: string, dest: string)
    ensures (forall order :: Enumerates(order, t.Keys) ==> RerootedIs(MoveAll(t, src, dest, order), t, src, dest))
            <==> Rerootable(t, src, dest)
  {
    if Rerootable(t, src, dest) {
      forall order | Enumerates(order, t.Keys) ensures RerootedIs(MoveAll(t, src, dest, order), t, src, dest) {
        MoveIsRenaming(t, src, dest, order);
      }
    }
    if forall order :: Enumerates(order, t.Keys) ==> RerootedIs(MoveAll(t, src, dest, order), t, src, dest) {
      AlwaysRerooted(t, src, dest);
    }
  }

  lemma RerootedKeepsCount(t: Table, src: string, dest: string)
    requires forall order :: Enumerates(order, t.Keys) ==> RerootedIs(MoveAll(t, src, dest, order), t, src, dest)
    ensures NeverLoses(t, src, dest)
  {
  }

  lemma AlwaysRerooted(t: Table, src: string, dest: string)
    requires forall order :: Enumerates(order, t.Keys) ==> RerootedIs(MoveAll(t, src, dest, order), t, src, dest)
    ensures Rerootable(t, src, dest)
  {
    RerootedKeepsCount(t, src, dest);
    NeverLosesIff(t, src, dest);
    var order := EnumerationExists(t.Keys);
    var now := MoveAll(t, src, dest, order);
    MoveAllRenames(t, src, dest, order);
    assert KeysOf(order) == t.Keys;
    forall u | u in t && Moves(src, u) ensures src <= u && !Occurs(src, u[|src|..]) && dest + u[|src|..] !in t {
      PlaceIsFree(now, t, src, dest, u);
    }
  }

  lemma PlaceIsFree(now: Table, t: Table, src: string, dest: string, u: string)
    requires Collisionless(t, src, dest) && RenamedIs(now, t, src, dest, t.Keys) && RerootedIs(now, t, src, dest)
    requires u in t && Moves(src, u)
    ensures src <= u && !Occurs(src, u[|src|..]) && dest + u[|src|..] !in t
  {
    TargetsArePlaces(now, t, src, dest, u);
    ReplacePrefixIff(u, src, dest);
  }

  lemma ReplacedTwice()
    ensures Replace("/a/x/a", "/a", "/b") == "/b/x/b"
  {
    assert Replace("/a", "/a", "/b") == "/b" by { assert "/a"[2..] == ""; }
    assert "x/a"[1..] == "/a" && "/x/a"[1..] == "x/a" && "/a/x/a"[2..] == "/x/a";
    assert Replace("x/a", "/a", "/b") == "x/b";
    assert Replace("/x/a", "/a", "/b") == "/x/b";
  }

  lemma SingleKeyMoves(u: string, src: string, dest: string, props: Props)
    requires Moves(src, u) && Target(src, dest, u) != u
    ensures var t: Table := map[u := props];
            MoveAll(t, src, dest, [u]) == map[Target(src, dest, u) := props] && NeverLoses(t, src, dest)
  {
    var t: Table := map[u := props];
    MoveFirst(t, src, dest, u);
    assert Collisionless(t, src, dest);
    NeverLosesIff(t, src, dest);
  }

  /** The source again further on in a key is replaced there too: nothing is lost, but the key is wrong. */
  lemma LaterOccurrenceIsRewritten(props: Props)
    ensures var t: Table := map["/a/x/a" := props];
            && Moves("/a", "/a/x/a") && Target("/a", "/b", "/a/x/a") == "/b/x/b"
            && MoveAll(t, "/a", "/b", ["/a/x/a"]) == map["/b/x/b" := props] && NeverLoses(t, "/a", "/b")
  {
    ReplacedTwice();
    assert RStrip("/a") == "/a" && RStrip("/a/x/a") == "/a/x/a";
    assert Moves("/a", "/a/x/a");
    assert "/b/x/b"[1] != "/a/x/a"[1];
    SingleKeyMoves("/a/x/a", "/a", "/b", props);
  }

  /** A key that maps to the same resource but is written without the slash is "moved" onto itself and deleted. */
  lemma SlashMismatchLoses()
    ensures Moves("/a/", "/a") && Replace("/a", "/a/", "/b/") == "/a"
    ensures !NeverLoses(map["/a" := map[]], "/a/", "/b/")
  {
    assert RStrip("/a/") == "/a" && RStrip("/a") == "/a" by {
      assert "/a/"[..2] == "/a";
    }
    assert !Occurs("/a/", "/a");
    ReplaceNothing("/a", "/a/", "/b/");
    CollisionLoses(map["/a" := map[]], "/a/", "/b/", "/a");
  }

  // ---------------------------------------------------------------- one resource

  /** The dead properties of a URL, as `get_properties` and `get_property` show them. */
  function PropsOf(t: Table, url: string): Props {
    if url in t then t[url] else map[]
  }

  function CopyOne(t: Table, src: string, dest: string): Table {
    if src in t then t[dest := t[src]] else t
  }

  function MoveSingle(t: Table, src: string, dest: string): Table {
    if src in t then t[dest := t[src]] - {src} else t
  }

  /** A copy has the properties of its source exactly if the source has an entry or the destination had none of its own: otherwise old ones stay. */
  lemma CopyCarriesIff(t: Table, src: string, dest: string)
    ensures PropsOf(CopyOne(t, src, dest), dest) == PropsOf(t, src) <==> src in t || PropsOf(t, dest) == map[]
    ensures forall u :: u != dest ==> PropsOf(CopyOne(t, src, dest), u) == PropsOf(t, u)
  {
  }

  /** Properties of an overwritten resource that shine through the copy of one without properties. */
  lemma OldPropertiesStay()
    ensures var t: Table := map["/b" := map["{x}p" := "old"]];
            PropsOf(t, "/a") == map[] && PropsOf(CopyOne(t, "/a", "/b"), "/b") == map["{x}p" := "old"]
  {
  }

  /**
    Moving one resource's properties elsewhere: the destination has them, exactly if the source
    has an entry or the destination had none of its own; the source has none; all others keep theirs.
  */
  lemma {:induction false} MoveCarriesIff(t: Table, src: string, dest: string)
    requires src != dest
    ensures var now := MoveSingle(t, src, dest);
            && (PropsOf(now, dest) == PropsOf(t, src) <==> src in t || PropsOf(t, dest) == map[])
            && PropsOf(now, src) == map[]
            && forall u :: u != src && u != dest ==> PropsOf(now, u) == PropsOf(t, u)
  {
  }

  /** Moved onto itself, a resource loses its properties. */
  lemma {:induction false} MovedOntoItself(t: Table, url: string)
    ensures PropsOf(MoveSingle(t, url, url), url) == map[]
  {
  }

  function RemoveOne(t: Table, url: string): Table {
    t - {url}
  }

  /** Copying the properties of every resource to its place and removing them at the source, one after the other. */
  function MoveEach(t: Table, src: string, dest: string, order: seq<string>): Table
    requires forall k :: k in order && Moves(src, k) ==> src <= k
  {
    if order == [] then t
    else
      var url := order[|order| - 1];
      forall k | k in order[..|order| - 1] ensures k in order { }
      var before := MoveEach(t, src, dest, order[..|order| - 1]);
      if Moves(src, url) then RemoveOne(CopyOne(before, url, dest + url[|src|..]), url) else before
  }

  /** File by file, with `copy_properties` and `remove_properties`, a tree's properties are moved as `move_properties` moves them at once. */
  lemma {:induction false} MovedOneByOne(t: Table, src: string, dest: string, order: seq<string>)
    requires Rerootable(t, src, dest) && forall k :: k in order ==> k in t
    ensures MoveEach(t, src, dest, order) == MoveAll(t, src, dest, order)
  {
    if order != [] {
      var rest, url := order[..|order| - 1], order[|order| - 1];
      assert order == rest + [url];
      forall k | k in rest ensures k in order { }
      MovedOneByOne(t, src, dest, rest);
      RerootableIsCollisionless(t, src, dest);
    }
  }

  // ---------------------------------------------------------------- the manager

  class PropertyManager {
    var dict: Table

    constructor ()
      ensures dict == map[]
    {
      dict := map[];
    }

    method WriteProperty(url: string, name: string, value: string, dryRun: bool)
      modifies this
      ensures dict == if dryRun then old(dict)
                      else old(dict)[url := (if url in old(dict) then old(dict)[url] else map[])[name := value]]
    {
      if dryRun { return; }
      var locator: Props := if url in dict then dict[url] else map[];
      locator := locator[name := value];
      dict := dict[url := locator];
    }

    /** Removing what is not there is no error. */
    method RemoveProperty(url: string, name: string, dryRun: bool)
      modifies this
      ensures dict == if dryRun || url !in old(dict) then old(dict) else old(dict)[url := old(dict)[url] - {name}]
    {
      if dryRun { return; }
      if url in dict {
        var locator := dict[url];
        if name in locator {
          locator := locator - {name};
          dict := dict[url := locator];
        } else {
          assert locator - {name} == locator && dict[url := locator] == dict;
        }
      }
    }

    method RemoveProperties(url: string)
      modifies this
      ensures dict == RemoveOne(old(dict), url)
    {
      if url in dict { dict := dict - {url}; } else { assert dict - {url} == dict; }
    }

    method CopyProperties(src: string, dest: string)
      modifies this
      ensures dict == CopyOne(old(dict), src, dest)
    {
      if src in dict { dict := dict[dest := dict[src]]; }
    }

    /** `move_properties`; the order in which the loop meets the keys is not fixed. */
    method MoveProperties(src: string, dest: string, withChildren: bool) returns (ghost order: seq<string>)
      modifies this
      ensures withChildren ==> Enumerates(order, old(dict).Keys) && dict == MoveAll(old(dict), src, dest, order)
      ensures !withChildren ==> dict == MoveSingle(old(dict), src, dest)
    {
      order := [];
      if withChildren {
        var todo := dict.Keys;
        while todo != {}
          invariant Enumerates(order, old(dict).Keys - todo) && todo <= old(dict).Keys
          invariant todo <= dict.Keys && dict == MoveAll(old(dict), src, dest, order)
          decreases |todo|
        {
          var url :| url in todo;
          OneMoreKey(order, old(dict).Keys, todo, url);
          todo := todo - {url};
          if IsEqualOrChildUri(src, url) {
            var d := Replace(url, src, dest);
            dict := dict[d := dict[url]];
            dict := dict - {url};
          }
          order := order + [url];
        }
      } else if src in dict {
        dict := dict[dest := dict[src]];
        dict := dict - {src};
      }
    }
  }
}
