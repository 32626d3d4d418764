/**
  The path strings of the resources below a requested URL, and what the string tests of
  `wsgidav/util.py` say about the segments behind them.

  A resource is known by its segments relative to the requested URL `base`. Its path string is
  what the chain of `join_uri` calls yields; a provider may end it with a slash (`slash`).
*/
module PathStrings {
  import opened Wrappers
  import opened Uri

  type Path = seq<string>

  predicate IsName(n: string) {
    n != "" && forall i :: 0 <= i < |n| ==> n[i] != '/'
  }

  predicate Names(p: Path) {
    forall i :: 0 <= i < |p| ==> IsName(p[i])
  }

  /** "/a/b/c" for the segments a, b, c. */
  function Joined(p: Path): string {
    if p == [] then "" else "/" + p[0] + Joined(p[1..])
  }

  function PathString(base: string, p: Path, slash: bool): string {
    if p == [] then base else RStrip(base) + Joined(p) + if slash then "/" else ""
  }

  function Parent(p: Path): Path
    requires p != []
  {
    p[..|p| - 1]
  }

  lemma {:induction false} JoinedSnoc(p: Path, n: string)
    ensures Joined(p + [n]) == Joined(p) + "/" + n
  {
    if p == [] {
      assert [n][1..] == [];
    } else {
      JoinedSnoc(p[1..], n);
      assert (p + [n])[1..] == p[1..] + [n];
    }
  }

  lemma {:induction false} JoinedEnds(p: Path)
    requires Names(p) && p != []
    ensures Joined(p) != "" && Joined(p)[0] == '/' && Joined(p)[|Joined(p)| - 1] != '/'
  {
    JoinedSnoc(Parent(p), p[|p| - 1]);
    assert Parent(p) + [p[|p| - 1]] == p;
  }

  /** Stripping a path string leaves the base and the segments. */
  lemma StripPathString(base: string, p: Path, slash: bool)
    requires Names(p)
    ensures RStrip(PathString(base, p, slash)) == RStrip(base) + Joined(p)
  {
    if p != [] {
      JoinedEnds(p);
      RStripUnique(PathString(base, p, slash), RStrip(base) + Joined(p));
    } else {
      RStripSpec(base);
    }
  }

  lemma PrefixCancel(r: string, a: string, b: string)
    ensures r + a <= r + b <==> a <= b
    ensures r + a == r + b <==> a == b
  {
    assert (r + a)[|r|..] == a && (r + b)[|r|..] == b;
    if r + a <= r + b { assert r + a == (r + b)[..|r + a|]; assert a == b[..|a|]; }
    if a <= b { assert r + a == (r + b)[..|r + a|]; }
  }

  lemma Assoc(a: string, b: string, c: string)
    ensures (a + b) + c == a + (b + c)
  {
  }

  /** `get_member` builds the path strings of the members. */
  lemma MemberPath(base: string, p: Path, slash: bool, n: string)
    requires Names(p) && IsName(n)
    ensures JoinUri(PathString(base, p, slash), [n]) == PathString(base, p + [n], false)
  {
    StripPathString(base, p, slash);
    var r := RStrip(base);
    assert JoinUri(PathString(base, p, slash), [n]) == (r + Joined(p)) + "/" + n;
    SnocString(r, p, n);
  }

  lemma SnocString(r: string, p: Path, n: string)
    ensures (r + Joined(p)) + "/" + n == r + Joined(p + [n]) == r + Joined(p + [n]) + ""
  {
    JoinedSnoc(p, n);
    Assoc(r + Joined(p), "/", n);
    Assoc(r, Joined(p), "/" + n);
    Assoc(Joined(p), "/", n);
  }

  lemma HeadAndName(head: string, n: string)
    requires IsName(n)
    ensures RSplitHead(head + "/" + n) == head
  {
    var r := head + "/" + n;
    assert r[|head|] == '/';
    forall i | |head| < i < |r| ensures r[i] != '/' { assert r[i] == n[i - |head| - 1]; }
    LastSlashUnique(r, |head|);
    assert r[..|head|] == head;
  }

  /** `get_uri_parent` takes a path for the root if only white space stands around its slash. */
  predicate LooksLikeRoot(s: string) {
    StripSpace(s) == "/"
  }

  lemma ParentOfNamed(s: string, head: string, n: string)
    requires IsName(n) && !LooksLikeRoot(s) && RStrip(s) == head + "/" + n
    ensures GetUriParent(s) == Some(head + "/")
  {
    assert |RStrip(s)| >= 2;
    HeadAndName(head, n);
  }

  lemma ParentOfStripped(s: string, r: string, q: Path, n: string)
    requires IsName(n) && !LooksLikeRoot(s) && RStrip(s) == r + Joined(q + [n])
    ensures GetUriParent(s) == Some(r + Joined(q) + "/")
  {
    SnocString(r, q, n);
    ParentOfNamed(s, r + Joined(q), n);
  }

  /** The parent of a member, as `get_uri_parent` writes it. */
  lemma ParentString(base: string, q: Path, n: string, slash: bool)
    requires Names(q) && IsName(n) && !LooksLikeRoot(PathString(base, q + [n], slash))
    ensures GetUriParent(PathString(base, q + [n], slash)) == Some(RStrip(base) + Joined(q) + "/")
  {
    StripPathString(base, q + [n], slash);
    ParentOfStripped(PathString(base, q + [n], slash), RStrip(base), q, n);
  }

  /** A name ends where the next slash stands. */
  lemma SameHead(x: string, y: string, a: string, b: string)
    requires IsName(x) && IsName(y) && a != "" && b != "" && a[0] == '/' && b[0] == '/'
    requires x + a <= y + b
    ensures x == y && a <= b
  {
    var s, t := x + a, y + b;
    assert s == t[..|s|];
    assert s[|x|] == '/' && t[|y|] == '/';
    assert forall i :: 0 <= i < |x| ==> s[i] == x[i];
    assert forall i :: 0 <= i < |y| ==> t[i] == y[i];
    assert t[|x|] == s[|x|];
    assert |x| >= |y|;
    assert |y| < |s| ==> s[|y|] == t[|y|];
    assert x == s[..|x|] && y == t[..|y|];
    PrefixCancel(x, a, b);
  }

  /** The prefix test on joined segments is the prefix test on segments. */
  lemma {:induction false} JoinedPrefix(a: Path, b: Path)
    requires Names(a) && Names(b)
    ensures Joined(a) + "/" <= Joined(b) + "/" <==> a <= b
  {
    if a == [] {
      if b != [] { JoinedEnds(b); }
      assert (Joined(b) + "/")[0] == '/';
    } else if b == [] {
      JoinedEnds(a);
    } else {
      JoinedPrefix(a[1..], b[1..]);
      JoinedHead(a[1..]);
      JoinedHead(b[1..]);
      JoinedStep(a[0], Joined(a[1..]) + "/", b[0], Joined(b[1..]) + "/");
      Assoc("/" + a[0], Joined(a[1..]), "/");
      Assoc("/" + b[0], Joined(b[1..]), "/");
      ConsPrefix(a, b);
    }
  }

  lemma JoinedHead(p: Path)
    requires Names(p)
    ensures (Joined(p) + "/")[0] == '/'
  {
  }

  lemma JoinedStep(x: string, a: string, y: string, b: string)
    requires IsName(x) && IsName(y) && a != "" && b != "" && a[0] == '/' && b[0] == '/'
    ensures ("/" + x) + a <= ("/" + y) + b <==> x == y && a <= b
  {
    Assoc("/", x, a);
    Assoc("/", y, b);
    PrefixCancel("/", x + a, y + b);
    PrefixCancel(x, a, b);
    if x + a <= y + b { SameHead(x, y, a, b); }
  }

  lemma ConsPrefix(a: Path, b: Path)
    requires a != [] && b != []
    ensures a <= b <==> a[0] == b[0] && a[1..] <= b[1..]
  {
  }

  lemma JoinedInjective(a: Path, b: Path)
    requires Names(a) && Names(b) && Joined(a) == Joined(b)
    ensures a == b
  {
    JoinedPrefix(a, b);
    JoinedPrefix(b, a);
  }

  /** `is_equal_or_child_uri` on path strings, with or without trailing slashes, is the prefix test on segments. */
  lemma EqualOrChildIsPrefix(base: string, a: Path, sa: bool, b: Path, sb: bool)
    requires Names(a) && Names(b) && base != ""
    ensures IsEqualOrChildUri(PathString(base, a, sa), PathString(base, b, sb)) <==> a <= b
  {
    var r := RStrip(base);
    StripPathString(base, a, sa);
    StripPathString(base, b, sb);
    Assoc(r, Joined(a), "/");
    Assoc(r, Joined(b), "/");
    PrefixCancel(r, Joined(a) + "/", Joined(b) + "/");
    JoinedPrefix(a, b);
    NotEmpty(base, a, sa);
    NotEmpty(base, b, sb);
  }

  lemma NotEmpty(base: string, p: Path, slash: bool)
    requires Names(p) && base != ""
    ensures PathString(base, p, slash) != ""
  {
  }

  /** Whether a path string is written as the members of the resource write their parent. */
  predicate Marked(base: string, p: Path, slash: bool) {
    if p == [] then base == RStrip(base) + "/" else slash
  }

  /** A path string equals the parent string of a member exactly if it is marked and the member is one of its own. */
  lemma ParentStringMatches(base: string, p: Path, slash: bool, q: Path, n: string, slashC: bool)
    requires Names(p) && Names(q) && IsName(n) && !LooksLikeRoot(PathString(base, q + [n], slashC))
    ensures GetUriParent(PathString(base, q + [n], slashC)).Some?
    ensures PathString(base, p, slash) == GetUriParent(PathString(base, q + [n], slashC)).value
            <==> Marked(base, p, slash) && p == q
  {
    ParentString(base, q, n, slashC);
    MarkedString(base, p, slash, q);
  }

  lemma MarkedString(base: string, p: Path, slash: bool, q: Path)
    requires Names(p) && Names(q)
    ensures PathString(base, p, slash) == RStrip(base) + Joined(q) + "/" <==> Marked(base, p, slash) && p == q
  {
    var r := RStrip(base);
    var s, t := PathString(base, p, slash), r + Joined(q) + "/";
    StripPathString(base, p, slash);
    RStripSpec(base);
    StripOne(r + Joined(q), base, q);
    if s == t {
      PrefixCancel(r, Joined(p), Joined(q));
      JoinedInjective(p, q);
      if p != [] { JoinedEnds(p); }
      assert t[|t| - 1] == '/';
      assert p != [] && !slash ==> s == r + Joined(p) + "" == r + Joined(p);
      assert p == [] ==> t == r + "" + "/" == r + "/";
    }
  }

  lemma StripOne(t: string, base: string, q: Path)
    requires Names(q) && t == RStrip(base) + Joined(q)
    ensures RStrip(t + "/") == t
  {
    if q != [] { JoinedEnds(q); }
    RStripSpec(base);
    RStripUnique(t + "/", t);
  }
}
