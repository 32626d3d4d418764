/**
  The URI helpers of `wsgidav/util.py` and `normalize_lock_root` of
  `wsgidav/lock_man/lock_manager.py`, on strings as they are there, and what the walk from a
  URL to its parents visits.
*/
module Uri {
  import opened Wrappers

  // ---------------------------------------------------------------- string primitives

  /** `s.rstrip("/")` */
  function RStrip(s: string): string {
    if s != "" && s[|s| - 1] == '/' then RStrip(s[..|s| - 1]) else s
  }

  /** `s.lstrip("/")` */
  function LStrip(s: string): string {
    if s != "" && s[0] == '/' then LStrip(s[1..]) else s
  }

  /** `s.strip("/")` */
  function Strip(s: string): string {
    LStrip(RStrip(s))
  }

  /** The white space `str.strip()` removes, up to U+00FF. */
  predicate IsSpace(c: char) {
    '\t' <= c <= '\r' || 28 as char <= c <= ' ' || c == 133 as char || c == 160 as char
  }

  /** White space among the ASCII characters. */
  lemma {:induction false} AsciiSpace(c: char)
    requires c < 128 as char
    ensures IsSpace(c) <==> c in {'\t', '\n', 11 as char, 12 as char, '\r', 28 as char, 29 as char, 30 as char, 31 as char, ' '}
  {
    assert c as int < 128;
  }

  predicate NoSpace(s: string) {
    forall i :: 0 <= i < |s| ==> !IsSpace(s[i])
  }

  /** `s.strip()` */
  function StripSpace(s: string): string {
    if s != "" && IsSpace(s[0]) then StripSpace(s[1..])
    else if s != "" && IsSpace(s[|s| - 1]) then StripSpace(s[..|s| - 1])
    else s
  }

  /** The index of the last '/', or -1. */
  function LastSlash(s: string): (k: int)
    ensures -1 <= k < |s|
    ensures k >= 0 ==> s[k] == '/'
    ensures forall i :: k < i < |s| ==> s[i] != '/'
  {
    if s == "" then -1 else if s[|s| - 1] == '/' then |s| - 1 else LastSlash(s[..|s| - 1])
  }

  /** `s.rsplit("/", 1)[0]` */
  function RSplitHead(s: string): string {
    if LastSlash(s) < 0 then s else s[..LastSlash(s)]
  }

  // ---------------------------------------------------------------- the helpers

  function JoinWith(segments: seq<string>): string {
    if segments == [] then ""
    else if |segments| == 1 then segments[0]
    else segments[0] + "/" + JoinWith(segments[1..])
  }

  function JoinUri(uri: string, segments: seq<string>): string {
    var sub := JoinWith(segments);
    if sub == "" then uri else RStrip(uri) + "/" + sub
  }

  function GetUriParent(uri: string): Option<string> {
    if uri == "" || StripSpace(uri) == "/" then None
    else Some(RSplitHead(RStrip(uri)) + "/")
  }

  predicate IsChildUri(parent: string, child: string) {
    parent != "" && child != "" && RStrip(parent) + "/" <= RStrip(child)
  }

  predicate IsEqualOrChildUri(parent: string, child: string) {
    parent != "" && child != "" && RStrip(parent) + "/" <= RStrip(child) + "/"
  }

  function NormalizeLockRoot(path: string): string {
    "/" + Strip(path)
  }

  // ---------------------------------------------------------------- facts about stripping

  lemma {:induction false} RStripSpec(s: string)
    ensures RStrip(s) <= s
    ensures RStrip(s) == "" || RStrip(s)[|RStrip(s)| - 1] != '/'
    ensures forall i :: |RStrip(s)| <= i < |s| ==> s[i] == '/'
  {
    if s != "" && s[|s| - 1] == '/' { RStripSpec(s[..|s| - 1]); }
  }

  lemma {:induction false} LStripSpec(s: string)
    ensures |LStrip(s)| <= |s| && LStrip(s) == s[|s| - |LStrip(s)|..]
    ensures LStrip(s) == "" || LStrip(s)[0] != '/'
    ensures forall i :: 0 <= i < |s| - |LStrip(s)| ==> s[i] == '/'
  {
    if s != "" && s[0] == '/' {
      LStripSpec(s[1..]);
      var n := |s| - |LStrip(s)|;
      assert s[n..] == s[1..][n - 1..];
      assert forall i :: 0 < i < n ==> s[i] == s[1..][i - 1];
    }
  }

  lemma {:induction false} RStripUnique(s: string, r: string)
    requires r <= s && (r == "" || r[|r| - 1] != '/')
    requires forall i :: |r| <= i < |s| ==> s[i] == '/'
    ensures RStrip(s) == r
  {
    RStripSpec(s);
    var t := RStrip(s);
    if r != "" { assert r[|r| - 1] == s[|r| - 1]; }
    if t != "" { assert t[|t| - 1] == s[|t| - 1]; }
  }

  lemma LStripUnique(s: string, n: nat)
    requires n <= |s| && (n == |s| || s[n] != '/')
    requires forall i :: 0 <= i < n ==> s[i] == '/'
    ensures LStrip(s) == s[n..]
  {
    LStripSpec(s);
    var m := |s| - |LStrip(s)|;
    if m < |s| { assert s[m] == LStrip(s)[0]; }
    if n < |s| { assert s[n] != '/'; }
  }

  lemma RStripAfter(a: string, b: string)
    requires a != "" && a[|a| - 1] != '/'
    ensures RStrip(a + b) == a + RStrip(b)
  {
    RStripSpec(b);
    RStripUnique(a + b, a + RStrip(b));
  }

  lemma {:induction false} NoSpaceIsKept(s: string)
    requires NoSpace(s)
    ensures StripSpace(s) == s
  {
  }

  /** Without a slash at either end. */
  predicate Trim(s: string) {
    s == "" || (s[0] != '/' && s[|s| - 1] != '/')
  }

  predicate Normal(path: string) {
    path != "" && path[0] == '/' && Trim(path[1..])
  }

  /** What stripping keeps: `s` is slashes, a trimmed body, slashes. */
  lemma {:induction false} StripSpec(s: string) returns (lo: nat, hi: nat)
    ensures lo <= hi <= |s| && Strip(s) == s[lo..hi] && Trim(Strip(s))
    ensures forall i :: 0 <= i < |s| && !(lo <= i < hi) ==> s[i] == '/'
    ensures RStrip(s) == s[..hi]
  {
    RStripSpec(s);
    LStripSpec(RStrip(s));
    hi := |RStrip(s)|;
    lo := hi - |Strip(s)|;
    assert Strip(s) == s[lo..hi];
  }

  lemma StripUnique(s: string, lo: nat, hi: nat)
    requires lo <= hi <= |s| && Trim(s[lo..hi])
    requires forall i :: 0 <= i < |s| && !(lo <= i < hi) ==> s[i] == '/'
    ensures Strip(s) == s[lo..hi]
  {
    if lo == hi {
      RStripUnique(s, "");
    } else {
      assert s[..hi][|s[..hi]| - 1] == s[lo..hi][hi - lo - 1];
      RStripUnique(s, s[..hi]);
      assert s[lo] == s[lo..hi][0];
      LStripUnique(s[..hi], lo);
    }
  }

  lemma NormalizeIsNormal(path: string)
    ensures Normal(NormalizeLockRoot(path))
  {
    var lo, hi := StripSpec(path);
    assert NormalizeLockRoot(path)[1..] == Strip(path);
  }

  lemma NormalIsFixed(path: string)
    requires Normal(path)
    ensures NormalizeLockRoot(path) == path
  {
    assert path[1..|path|] == path[1..];
    StripUnique(path, 1, |path|);
    assert path == "/" + path[1..];
  }

  // ---------------------------------------------------------------- parents and children

  function ParentBody(b: string): string {
    if LastSlash(b) < 0 then "" else RStrip(b[..LastSlash(b)])
  }

  predicate ChildBody(a: string, b: string) {
    b != "" && (a == "" || a + "/" <= b)
  }

  /** The number of leading slashes. */
  function Leading(s: string): (n: nat)
    ensures n <= |s|
    ensures n < |s| ==> s[n] != '/'
    ensures forall i :: 0 <= i < n ==> s[i] == '/'
  {
    if s != "" && s[0] == '/' then 1 + Leading(s[1..]) else 0
  }

  lemma {:induction false} LeadingOfBody(s: string)
    requires Strip(s) != ""
    ensures var n := Leading(s); n + |Strip(s)| <= |s| && RStrip(s) == s[..n] + Strip(s)
  {
    var lo, hi := StripSpec(s);
    assert s[lo] == Strip(s)[0];
    var n := Leading(s);
    assert n < |s| && s[n] != '/';
    assert lo == n;
    assert s[..hi] == s[..lo] + s[lo..hi];
  }

  lemma OnlySlashes(s: string)
    ensures Strip(s) == "" <==> RStrip(s) == ""
  {
    var lo, hi := StripSpec(s);
    RStripSpec(s);
    if hi > 0 { assert s[hi - 1] != '/'; }
  }

  lemma SameLeading(a: string, x: string, b: string, y: string)
    requires (forall i :: 0 <= i < |a| ==> a[i] == '/') && (forall i :: 0 <= i < |b| ==> b[i] == '/')
    requires x != "" && x[0] != '/' && y != "" && y[0] != '/'
    ensures a + x + "/" <= b + y <==> |a| == |b| && x + "/" <= y
  {
    if a + x + "/" <= b + y {
      var k := if |b| < |a| then |b| else |a|;
      assert (a + x + "/")[k] == (b + y)[k];
      assert a == b;
      assert (b + y)[|b|..] == y && (a + x + "/")[|a|..] == x + "/";
    }
    if |a| == |b| && x + "/" <= y {
      assert a == b;
      assert b + y == a + (x + "/") + y[|x + "/"|..];
    }
  }

  /** The string test for children, on all strings: the bodies decide, between URLs with equally many leading slashes. */
  lemma ChildTestSpec(p: string, c: string)
    ensures IsChildUri(p, c) <==>
              p != "" && ChildBody(Strip(p), Strip(c)) && if Strip(p) == "" then Leading(c) > 0 else Leading(p) == Leading(c)
  {
    OnlySlashes(p);
    OnlySlashes(c);
    if Strip(c) != "" {
      LeadingOfBody(c);
      var lo, hi := StripSpec(c);
      if Strip(p) != "" {
        LeadingOfBody(p);
        var lo', hi' := StripSpec(p);
        SameLeading(p[..Leading(p)], Strip(p), c[..Leading(c)], Strip(c));
      } else {
        assert RStrip(c)[0] == '/' <==> Leading(c) > 0;
      }
    }
  }

  lemma ChildIsChildBody(p: string, c: string)
    requires Normal(p) && Normal(c)
    ensures IsChildUri(p, c) <==> ChildBody(p[1..], c[1..])
  {
    assert p == "/" + p[1..] && c == "/" + c[1..];
    RStripUnique(p, if p == "/" then "" else p);
    RStripUnique(c, if c == "/" then "" else c);
    if p != "/" && c != "/" {
      assert p + "/" <= c <==> p[1..] + "/" <= c[1..] by {
        assert (p + "/")[1..] == p[1..] + "/";
        assert p + "/" == "/" + (p[1..] + "/");
      }
    }
  }

  lemma LastSlashUnique(s: string, k: nat)
    requires k < |s| && s[k] == '/' && forall i :: k < i < |s| ==> s[i] != '/'
    ensures LastSlash(s) == k
  {
  }

  lemma HeadOfTopLevel(r: string, lo: nat, b: string)
    requires 0 < lo && lo + |b| == |r| && r[lo..] == b && LastSlash(b) < 0 && r[lo - 1] == '/'
    ensures RSplitHead(r) + "/" == r[..lo]
  {
  }

  lemma ParentOfTopLevel(u: string, lo: nat, hi: nat, b: string)
    requires lo < hi <= |u| && u[0] == '/' && b == u[lo..hi] && RStrip(u) == u[..hi] && Trim(b)
    requires forall i :: 0 <= i < lo ==> u[i] == '/'
    requires LastSlash(b) < 0
    ensures RSplitHead(RStrip(u)) + "/" == u[..lo] && lo > 0 && Strip(u[..lo]) == ""
  {
    assert u[lo] == b[0];
    assert u[..hi][lo..] == b;
    HeadOfTopLevel(u[..hi], lo, b);
    StripUnique(u[..lo], 0, 0);
  }

  lemma StripHead(v: string, lo: nat, a: string)
    requires a != "" && a[0] != '/'
    requires |v| == lo + |a| + 1 && v[lo..lo + |a|] == a && v[lo + |a|] == '/'
    requires forall i :: 0 <= i < lo ==> v[i] == '/'
    ensures Strip(v) == RStrip(a)
  {
    RStripSpec(a);
    var t := RStrip(a);
    assert t[0] == a[0];
    assert v[lo..lo + |t|] == a[..|t|] == t;
    forall i | lo + |t| <= i < |v| ensures v[i] == '/' {
      if i < lo + |a| { assert v[i] == v[lo..lo + |a|][i - lo] == a[i - lo]; }
    }
    StripUnique(v, lo, lo + |t|);
  }

  lemma {:induction false} HeadBelowTopLevel(r: string, lo: nat, b: string)
    requires lo + |b| == |r| && r[lo..] == b && LastSlash(b) >= 0
    ensures RSplitHead(r) + "/" == r[..lo + LastSlash(b) + 1]
  {
  }

  lemma {:induction false} ParentBelowTopLevel(u: string, lo: nat, hi: nat, b: string)
    requires lo < hi <= |u| && b == u[lo..hi] && RStrip(u) == u[..hi] && Trim(b)
    requires forall i :: 0 <= i < lo ==> u[i] == '/'
    requires LastSlash(b) >= 0
    ensures RSplitHead(RStrip(u)) + "/" == u[..lo + LastSlash(b) + 1]
    ensures Strip(u[..lo + LastSlash(b) + 1]) == ParentBody(b)
  {
    var j := LastSlash(b);
    assert u[..hi][lo..] == b;
    HeadBelowTopLevel(u[..hi], lo, b);
    var v, a := u[..lo + j + 1], b[..j];
    assert b[0] == u[lo] && b[0] != '/' && b[j] == '/';
    assert j > 0 && a[0] == b[0];
    assert v[lo..lo + |a|] == a by {
      forall i | 0 <= i < j ensures v[lo..lo + j][i] == a[i] { assert u[lo + i] == b[i]; }
    }
    assert v[lo + j] == u[lo + j] == b[j];
    forall i | 0 <= i < lo ensures v[i] == '/' { assert v[i] == u[i]; }
    StripHead(v, lo, a);
  }

  /** The parent of a URL, in terms of its body. */
  lemma ParentSpec(u: string)
    requires u != "" && u[0] == '/' && u != "/" && NoSpace(u)
    ensures GetUriParent(u).Some?
    ensures var v := GetUriParent(u).value;
            && v != "" && v[0] == '/' && |v| < |u| && NoSpace(v)
            && Strip(v) == ParentBody(Strip(u))
            && (Strip(u) == "" ==> v == "/")
  {
    NoSpaceIsKept(u);
    var lo, hi := StripSpec(u);
    if lo == hi {
      RStripUnique(u, "");
      StripUnique("/", 0, 0);
      assert RSplitHead("") + "/" == "/";
    } else if LastSlash(u[lo..hi]) < 0 {
      ParentOfTopLevel(u, lo, hi, u[lo..hi]);
    } else {
      ParentBelowTopLevel(u, lo, hi, u[lo..hi]);
      assert u[lo..hi][0] == u[lo];
    }
  }

  /** The strict ancestors of a body are its parent and the parent's strict ancestors. */
  lemma ChildBodyStep(a: string, b: string)
    requires Trim(a) && Trim(b) && b != ""
    ensures Trim(ParentBody(b))
    ensures ChildBody(a, b) <==> a == ParentBody(b) || ChildBody(a, ParentBody(b))
  {
    var j := LastSlash(b);
    assert (a + "/")[|a|] == '/';
    if j >= 0 {
      var p := ParentBody(b);
      RStripSpec(b[..j]);
      assert b[..j][0] == b[0];
      assert p[0] == b[0] && p <= b[..j] <= b;
      assert b[|p|] == '/' by { if |p| < j { assert b[|p|] == b[..j][|p|]; } }
      if a != "" && a + "/" <= b {
        assert b[|a|] == (a + "/")[|a|];
        assert a[|a| - 1] == b[|a| - 1] == b[..j][|a| - 1];
        assert |a| <= |p|;
        if |a| == |p| { assert a == b[..|a|] == p; }
        else { assert a + "/" == b[..|a| + 1] == p[..|a| + 1]; }
      }
      if a == p { assert a + "/" == b[..|a| + 1]; }
    }
  }

  // ---------------------------------------------------------------- the walk

  /** The values the loop `while u: ...; u = get_uri_parent(u)` gives to `u`. */
  function Walk(u: string): seq<string>
    requires u != "" && u[0] == '/' && NoSpace(u)
    decreases |u|
  {
    NoSpaceIsKept(u);
    if u == "/" then ["/"]
    else
      ParentSpec(u);
      [u] + Walk(GetUriParent(u).value)
  }

  predicate AtOrAbove(p: string, c: string) {
    p == c || IsChildUri(p, c)
  }

  /** On lock roots the looser string test is this relation. */
  lemma EqualOrChildIsAtOrAbove(p: string, c: string)
    requires Normal(p) && Normal(c)
    ensures IsEqualOrChildUri(p, c) <==> AtOrAbove(p, c)
  {
    RStripUnique(p, if p == "/" then "" else p);
    RStripUnique(c, if c == "/" then "" else c);
    var a, b := RStrip(p) + "/", RStrip(c) + "/";
    if a <= b && |a| < |b| { assert a == b[..|a|] == RStrip(c)[..|a|]; }
    if a <= b && |a| == |b| { assert a == b && a[..|a| - 1] == b[..|b| - 1]; }
    if a <= RStrip(c) { assert a == b[..|a|]; }
  }

  /** The walk looks at a path exactly when that path is the URL's own or one of its ancestors'. */
  lemma {:induction false} WalkVisitsAncestors(u: string, q: string)
    requires u != "" && u[0] == '/' && NoSpace(u) && Normal(q)
    ensures (exists v :: v in Walk(u) && NormalizeLockRoot(v) == q) <==> AtOrAbove(q, NormalizeLockRoot(u))
    ensures forall v :: v in Walk(u)[1..] ==> |v| < |u| && v != "" && v[0] == '/' && NoSpace(v)
    ensures (exists v :: v in Walk(u)[1..] && NormalizeLockRoot(v) == q)
            <==> IsChildUri(q, NormalizeLockRoot(u)) || (q == "/" && NormalizeLockRoot(u) == "/" && u != "/")
    decreases |u|
  {
    NormalizeIsNormal(u);
    NoSpaceIsKept(u);
    var n := NormalizeLockRoot(u);
    ChildIsChildBody(q, n);
    assert n[1..] == Strip(u) && q == "/" + q[1..];
    if u == "/" {
      assert Walk(u) == ["/"] && Strip("/") == "" by { StripUnique("/", 0, 0); }
    } else {
      ParentSpec(u);
      var v := GetUriParent(u).value;
      assert Walk(u)[0] == u && Walk(u)[1..] == Walk(v);
      WalkVisitsAncestors(v, q);
      NormalizeIsNormal(v);
      var m := NormalizeLockRoot(v);
      ChildIsChildBody(q, m);
      assert m[1..] == Strip(v);
      var lo, hi := StripSpec(u);
      if Strip(u) != "" { ChildBodyStep(q[1..], Strip(u)); }
      assert Walk(v)[0] == v;
      assert forall w :: w in Walk(v) ==> w == v || w in Walk(v)[1..];
      assert forall w :: w in Walk(u) <==> w == u || w in Walk(v);
    }
  }

  /** The n-th value of the loop variable; None once the loop has ended. */
  function Iterate(u: string, n: nat): Option<string>
    decreases n
  {
    if n == 0 || u == "" then (if u == "" then None else Some(u))
    else match GetUriParent(u) case None => None case Some(v) => Iterate(v, n - 1)
  }

  lemma {:induction false} RelativeUrlsLoop(u: string, n: nat)
    requires u != "" && u[0] != '/' && NoSpace(u)
    ensures Iterate(u, n).Some?
    decreases n
  {
    if n > 0 {
      NoSpaceIsKept(u);
      RStripSpec(u);
      var r := RStrip(u);
      assert r != "" && r[0] == u[0];
      var v := RSplitHead(r) + "/";
      assert v[0] == u[0];
      RelativeUrlsLoop(v, n - 1);
    }
  }

  lemma {:induction false} AbsoluteUrlsEnd(u: string)
    requires u != "" && u[0] == '/' && NoSpace(u)
    ensures Iterate(u, |Walk(u)|).None?
    decreases |u|
  {
    NoSpaceIsKept(u);
    if u != "/" {
      ParentSpec(u);
      AbsoluteUrlsEnd(GetUriParent(u).value);
    }
  }

  /** The loop ends exactly on the empty string and on URLs with a leading slash. */
  lemma WalkEndsIff(u: string)
    requires NoSpace(u)
    ensures (exists n :: Iterate(u, n).None?) <==> u == "" || u[0] == '/'
  {
    if u == "" { assert Iterate(u, 0).None?; }
    else if u[0] == '/' { AbsoluteUrlsEnd(u); }
    else { forall n ensures Iterate(u, n).Some? { RelativeUrlsLoop(u, n); } }
  }
}
