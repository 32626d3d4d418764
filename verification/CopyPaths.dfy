/**
  The string arithmetic of `_copy_or_move` in `wsgidav/request_server.py`: target paths cut from
  source paths, and the test whether a destination resource is part of the source.
*/
module CopyPaths {
  import opened Sequences
  import opened Uri
  import opened PathStrings

  // ---------------------------------------------------------------- the segments of a path string

  /** The names between the slashes: what a provider looks a path up by. */
  function Segments(s: string): Path
    decreases |s|
  {
    if s == "" then []
    else if s[0] == '/' then Segments(s[1..])
    else [s[..IndexOf(s, '/')]] + Segments(s[IndexOf(s, '/')..])
  }

  lemma SliceConcat(a: string, b: string, k: nat)
    requires k <= |a|
    ensures (a + b)[..k] == a[..k] && (a + b)[k..] == a[k..] + b
  {
  }

  lemma IndexInFront(a: string, b: string)
    requires b == "" || b[0] == '/'
    ensures IndexOf(a + b, '/') == IndexOf(a, '/')
  {
    var k := IndexOf(a, '/');
    assert k < |a + b| ==> (a + b)[k] == if k < |a| then a[k] else b[0];
    IndexOfUnique(a + b, '/', k);
  }

  lemma {:induction false} SegmentsFirst(a: string, b: string)
    requires a != "" && a[0] != '/' && (b == "" || b[0] == '/')
    ensures var k := IndexOf(a, '/'); 0 < k <= |a| && Segments(a + b) == [a[..k]] + Segments(a[k..] + b)
  {
    var k := IndexOf(a, '/');
    IndexInFront(a, b);
    SliceConcat(a, b, k);
    assert (a + b)[0] == a[0];
  }

  lemma {:induction false} SegmentsConcat(a: string, b: string)
    requires b == "" || b[0] == '/'
    ensures Segments(a + b) == Segments(a) + Segments(b)
    decreases |a|
  {
    if a == "" {
      assert a + b == b;
    } else if a[0] == '/' {
      assert (a + b)[1..] == a[1..] + b;
      SegmentsConcat(a[1..], b);
    } else {
      SegmentsFirst(a, b);
      SegmentsConcat(a[IndexOf(a, '/')..], b);
    }
  }

  lemma SegmentsName(n: string)
    requires IsName(n)
    ensures Segments("/" + n) == [n]
  {
    assert ("/" + n)[1..] == n;
    IndexOfUnique(n, '/', |n|);
    assert n[..|n|] == n && n[|n|..] == "";
    assert Segments(n) == [n] + Segments("");
  }

  lemma SegmentsSlash(s: string)
    ensures Segments(s + "/") == Segments(s)
  {
    SegmentsConcat(s, "/");
    assert "/"[1..] == "";
  }

  lemma {:induction false} SegmentsJoined(p: Path)
    requires Names(p)
    ensures Segments(Joined(p)) == p
  {
    if p != [] {
      SegmentsJoined(p[1..]);
      JoinedStarts(p[1..]);
      SegmentsConcat("/" + p[0], Joined(p[1..]));
      SegmentsName(p[0]);
    }
  }

  lemma JoinedStarts(p: Path)
    ensures Joined(p) == "" <==> p == []
    ensures p != [] ==> Joined(p)[0] == '/'
  {
  }

  lemma {:induction false} SegmentsRStrip(s: string)
    ensures Segments(RStrip(s)) == Segments(s)
    decreases |s|
  {
    if s != "" && s[|s| - 1] == '/' {
      var t := s[..|s| - 1];
      assert s == t + "/";
      SegmentsSlash(t);
      SegmentsRStrip(t);
    }
  }

  /** A path string is looked up as the base with the segments behind it. */
  lemma PathStringKey(base: string, p: Path, slash: bool)
    requires Names(p)
    ensures Segments(PathString(base, p, slash)) == Segments(base) + p
  {
    if p == [] {
      assert Segments(base) + p == Segments(base);
    } else {
      var r := RStrip(base) + Joined(p);
      JoinedStarts(p);
      SegmentsConcat(RStrip(base), Joined(p));
      SegmentsRStrip(base);
      SegmentsJoined(p);
      SegmentsSlash(r);
      assert r + "" == r;
    }
  }

  // ---------------------------------------------------------------- cutting

  /** `s[n:]`, which Python allows beyond the end. */
  function From(s: string, n: nat): string {
    if n <= |s| then s[n..] else ""
  }

  predicate Slashed(s: string) {
    s == RStrip(s) + "/"
  }

  predicate AtMostOneSlash(s: string) {
    s == RStrip(s) || Slashed(s)
  }

  /** `dest_path + sres.path[src_root_len:]` */
  function TargetString(src: string, dest: string, path: string): string {
    dest + From(path, |src|)
  }

  /** The cut of a member path: without the slash before the first name, or with it. */
  lemma {:induction false} CutMember(base: string, p: Path, slash: bool)
    requires p != [] && AtMostOneSlash(base)
    ensures From(PathString(base, p, slash), |base|)
         == if Slashed(base) then Joined(p)[1..] + Tail(slash) else Joined(p) + Tail(slash)
  {
    var r, j, t := RStrip(base), Joined(p), Tail(slash);
    JoinedStarts(p);
    assert PathString(base, p, slash) == (r + j) + t;
    if Slashed(base) {
      assert ((r + j) + t)[|r| + 1..] == j[1..] + t;
    } else {
      assert ((r + j) + t)[|r|..] == j + t;
    }
  }

  function Tail(slash: bool): string {
    if slash then "/" else ""
  }

  /** What is appended to a path that ends in its slash stands below it. */
  lemma AppendedIsBelow(dest: string, t: string)
    requires Slashed(dest)
    ensures Segments(dest + t) == Segments(dest) + Segments(t)
  {
    var d := RStrip(dest);
    assert dest + t == d + ("/" + t) && ("/" + t)[1..] == t;
    SegmentsConcat(d, "/" + t);
    SegmentsSlash(d);
  }

  /** Every member is copied to the same place below the destination. */
  lemma TargetIsParallel(src: string, dest: string, p: Path, slash: bool)
    requires Names(p) && AtMostOneSlash(src) && (p != [] ==> Slashed(dest))
    ensures Segments(TargetString(src, dest, PathString(src, p, slash))) == Segments(dest) + p
  {
    if p == [] {
      assert From(src, |src|) == "";
      assert dest + "" == dest && Segments(dest) + p == Segments(dest);
    } else {
      CutMember(src, p, slash);
      ParallelTarget(dest, RStrip(dest), p, slash, Slashed(src));
    }
  }

  lemma ParallelTarget(dest: string, d: string, p: Path, slash: bool, cut: bool)
    requires Names(p) && p != [] && dest == d + "/"
    ensures Segments(dest + if cut then Joined(p)[1..] + Tail(slash) else Joined(p) + Tail(slash)) == Segments(dest) + p
  {
    var j, t := Joined(p), Tail(slash);
    JoinedStarts(p);
    SegmentsOfMember(p, slash);
    SegmentsSlash(d);
    if cut {
      SameTarget(dest, d, j, t);
      SegmentsConcat(d, j + t);
    } else {
      SegmentsConcat(dest, j + t);
    }
  }

  lemma SegmentsOfMember(p: Path, slash: bool)
    requires Names(p)
    ensures Segments(Joined(p) + Tail(slash)) == p
  {
    SegmentsJoined(p);
    SegmentsSlash(Joined(p));
    assert Joined(p) + "" == Joined(p);
  }

  lemma SameTarget(dest: string, d: string, j: string, t: string)
    requires dest == d + "/" && j != "" && j[0] == '/'
    ensures dest + (j[1..] + t) == d + (j + t)
  {
  }

  /** Behind two slashes at the end of the source, a member with a short name is copied onto the destination itself. */
  lemma TwoSlashesMisplace(src: string, dest: string, c: char)
    requires !AtMostOneSlash(src) && c != '/'
    ensures Names([[c]]) && TargetString(src, dest, PathString(src, [[c]], false)) == dest
  {
    RStripSpec(src);
    assert Joined([[c]]) == "/" + [c] + "" by { assert [[c]][1..] == []; }
    var r := RStrip(src);
    LongerThanOne(src);
    assert |PathString(src, [[c]], false)| == |r| + 2;
  }

  ghost predicate AllTargetsParallel(src: string, dest: string) {
    forall p: Path, slash: bool :: Names(p) ==> Segments(TargetString(src, dest, PathString(src, p, slash))) == Segments(dest) + p
  }

  /** The cut is right for every member exactly if the source path ends in at most one slash. */
  lemma TargetsAreParallelIff(src: string, dest: string)
    requires Slashed(dest)
    ensures AllTargetsParallel(src, dest) <==> AtMostOneSlash(src)
  {
    if AtMostOneSlash(src) {
      forall p: Path, slash: bool | Names(p) ensures Segments(TargetString(src, dest, PathString(src, p, slash))) == Segments(dest) + p {
        TargetIsParallel(src, dest, p, slash);
      }
    } else {
      TwoSlashesMisplace(src, dest, 'x');
      assert |Segments(dest) + [['x']]| > |Segments(dest)|;
    }
  }

  lemma {:induction false} LongerThanOne(s: string)
    ensures |s| < |RStrip(s)| + 2 ==> AtMostOneSlash(s)
  {
    RStripSpec(s);
    if |s| < |RStrip(s)| + 2 {
      var n := |RStrip(s)|;
      assert s == s[..n] + s[n..];
      assert s[n..] == "" || s[n..] == "/";
    }
  }

  // ---------------------------------------------------------------- matching

  /** `src_path + dres.path[dest_root_len:]` */
  function MatchString(src: string, dest: string, path: string): string {
    src + From(path, |dest|)
  }

  /**
    A destination resource is found among the source paths exactly if the source ends in its slash
    and both are spelled alike.
  */
  lemma {:induction false} MatchIff(src: string, dest: string, p: Path, slash: bool, q: Path, slashQ: bool)
    requires Names(p) && Names(q) && p != [] && Slashed(dest)
    ensures MatchString(src, dest, PathString(dest, p, slash)) == PathString(src, q, slashQ)
            <==> Slashed(src) && p == q && slash == slashQ
  {
    CutMember(dest, p, slash);
    var r, j, t := RStrip(src), Joined(p), Tail(slash);
    FirstNameIsNoSlash(p);
    if Slashed(src) {
      assert src + (j[1..] + t) == (r + j) + t by { assert j == "/" + j[1..]; }
      SpelledAlike(src, p, slash, q, slashQ);
    } else {
      NeverMatches(src, j[1..] + t, q, slashQ);
    }
  }

  /** Appended to a path that does not end in exactly one slash, a name starts no member path. */
  lemma {:induction false} NeverMatches(src: string, rest: string, q: Path, slash: bool)
    requires !Slashed(src) && rest != "" && rest[0] != '/' && Names(q)
    ensures src + rest != PathString(src, q, slash)
  {
    var r, m := RStrip(src), src + rest;
    RStripSpec(src);
    if q == [] {
      assert |m| > |src|;
    } else {
      FirstNameIsNoSlash(q);
      var s := PathString(src, q, slash);
      assert s == (r + Joined(q)) + Tail(slash);
      assert s[|r|] == '/' && s[|r| + 1] == Joined(q)[1];
      LongerThanOne(src);
      if AtMostOneSlash(src) {
        assert m[|r|] == rest[0];
      } else {
        assert m[|r| + 1] == src[|r| + 1];
      }
    }
  }

  lemma FirstNameIsNoSlash(p: Path)
    requires Names(p) && p != []
    ensures |Joined(p)| >= 2 && Joined(p)[1] != '/'
  {
  }

  lemma SpelledAlike(base: string, p: Path, slash: bool, q: Path, slashQ: bool)
    requires Names(p) && Names(q) && p != []
    ensures PathString(base, p, slash) == PathString(base, q, slashQ) <==> p == q && slash == slashQ
  {
    var s, t := PathString(base, p, slash), PathString(base, q, slashQ);
    StripPathString(base, p, slash);
    StripPathString(base, q, slashQ);
    if s == t {
      PrefixCancel(RStrip(base), Joined(p), Joined(q));
      JoinedInjective(p, q);
    }
  }

  // ---------------------------------------------------------------- below itself

  /** The number of slashes before each name. */
  function Runs(s: string): seq<nat>
    decreases |s|
  {
    if Leading(s) == |s| then []
    else var t := s[Leading(s)..]; [Leading(s)] + Runs(t[IndexOf(t, '/')..])
  }

  function Slashes(k: nat): string {
    seq(k, _ => '/')
  }

  lemma {:induction false} SegmentsSkip(s: string)
    ensures Segments(s) == Segments(s[Leading(s)..])
  {
    if Leading(s) > 0 {
      SegmentsSkip(s[1..]);
      assert s[1..][Leading(s[1..])..] == s[Leading(s)..];
    } else {
      assert s[0..] == s;
    }
  }

  lemma {:induction false} UnfoldFirst(s: string, t: string, i: nat)
    requires Leading(s) < |s| && t == s[Leading(s)..] && i == IndexOf(t, '/')
    ensures Runs(s) == [Leading(s)] + Runs(t[i..]) && Segments(s) == [t[..i]] + Segments(t[i..])
  {
    SegmentsSkip(s);
  }

  lemma {:induction false} LeadingSlashes(s: string)
    ensures s == Slashes(Leading(s)) + s[Leading(s)..]
  {
  }

  lemma {:induction false} NameInFront(t: string)
    requires t != "" && t[0] != '/'
    ensures IsName(t[..IndexOf(t, '/')]) && Rooted(t[IndexOf(t, '/')..])
  {
  }

  /** The first run of slashes, the first name, and what follows. */
  lemma {:induction false} SplitFirst(s: string) returns (k: nat, n: string, rest: string)
    requires Leading(s) < |s|
    ensures s == Slashes(k) + n + rest && IsName(n) && Rooted(rest) && k == Leading(s)
    ensures Runs(s) == [k] + Runs(rest) && Segments(s) == [n] + Segments(rest)
  {
    k := Leading(s);
    var i := IndexOf(s[k..], '/');
    n, rest := s[k..][..i], s[k..][i..];
    UnfoldFirst(s, s[k..], i);
    NameInFront(s[k..]);
    PartsOfText(s, k, i);
  }

  lemma {:induction false} PartsOfText(s: string, k: nat, i: nat)
    requires k == Leading(s) && k + i <= |s|
    ensures s == Slashes(k) + s[k..][..i] + s[k..][i..]
  {
    LeadingSlashes(s);
    assert s[k..] == s[k..][..i] + s[k..][i..];
    Assoc(Slashes(k), s[k..][..i], s[k..][i..]);
  }

  /** Stripping stops at the last name. */
  lemma {:induction false} StripBehind(a: string, b: string)
    requires a != "" && a[|a| - 1] != '/'
    ensures RStrip(a + b) == a + RStrip(b)
  {
    var r := a + RStrip(b);
    RStripSpec(b);
    assert b == RStrip(b) + b[|RStrip(b)|..];
    RStripUnique(a + b, r);
  }

  lemma {:induction false} HeadAt(k: nat, n: string, x: string)
    requires IsName(n) && x != "" && x[0] == '/'
    ensures var s := Slashes(k) + n + x;
            && (forall i :: 0 <= i < k ==> s[i] == '/') && (forall i :: k <= i < k + |n| ==> s[i] == n[i - k] && s[i] != '/')
            && s[k + |n|] == '/'
  {
  }

  /** Texts that start with a run and a name stand one before the other exactly if both agree and the rests do. */
  lemma {:induction false} HeadsCompare(k: nat, n: string, x: string, l: nat, m: string, y: string)
    requires IsName(n) && IsName(m) && x != "" && x[0] == '/' && y != "" && y[0] == '/'
    ensures Slashes(k) + n + x <= Slashes(l) + m + y <==> k == l && n == m && x <= y
  {
    var s, t := Slashes(k) + n + x, Slashes(l) + m + y;
    HeadAt(k, n, x);
    HeadAt(l, m, y);
    if s <= t {
      SameHead(k, n, x, l, m, y);
      PrefixCancel(Slashes(k) + n, x, y);
    } else if k == l && n == m {
      PrefixCancel(Slashes(k) + n, x, y);
    }
  }

  lemma {:induction false} SameHead(k: nat, n: string, x: string, l: nat, m: string, y: string)
    requires IsName(n) && IsName(m) && x != "" && x[0] == '/' && y != "" && y[0] == '/'
    requires Slashes(k) + n + x <= Slashes(l) + m + y
    ensures k == l && n == m
  {
    var s, t := Slashes(k) + n + x, Slashes(l) + m + y;
    HeadAt(k, n, x);
    HeadAt(l, m, y);
    assert forall i :: 0 <= i < |s| ==> s[i] == t[i];
    var i := if l < k then l else k;
    assert s[i] == t[i];
    var j := k + if |m| < |n| then |m| else |n|;
    assert s[j] == t[j];
    assert forall i :: 0 <= i < |n| ==> n[i] == s[k + i] == t[l + i] == m[i];
  }

  predicate Rooted(s: string) {
    s == "" || s[0] == '/'
  }

  lemma {:induction false} BelowMeans(src: string, dest: string)
    requires Rooted(src) && Rooted(dest)
    ensures RStrip(src) + "/" <= RStrip(dest) + "/" <==> Segments(src) <= Segments(dest) && Runs(src) <= Runs(dest)
    decreases |src|
  {
    RStripSpec(dest);
    if Leading(src) == |src| {
      RStripUnique(src, "");
      SegmentsSkip(src);
      assert src[|src|..] == "";
    } else if Leading(dest) == |dest| {
      RStripUnique(dest, "");
      SegmentsSkip(dest);
      assert dest[|dest|..] == "";
      var k, n, rest := SplitFirst(src);
      StripFirst(src, k, n, rest);
    } else {
      BothSplit(src, dest);
    }
  }

  lemma {:induction false} StripFirst(s: string, k: nat, n: string, rest: string)
    requires IsName(n) && s == Slashes(k) + n + rest
    ensures RStrip(s) + "/" == Slashes(k) + n + (RStrip(rest) + "/")
  {
    var a := Slashes(k) + n;
    assert a[|a| - 1] == n[|n| - 1];
    StripBehind(a, rest);
  }

  lemma {:induction false} BothSplit(src: string, dest: string)
    requires Rooted(src) && Rooted(dest) && Leading(src) < |src| && Leading(dest) < |dest|
    ensures RStrip(src) + "/" <= RStrip(dest) + "/" <==> Segments(src) <= Segments(dest) && Runs(src) <= Runs(dest)
    decreases |src|, 0
  {
    var k, n, x := SplitFirst(src);
    var l, m, y := SplitFirst(dest);
    StripFirst(src, k, n, x);
    StripFirst(dest, l, m, y);
    RStripSpec(x);
    RStripSpec(y);
    HeadsCompare(k, n, RStrip(x) + "/", l, m, RStrip(y) + "/");
    BelowMeans(x, y);
    ConsPrefix(n, Segments(x), m, Segments(y));
    ConsPrefix(k, Runs(x), l, Runs(y));
  }

  lemma {:induction false} ConsPrefix<T>(a: T, x: seq<T>, b: T, y: seq<T>)
    ensures [a] + x <= [b] + y <==> a == b && x <= y
  {
    if [a] + x <= [b] + y {
      assert a == ([a] + x)[0] == ([b] + y)[0] == b;
      assert ([a] + x)[1..] == x && ([b] + y)[1..] == y;
      assert x == ([b] + y)[..|x| + 1][1..];
    }
  }

  /**
    `_copy_or_move` refuses a destination at or below the source by a string test. On paths with
    a leading slash the test is the prefix test on names and on the slashes before them.
  */
  lemma {:induction false} BelowItselfIff(src: string, dest: string)
    requires src != "" && dest != "" && Rooted(src) && Rooted(dest)
    ensures IsEqualOrChildUri(src, dest) <==> Segments(src) <= Segments(dest) && Runs(src) <= Runs(dest)
  {
    BelowMeans(src, dest);
  }

  lemma {:induction false} RunsPerName(s: string)
    ensures |Runs(s)| == |Segments(s)|
    decreases |s|
  {
    if Leading(s) == |s| {
      SegmentsSkip(s);
      assert s[|s|..] == "";
    } else {
      var k, n, rest := SplitFirst(s);
      RunsPerName(rest);
    }
  }

  /** Without doubled slashes the test is the prefix test on names. */
  lemma {:induction false} SingleSlashesCompare(src: string, dest: string)
    requires src != "" && dest != "" && Rooted(src) && Rooted(dest)
    requires (forall k :: k in Runs(src) ==> k == 1) && (forall k :: k in Runs(dest) ==> k == 1)
    ensures IsEqualOrChildUri(src, dest) <==> Segments(src) <= Segments(dest)
  {
    BelowItselfIff(src, dest);
    RunsPerName(src);
    RunsPerName(dest);
    forall i | 0 <= i < |Runs(src)| ensures Runs(src)[i] == 1 { assert Runs(src)[i] in Runs(src); }
    forall i | 0 <= i < |Runs(dest)| ensures Runs(dest)[i] == 1 { assert Runs(dest)[i] in Runs(dest); }
    if Segments(src) <= Segments(dest) { assert Runs(src) == Runs(dest)[..|Runs(src)|]; }
  }

  lemma {:induction false} JoinedRuns(p: Path)
    requires Names(p)
    ensures Runs(Joined(p)) == seq(|p|, _ => 1)
  {
    if p != [] {
      var s, rest := Joined(p), Joined(p[1..]);
      JoinedRuns(p[1..]);
      JoinedStarts(p[1..]);
      assert s == "/" + p[0] + rest;
      RunsFirst(1, p[0], rest);
      assert Slashes(1) == "/";
    }
  }

  lemma {:induction false} RunsFirst(k: nat, n: string, rest: string)
    requires IsName(n) && Rooted(rest)
    ensures Runs(Slashes(k) + n + rest) == [k] + Runs(rest)
  {
    var s := Slashes(k) + n + rest;
    assert s[k] == n[0] && Leading(s) == k;
    assert s[k..] == n + rest;
    IndexOfUnique(n + rest, '/', |n|);
    assert (n + rest)[|n|..] == rest;
  }

  /** "/a//b/c" is below "/a/b", and not refused. */
  lemma {:induction false} DoubledSlashPasses(a: string, b: string, c: string)
    requires IsName(a) && IsName(b) && IsName(c)
    ensures var src, dest := Joined([a, b]), "/" + a + ("/" + Joined([b, c]));
            !IsEqualOrChildUri(src, dest) && Segments(src) == [a, b] && Segments(dest) == [a, b, c]
  {
    var src, tail := Joined([a, b]), Joined([b, c]);
    var dest := "/" + a + ("/" + tail);
    SegmentsJoined([a, b]);
    SegmentsJoined([b, c]);
    assert ("/" + tail)[1..] == tail;
    SegmentsConcat("/" + a, "/" + tail);
    SegmentsName(a);
    assert [a] + [b, c] == [a, b, c];
    JoinedRuns([a, b]);
    assert Slashes(1) == "/";
    RunsFirst(1, a, "/" + tail);
    SecondRun(b, c);
    assert Runs(src)[1] != Runs(dest)[1];
    BelowItselfIff(src, dest);
  }

  lemma {:induction false} SecondRun(b: string, c: string)
    requires IsName(b) && IsName(c)
    ensures Runs("/" + Joined([b, c])) != [] && Runs("/" + Joined([b, c]))[0] == 2
  {
    JoinedStarts([c]);
    assert [b, c][1..] == [c];
    assert "/" + Joined([b, c]) == Slashes(2) + b + Joined([c]);
    RunsFirst(2, b, Joined([c]));
  }
}
