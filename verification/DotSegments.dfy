/** Rewriting a request path so that it has no `.` and `..` segments, except at its very end. */
module DotSegments {
  import opened Arith

  // ----- the meaning of a path -----

  /** The segments of a path, between slashes. */
  ghost function Parts(s: string): (r: seq<string>)
    ensures |r| >= 1
  {
    if s == "" then [""]
    else if s[0] == '/' then [""] + Parts(s[1..])
    else Longer(s[0], Parts(s[1..]))
  }

  /** The segments with one more character in front of the first. */
  ghost function Longer(c: char, parts: seq<string>): (r: seq<string>)
    requires |parts| >= 1
    ensures |r| == |parts|
  {
    [[c] + parts[0]] + parts[1..]
  }

  lemma LongerJoin(c: char, p: seq<string>, q: seq<string>)
    requires |p| >= 1
    ensures Longer(c, p + q) == Longer(c, p) + q
  {
    assert (p + q)[1..] == p[1..] + q;
  }

  /** One segment down, up, or staying; never above the root. */
  ghost function Enter(at: seq<string>, part: string): seq<string> {
    if part == "" || part == "." then at
    else if part != ".." then at + [part]
    else if at == [] then [] else at[..|at| - 1]
  }

  ghost function Walk(at: seq<string>, parts: seq<string>): seq<string>
    decreases |parts|
  {
    if parts == [] then at else Walk(Enter(at, parts[0]), parts[1..])
  }

  /** The location a path denotes, relative to the root. */
  ghost function Resolve(s: string): seq<string> {
    Walk([], Parts(s))
  }

  lemma {:induction false} PartsJoin(a: string, b: string)
    ensures Parts(a + "/" + b) == Parts(a) + Parts(b)
    decreases |a|
  {
    hide Longer;
    var s := a + "/" + b;
    if a == "" {
      assert s[1..] == b;
    } else {
      PartsJoin(a[1..], b);
      assert s[1..] == a[1..] + "/" + b;
      if a[0] == '/' {
        assert [""] + (Parts(a[1..]) + Parts(b)) == [""] + Parts(a[1..]) + Parts(b);
      } else {
        LongerJoin(a[0], Parts(a[1..]), Parts(b));
      }
    }
  }

  ghost predicate NoSlash(x: string) {
    forall i :: 0 <= i < |x| ==> x[i] != '/'
  }

  lemma {:induction false} OnePart(x: string)
    requires NoSlash(x)
    ensures Parts(x) == [x]
    decreases |x|
  {
    if x != "" {
      OnePart(x[1..]);
      assert x == [x[0]] + x[1..];
    }
  }

  lemma {:induction false} WalkJoin(at: seq<string>, p: seq<string>, q: seq<string>)
    ensures Walk(at, p + q) == Walk(Walk(at, p), q)
    decreases |p|
  {
    if p == [] {
      assert p + q == q;
    } else {
      WalkJoin(Enter(at, p[0]), p[1..], q);
      assert (p + q)[1..] == p[1..] + q;
    }
  }

  lemma WalkOne(at: seq<string>, x: string)
    ensures Walk(at, [x]) == Enter(at, x)
  {
    assert [x][1..] == [];
  }

  /** So can a segment down followed by one up. */
  lemma PairAtEnd(at: seq<string>, p: seq<string>, x: string)
    requires x != "" && x != "." && x != ".."
    ensures Walk(at, p + [x] + [".."]) == Walk(at, p)
  {
    hide Walk;
    var there := Walk(at, p);
    WalkJoin(at, p + [x], [".."]);
    WalkJoin(at, p, [x]);
    WalkOne(there, x);
    WalkOne(there + [x], "..");
    assert (there + [x])[..|there|] == there;
  }

  /** And one that leads nowhere from the root. */
  lemma SkipFirst(x: string, q: seq<string>)
    requires x == "" || x == "." || x == ".."
    ensures Walk([], [x] + q) == Walk([], q)
  {
    WalkJoin([], [x], q);
    WalkOne([], x);
  }

  // ----- where segments lie in the string -----

  ghost predicate At(s: string, i: int, pat: string) {
    0 <= i && i + |pat| <= |s| && s[i..i + |pat|] == pat
  }

  lemma {:induction false} SlashInside(s: string) returns (i: nat)
    requires |Parts(s)| > 1
    ensures i < |s| && s[i] == '/' && NoSlash(s[..i])
    decreases |s|
  {
    if s[0] == '/' {
      i := 0;
    } else {
      var k := SlashInside(s[1..]);
      i := k + 1;
      forall j | 0 <= j < i
        ensures s[j] != '/'
      {
        if j > 0 { assert s[j] == s[1..][..k][j - 1]; }
      }
    }
  }

  /** The first segment and the rest of a path with more than one. */
  lemma FirstPart(s: string) returns (i: nat)
    requires |Parts(s)| > 1
    ensures i < |s| && s[i] == '/' && Parts(s)[0] == s[..i] && Parts(s[i + 1..]) == Parts(s)[1..]
  {
    i := SlashInside(s);
    assert s == s[..i] + "/" + s[i + 1..];
    OnePart(s[..i]);
    PartsJoin(s[..i], s[i + 1..]);
  }

  /** A segment that is neither first nor last lies between slashes. */
  lemma {:induction false} InnerPart(s: string, k: int) returns (i: int)
    requires 0 < k < |Parts(s)| - 1
    ensures At(s, i, "/" + Parts(s)[k] + "/")
    decreases k
  {
    hide Parts;
    var n := FirstPart(s);
    var rest := s[n + 1..];
    if k == 1 {
      var m := FirstPart(rest);
      i := n;
      assert s[i..i + m + 2] == "/" + rest[..m] + "/";
    } else {
      var j := InnerPart(rest, k - 1);
      i := n + 1 + j;
      var pat := "/" + Parts(s)[k] + "/";
      assert s[i..i + |pat|] == rest[j..j + |pat|];
    }
  }

  /** The last segment of several follows a slash. */
  lemma {:induction false} LastPart(s: string)
    requires |Parts(s)| > 1
    ensures var last := Parts(s)[|Parts(s)| - 1]; |s| > |last| && s[|s| - |last| - 1..] == "/" + last
    decreases |s|
  {
    hide Parts;
    var n := FirstPart(s);
    var rest := s[n + 1..];
    if |Parts(rest)| > 1 {
      LastPart(rest);
      var last := Parts(s)[|Parts(s)| - 1];
      assert s[|s| - |last| - 1..] == rest[|rest| - |last| - 1..];
    } else {
      SinglePart(rest);
      assert s[n..] == "/" + rest;
    }
  }

  lemma {:induction false} SinglePart(s: string)
    requires |Parts(s)| == 1
    ensures Parts(s)[0] == s && NoSlash(s)
    decreases |s|
  {
    if s != "" {
      SinglePart(s[1..]);
      assert s == [s[0]] + s[1..];
      assert s[0] != '/';
    }
  }

  // ----- the rewriting, segment by segment -----

  /** All segments but those equal to `x`. */
  ghost function Without(parts: seq<string>, x: string): (r: seq<string>)
    ensures x !in r
  {
    if parts == [] then [] else (if parts[0] == x then [] else [parts[0]]) + Without(parts[1..], x)
  }

  /** No empty segment, other than the first and the last. */
  ghost function Slashless(parts: seq<string>): (r: seq<string>)
    requires |parts| >= 1
    ensures |r| >= 1 && r[|r| - 1] == parts[|parts| - 1]
  {
    var n := |parts|;
    if n == 1 then parts else [parts[0]] + Without(parts[1..n - 1], "") + [parts[n - 1]]
  }

  /** No single dot, other than the last segment. */
  ghost function Dotless(parts: seq<string>): (r: seq<string>)
    requires |parts| >= 1
    ensures |r| >= 1 && r[|r| - 1] == parts[|parts| - 1]
  {
    Without(parts[..|parts| - 1], ".") + [parts[|parts| - 1]]
  }

  /** Each `..` takes away the segment before it, if there is one, even the empty one of a leading slash. */
  ghost function Climb(at: seq<string>, parts: seq<string>): seq<string>
    decreases |parts|
  {
    if parts == [] then at
    else if parts[0] != ".." then Climb(at + [parts[0]], parts[1..])
    else Climb(if at == [] then [] else at[..|at| - 1], parts[1..])
  }

  ghost function Upless(parts: seq<string>): (r: seq<string>)
    requires |parts| >= 1
    ensures |r| >= 1 && r[|r| - 1] == parts[|parts| - 1]
  {
    Climb([], parts[..|parts| - 1]) + [parts[|parts| - 1]]
  }

  /** Pairs `xxx/..` are taken off the end while there is something before them. */
  ghost function Trimmed(parts: seq<string>): (r: seq<string>)
    requires |parts| >= 1
    ensures |r| >= 1
    decreases |parts|
  {
    var n := |parts|;
    if n >= 3 && parts[n - 1] == ".." then Trimmed(parts[..n - 2]) else parts
  }

  /** What is left before the last phase. */
  ghost function Unclimbed(parts: seq<string>): (r: seq<string>)
    requires |parts| >= 1
    ensures |r| >= 1
  {
    Upless(Dotless(Slashless(parts)))
  }

  ghost function Rewritten(parts: seq<string>): (r: seq<string>)
    requires |parts| >= 1
    ensures |r| >= 1
  {
    Trimmed(Unclimbed(parts))
  }

  lemma {:induction false} WithoutJoin(p: seq<string>, q: seq<string>, x: string)
    ensures Without(p + q, x) == Without(p, x) + Without(q, x)
    decreases |p|
  {
    if p == [] {
      assert p + q == q;
    } else {
      WithoutJoin(p[1..], q, x);
      assert (p + q)[1..] == p[1..] + q && (p + q)[0] == p[0];
      var first := if p[0] == x then [] else [p[0]];
      assert first + (Without(p[1..], x) + Without(q, x)) == first + Without(p[1..], x) + Without(q, x);
    }
  }

  lemma WithoutOne(x: string)
    ensures Without([x], x) == []
  {
  }

  lemma {:induction false} NoneWithout(p: seq<string>, x: string)
    requires x !in p
    ensures Without(p, x) == p
  {
    if p != [] { NoneWithout(p[1..], x); }
  }

  lemma {:induction false} ClimbJoin(at: seq<string>, p: seq<string>, q: seq<string>)
    ensures Climb(at, p + q) == Climb(Climb(at, p), q)
    decreases |p|
  {
    if p == [] {
      assert p + q == q;
    } else {
      assert (p + q)[1..] == p[1..] + q && (p + q)[0] == p[0];
      ClimbJoin(if p[0] != ".." then at + [p[0]] else if at == [] then [] else at[..|at| - 1], p[1..], q);
    }
  }

  lemma {:induction false} NoneToClimb(at: seq<string>, p: seq<string>)
    requires ".." !in p
    ensures Climb(at, p) == at + p
    decreases |p|
  {
    if p != [] {
      NoneToClimb(at + [p[0]], p[1..]);
      assert at + [p[0]] + p[1..] == at + p;
    }
  }

  lemma ClimbPair(at: seq<string>, x: string)
    requires x != ".."
    ensures Climb(at, [x] + [".."]) == at
  {
    var pair := [x] + [".."];
    assert pair[1..] == [".."] && [".."][1..] == [];
    assert (at + [x])[..|at|] == at;
    assert Climb(at, pair) == Climb(at + [x], [".."]);
    assert Climb(at + [x], [".."]) == Climb(at, []);
  }

  // One step of each phase, on segments.

  lemma SlashStep(p: seq<string>, q: seq<string>)
    requires |p| >= 1 && |q| >= 1
    ensures Slashless(p + [""] + q) == Slashless(p + q)
  {
    hide Without;
    Inner(p + [""], q);
    Inner(p, q);
    assert (p + [""])[1..] == p[1..] + [""];
    WithoutHole(p[1..], q[..|q| - 1]);
  }

  lemma WithoutHole(front: seq<string>, mid: seq<string>)
    ensures Without(front + [""] + mid, "") == Without(front + mid, "")
  {
    hide Without;
    WithoutJoin(front + [""], mid, "");
    WithoutJoin(front, [""], "");
    WithoutJoin(front, mid, "");
    WithoutOne("");
  }

  lemma Inner(p: seq<string>, q: seq<string>)
    requires |p| >= 1 && |q| >= 1
    ensures var all := p + q;
              all[1..|all| - 1] == p[1..] + q[..|q| - 1] && all[0] == p[0] && all[|all| - 1] == q[|q| - 1]
  {
  }

  lemma DotStep(p: seq<string>, q: seq<string>)
    requires |q| >= 1
    ensures Dotless(p + ["."] + q) == Dotless(p + q)
  {
    hide Without;
    var mid := q[..|q| - 1];
    var all, less := p + ["."] + q, p + q;
    assert all[..|all| - 1] == p + ["."] + mid && less[..|less| - 1] == p + mid;
    WithoutJoin(p + ["."], mid, ".");
    WithoutJoin(p, ["."], ".");
    WithoutJoin(p, mid, ".");
    WithoutOne(".");
  }

  lemma UpStep(p: seq<string>, x: string, q: seq<string>)
    requires |q| >= 1 && x != ".."
    ensures Upless(p + [x] + [".."] + q) == Upless(p + q)
  {
    hide Climb;
    var mid, pair := q[..|q| - 1], [x] + [".."];
    var all, less := p + [x] + [".."] + q, p + q;
    assert all[..|all| - 1] == p + (pair + mid) && less[..|less| - 1] == p + mid;
    ClimbJoin([], p, pair + mid);
    ClimbJoin(Climb([], p), pair, mid);
    ClimbPair(Climb([], p), x);
    ClimbJoin([], p, mid);
  }

  lemma LeadingUpStep(q: seq<string>)
    requires |q| >= 1
    ensures Upless([".."] + q) == Upless(q)
  {
    var all, mid := [".."] + q, q[..|q| - 1];
    assert all[..|all| - 1] == [".."] + mid;
    assert ([".."] + mid)[1..] == mid;
  }

  // The end of each phase.

  lemma SlashlessAlready(parts: seq<string>)
    requires |parts| >= 1 && forall i :: 0 < i < |parts| - 1 ==> parts[i] != ""
    ensures Slashless(parts) == parts
  {
    hide Without;
    var n := |parts|;
    if n > 1 {
      var mid := parts[1..n - 1];
      assert forall i :: 0 <= i < |mid| ==> mid[i] == parts[i + 1];
      NoneWithout(mid, "");
      assert [parts[0]] + mid + [parts[n - 1]] == parts;
    }
  }

  lemma DotlessAlready(parts: seq<string>)
    requires |parts| >= 1 && forall i :: 0 <= i < |parts| - 1 ==> parts[i] != "."
    ensures Dotless(parts) == parts
  {
    NoneWithout(parts[..|parts| - 1], ".");
  }

  lemma UplessAlready(parts: seq<string>)
    requires |parts| >= 1 && forall i :: 0 <= i < |parts| - 1 ==> parts[i] != ".."
    ensures Upless(parts) == parts
  {
    NoneToClimb([], parts[..|parts| - 1]);
  }

  // ----- where segments are missing -----

  lemma NoPatternMeansNoPart(s: string, part: string)
    requires forall i :: !At(s, i, "/" + part + "/")
    ensures forall k :: 0 < k < |Parts(s)| - 1 ==> Parts(s)[k] != part
  {
    forall k | 0 < k < |Parts(s)| - 1
      ensures Parts(s)[k] != part
    {
      var i := InnerPart(s, k);
      assert At(s, i, "/" + Parts(s)[k] + "/");
    }
  }

  lemma FirstIsPrefix(s: string, part: string)
    requires |Parts(s)| > 1 && Parts(s)[0] == part
    ensures At(s, 0, part + "/")
  {
    var n := FirstPart(s);
    assert s[0..n + 1] == s[..n] + "/";
  }

  // ----- the steps -----

  /** `strstr`: the first place of `pat`, or -1. */
  method Find(s: string, pat: string) returns (i: int)
    ensures -1 <= i <= |s| && (i >= 0 ==> At(s, i, pat))
    ensures forall j :: (i < 0 || j < i) ==> !At(s, j, pat)
  {
    i := 0;
    while i + |pat| <= |s|
      invariant 0 <= i <= |s| + 1 && forall j :: j < i ==> !At(s, j, pat)
    {
      if s[i..i + |pat|] == pat { return; }
      i := i + 1;
    }
    i := -1;
  }

  /** The place of the last slash before `cp`, or -1. */
  method SlashBefore(s: string, cp: int) returns (cp2: int)
    requires 0 <= cp <= |s|
    ensures -1 <= cp2 < cp && NoSlash(s[cp2 + 1..cp]) && (cp2 >= 0 ==> s[cp2] == '/')
  {
    cp2 := cp - 1;
    while cp2 >= 0 && s[cp2] != '/'
      invariant -1 <= cp2 < cp && forall k :: cp2 < k < cp ==> s[k] != '/'
    {
      cp2 := cp2 - 1;
    }
  }

  lemma DropSlash(s: string, i: int, j: int)
    requires 0 <= i < j < |s| && s[i] == '/' && s[j] == '/'
    ensures Slashless(Parts(s[..i + 1] + s[j + 1..])) == Slashless(Parts(s[..i + 1] + s[j..]))
  {
    hide Parts, Slashless;
    var a, b := s[..i], s[j + 1..];
    assert s[..i + 1] + s[j + 1..] == a + "/" + b;
    assert s[..i + 1] + s[j..] == a + "/" + ("" + "/" + b);
    PartsJoin(a, b);
    PartsJoin(a, "" + "/" + b);
    PartsJoin("", b);
    OnePart("");
    SlashStep(Parts(a), Parts(b));
    assert Parts(a) + ([""] + Parts(b)) == Parts(a) + [""] + Parts(b);
  }

  /** Collapses runs of slashes. */
  method CollapseSlashes(file0: string) returns (file: string)
    ensures Parts(file) == Slashless(Parts(file0))
  {
    hide Parts, Slashless;
    file := file0;
    ghost var goal := Slashless(Parts(file0));
    var cp := Find(file, "//");
    while cp >= 0
      invariant -1 <= cp <= |file| && Slashless(Parts(file)) == goal
      invariant if cp >= 0 then At(file, cp, "//") else forall j :: !At(file, j, "//")
      decreases |file|, cp
    {
      SlashPair(file, cp);
      var cp2 := cp + 2;
      while cp2 < |file| && file[cp2] == '/'
        invariant cp + 2 <= cp2 <= |file| && Slashless(Parts(file[..cp + 1] + file[cp2..])) == goal
      {
        DropSlash(file, cp, cp2);
        cp2 := cp2 + 1;
      }
      file := file[..cp + 1] + file[cp2..];
      cp := Find(file, "//");
    }
    assert "/" + "" + "/" == "//";
    NoPatternMeansNoPart(file, "");
    SlashlessAlready(Parts(file));
  }

  lemma SlashPair(s: string, i: int)
    requires At(s, i, "//")
    ensures s[i] == '/' && s[i + 1] == '/' && Slashless(Parts(s[..i + 1] + s[i + 2..])) == Slashless(Parts(s))
  {
    hide Parts, Slashless;
    assert s[i..i + 2][0] == s[i] && s[i..i + 2][1] == s[i + 1];
    DropSlash(s, i, i + 1);
    assert s[..i + 1] + s[i + 1..] == s;
  }

  /** `s` starts with segment `x`. */
  lemma LeadingPart(s: string, x: string)
    requires At(s, 0, x + "/") && NoSlash(x)
    ensures Parts(s) == [x] + Parts(s[|x| + 1..])
  {
    assert s == s[0..|x| + 1] + s[|x| + 1..];
    OnePart(x);
    PartsJoin(x, s[|x| + 1..]);
  }

  /** `s` has segment `x` between two slashes. */
  lemma MiddlePart(s: string, i: int, x: string)
    requires At(s, i, "/" + x + "/") && NoSlash(x)
    ensures 0 <= i && i + |x| + 2 <= |s| && Parts(s) == Parts(s[..i]) + [x] + Parts(s[i + |x| + 2..])
  {
    hide Parts, NoSlash, At;
    CutAround(s, i, x);
    var a, b := s[..i], s[i + |x| + 2..];
    OnePart(x);
    PartsJoin(x, b);
    PartsJoin(a, x + "/" + b);
    assert Parts(a) + ([x] + Parts(b)) == Parts(a) + [x] + Parts(b);
  }

  lemma CutAround(s: string, i: int, x: string)
    requires At(s, i, "/" + x + "/")
    ensures 0 <= i && i + |x| + 2 <= |s| && s == s[..i] + "/" + (x + "/" + s[i + |x| + 2..])
  {
    var pat := "/" + x + "/";
    assert |pat| == |x| + 2;
    assert s == s[..i] + s[i..i + |pat|] + s[i + |pat|..];
  }

  /** Removes leading `./` and inner `/./`. */
  method RemoveDots(file0: string) returns (file: string)
    ensures Parts(file) == Dotless(Parts(file0))
  {
    hide Parts, Dotless;
    file := file0;
    ghost var goal := Dotless(Parts(file0));
    while |file| >= 2 && file[..2] == "./"
      invariant Dotless(Parts(file)) == goal
      decreases |file|
    {
      DropLeadingDot(file);
      file := file[2..];
    }
    assert !At(file, 0, "./");
    var cp := Find(file, "/./");
    while cp >= 0
      invariant -1 <= cp <= |file| && Dotless(Parts(file)) == goal && !At(file, 0, "./")
      invariant if cp >= 0 then At(file, cp, "/./") else forall j :: !At(file, j, "/./")
      decreases |file|, cp
    {
      DropDot(file, cp);
      file := file[..cp] + file[cp + 2..];
      cp := Find(file, "/./");
    }
    NoDotLeft(file);
  }

  lemma DropLeadingDot(s: string)
    requires |s| >= 2 && s[..2] == "./"
    ensures Dotless(Parts(s[2..])) == Dotless(Parts(s))
  {
    hide Parts, Dotless;
    assert s[0..2] == "." + "/";
    LeadingPart(s, ".");
    var q := Parts(s[2..]);
    DotStep([], q);
    assert [] + ["."] + q == ["."] + q && [] + q == q;
  }

  lemma DropDot(s: string, cp: int)
    requires At(s, cp, "/./") && !At(s, 0, "./")
    ensures var t := s[..cp] + s[cp + 2..]; Dotless(Parts(t)) == Dotless(Parts(s)) && !At(t, 0, "./") && |t| < |s|
  {
    hide Parts, Dotless;
    var a, b := s[..cp], s[cp + 3..];
    var t := s[..cp] + s[cp + 2..];
    assert "/" + "." + "/" == "/./";
    MiddlePart(s, cp, ".");
    assert s[cp..cp + 3][2] == s[cp + 2] && s[cp..cp + 3][0] == s[cp];
    assert t == a + "/" + b;
    PartsJoin(a, b);
    DotStep(Parts(a), Parts(b));
    if At(t, 0, "./") {
      LeadingDotStays(s, t, cp);
      assert false;
    }
  }

  lemma LeadingDotStays(s: string, t: string, cp: int)
    requires 0 <= cp < |s| && cp < |t| && s[..cp + 1] == t[..cp + 1] && t[cp] == '/' && At(t, 0, "./")
    ensures At(s, 0, "./")
  {
    assert t[0..2][0] == t[0];
    assert s[0..2] == s[..cp + 1][0..2] && t[0..2] == t[..cp + 1][0..2];
  }

  lemma NoDotLeft(s: string)
    requires !At(s, 0, "./") && forall j :: !At(s, j, "/./")
    ensures Dotless(Parts(s)) == Parts(s)
  {
    hide Parts, Dotless;
    assert "/" + "." + "/" == "/./" && "." + "/" == "./";
    NoPatternMeansNoPart(s, ".");
    if |Parts(s)| > 1 && Parts(s)[0] == "." { FirstIsPrefix(s, "."); }
    DotlessAlready(Parts(s));
  }

  /** Removes leading `../` and inner `xxx/../`, alternating. */
  method RemoveUps(file0: string) returns (file: string)
    ensures Parts(file) == Upless(Parts(file0))
  {
    hide Parts, Upless;
    file := file0;
    ghost var goal := Upless(Parts(file0));
    while true
      invariant Upless(Parts(file)) == goal
      decreases |file|
    {
      while |file| >= 3 && file[..3] == "../"
        invariant Upless(Parts(file)) == goal
        decreases |file|
      {
        DropLeadingUp(file);
        file := file[3..];
      }
      assert !At(file, 0, "../");
      var cp := Find(file, "/../");
      if cp < 0 { break; }
      var cp2 := SlashBefore(file, cp);
      DropPair(file, cp, cp2);
      file := file[..cp2 + 1] + file[cp + 4..];
    }
    NoUpLeft(file);
  }

  lemma DropLeadingUp(s: string)
    requires |s| >= 3 && s[..3] == "../"
    ensures Upless(Parts(s[3..])) == Upless(Parts(s))
  {
    hide Parts, Upless;
    assert s[0..3] == ".." + "/";
    LeadingPart(s, "..");
    LeadingUpStep(Parts(s[3..]));
  }

  lemma DropPair(s: string, cp: int, cp2: int)
    requires At(s, cp, "/../") && (forall j :: j < cp ==> !At(s, j, "/../")) && !At(s, 0, "../")
    requires -1 <= cp2 < cp && NoSlash(s[cp2 + 1..cp]) && (cp2 >= 0 ==> s[cp2] == '/')
    ensures cp + 4 <= |s| && Upless(Parts(s[..cp2 + 1] + s[cp + 4..])) == Upless(Parts(s))
  {
    hide Parts, Upless, NoSlash, At;
    BehindUp(s, cp);
    var x := s[cp2 + 1..cp];
    NotUp(s, cp, cp2, x);
    OnePart(x);
    if cp2 == -1 {
      DropFirstPair(s, x, cp);
    } else {
      DropInnerPair(s, x, cp, cp2);
    }
  }

  lemma BehindUp(s: string, cp: int)
    requires At(s, cp, "/../")
    ensures 0 <= cp && cp + 4 <= |s| && Parts(s) == Parts(s[..cp]) + [".."] + Parts(s[cp + 4..])
  {
    hide Parts, At;
    assert "/" + ".." + "/" == "/../";
    MiddlePart(s, cp, "..");
  }

  lemma NotUp(s: string, cp: int, cp2: int, x: string)
    requires At(s, cp, "/../") && (forall j :: j < cp ==> !At(s, j, "/../")) && !At(s, 0, "../")
    requires -1 <= cp2 < cp && (cp2 >= 0 ==> s[cp2] == '/') && x == s[cp2 + 1..cp]
    ensures x != ".."
  {
    hide At;
    if x == ".." {
      UpBeforeUp(s, cp, cp2);
      assert false;
    }
  }

  lemma DropFirstPair(s: string, x: string, cp: int)
    requires 0 <= cp && cp + 4 <= |s| && x == s[0..cp] && x != ".." && Parts(x) == [x]
    requires Parts(s) == Parts(s[..cp]) + [".."] + Parts(s[cp + 4..])
    ensures Upless(Parts(s[..0] + s[cp + 4..])) == Upless(Parts(s))
  {
    hide Parts, Upless;
    var q := Parts(s[cp + 4..]);
    assert s[..cp] == x;
    assert s[..0] + s[cp + 4..] == s[cp + 4..];
    UpStep([], x, q);
    assert [] + [x] + [".."] + q == [x] + [".."] + q;
    assert [] + q == q;
  }

  lemma DropInnerPair(s: string, x: string, cp: int, cp2: int)
    requires 0 <= cp2 < cp && cp + 4 <= |s| && s[cp2] == '/' && x == s[cp2 + 1..cp] && x != ".." && Parts(x) == [x]
    requires Parts(s) == Parts(s[..cp]) + [".."] + Parts(s[cp + 4..])
    ensures Upless(Parts(s[..cp2 + 1] + s[cp + 4..])) == Upless(Parts(s))
  {
    hide Parts, Upless;
    var a, b := s[..cp2], s[cp + 4..];
    SplitAtSlash(s, cp, cp2);
    PartsJoin(a, x);
    assert s[..cp2 + 1] + b == a + "/" + b;
    PartsJoin(a, b);
    UpStep(Parts(a), x, Parts(b));
  }

  lemma SplitAtSlash(s: string, cp: int, cp2: int)
    requires 0 <= cp2 < cp <= |s| && s[cp2] == '/'
    ensures s[..cp] == s[..cp2] + "/" + s[cp2 + 1..cp]
  {
  }

  /** If the segment before an inner `..` is a `..` itself, the search would have stopped there. */
  lemma UpBeforeUp(s: string, cp: int, cp2: int)
    requires At(s, cp, "/../") && -1 <= cp2 < cp && (cp2 >= 0 ==> s[cp2] == '/') && s[cp2 + 1..cp] == ".."
    ensures if cp2 == -1 then At(s, 0, "../") else At(s, cp2, "/../")
  {
    assert s[cp..cp + 4][0] == s[cp];
    if cp2 == -1 {
      assert s[0..3] == s[0..2] + [s[2]];
    } else {
      assert s[cp2..cp2 + 4] == "/" + s[cp2 + 1..cp] + "/";
    }
  }

  lemma NoUpLeft(s: string)
    requires !At(s, 0, "../") && forall j :: !At(s, j, "/../")
    ensures Upless(Parts(s)) == Parts(s)
  {
    hide Parts, Upless;
    assert "/" + ".." + "/" == "/../" && ".." + "/" == "../";
    NoPatternMeansNoPart(s, "..");
    if |Parts(s)| > 1 && Parts(s)[0] == ".." { FirstIsPrefix(s, ".."); }
    UplessAlready(Parts(s));
  }

  /** Removes `xxx/..` at the end, unless it is all there is. */
  method RemoveTrailingUp(file0: string) returns (file: string)
    ensures Parts(file) == Trimmed(Parts(file0))
  {
    hide Parts, Trimmed, NoSlash;
    file := file0;
    ghost var goal := Trimmed(Parts(file0));
    while |file| > 3 && file[|file| - 3..] == "/.."
      invariant Trimmed(Parts(file)) == goal
      decreases |file|
    {
      var cp := |file| - 3;
      var cp2 := SlashBefore(file, cp);
      if cp2 < 0 {
        PairAlone(file);
        return;
      }
      DropTrailingPair(file, cp2);
      file := file[..cp2];
    }
    NoTrailingUp(file);
  }

  lemma PairAlone(s: string)
    requires |s| > 3 && s[|s| - 3..] == "/.." && NoSlash(s[0..|s| - 3])
    ensures Trimmed(Parts(s)) == Parts(s)
  {
    hide Parts, Trimmed, NoSlash;
    assert s[0..|s| - 3] == s[..|s| - 3];
    TwoParts(s);
    TrimmedAlready(Parts(s));
  }

  lemma TrimmedAlready(parts: seq<string>)
    requires |parts| >= 1 && (|parts| <= 2 || parts[|parts| - 1] != "..")
    ensures Trimmed(parts) == parts
  {
  }

  lemma TwoParts(s: string)
    requires |s| >= 3 && s[|s| - 3..] == "/.." && NoSlash(s[..|s| - 3])
    ensures Parts(s) == [s[..|s| - 3], ".."]
  {
    hide Parts;
    var x := s[..|s| - 3];
    assert s == x + "/" + "..";
    OnePart(x);
    OnePart("..");
    PartsJoin(x, "..");
  }

  lemma DropTrailingPair(s: string, cp2: int)
    requires |s| > 3 && s[|s| - 3..] == "/.." && 0 <= cp2 < |s| - 3 && s[cp2] == '/' && NoSlash(s[cp2 + 1..|s| - 3])
    ensures Trimmed(Parts(s[..cp2])) == Trimmed(Parts(s))
  {
    hide Parts, Trimmed;
    var p, x := Parts(s[..cp2]), s[cp2 + 1..|s| - 3];
    SplitAtSlash(s, |s| - 3, cp2);
    OnePart(x);
    PartsJoin(s[..cp2], x);
    UpBehind(s);
    TrimStep(p, x);
  }

  lemma UpBehind(s: string)
    requires |s| > 3 && s[|s| - 3..] == "/.."
    ensures Parts(s) == Parts(s[..|s| - 3]) + [".."]
  {
    hide Parts;
    var a := s[..|s| - 3];
    assert s == a + "/" + "..";
    OnePart("..");
    PartsJoin(a, "..");
  }

  lemma TrimStep(p: seq<string>, x: string)
    requires |p| >= 1
    ensures Trimmed(p + [x] + [".."]) == Trimmed(p)
  {
    hide Trimmed;
    var all := p + [x] + [".."];
    TakeOff(all);
    assert all[..|all| - 2] == p;
  }

  lemma TakeOff(parts: seq<string>)
    requires |parts| >= 3 && parts[|parts| - 1] == ".."
    ensures Trimmed(parts) == Trimmed(parts[..|parts| - 2])
  {
  }

  lemma NoTrailingUp(s: string)
    requires !(|s| > 3 && s[|s| - 3..] == "/..")
    ensures Trimmed(Parts(s)) == Parts(s)
  {
    hide Parts;
    var parts := Parts(s);
    if |parts| > 1 && parts[|parts| - 1] == ".." {
      LastPart(s);
      TwoParts(s);
    }
  }

  // ----- what the rewriting means -----

  lemma {:induction false} WithoutKeepsWalk(at: seq<string>, parts: seq<string>, x: string)
    requires x == "" || x == "."
    ensures Walk(at, Without(parts, x)) == Walk(at, parts)
    decreases |parts|
  {
    if parts != [] {
      var rest := Without(parts[1..], x);
      if parts[0] == x {
        assert Without(parts, x) == rest;
        WithoutKeepsWalk(at, parts[1..], x);
      } else {
        assert Without(parts, x) == [parts[0]] + rest;
        assert ([parts[0]] + rest)[1..] == rest;
        WithoutKeepsWalk(Enter(at, parts[0]), parts[1..], x);
      }
    }
  }

  /** Proper names, but for the empty segment of a leading slash. */
  ghost predicate Plain(parts: seq<string>) {
    forall i :: 0 <= i < |parts| ==> parts[i] != "." && parts[i] != ".." && (i > 0 ==> parts[i] != "")
  }

  lemma PlainInside(parts: seq<string>)
    requires |parts| >= 1 && Plain(parts[..|parts| - 1])
    ensures forall k :: 0 <= k < |parts| - 1 ==> parts[k] != "." && parts[k] != ".." && (k > 0 ==> parts[k] != "")
  {
    var front := parts[..|parts| - 1];
    forall k | 0 <= k < |parts| - 1
      ensures parts[k] != "." && parts[k] != ".." && (k > 0 ==> parts[k] != "")
    {
      assert front[k] == parts[k];
    }
  }

  lemma PopIsUp(at: seq<string>)
    requires Plain(at) && at != []
    ensures Walk([], at[..|at| - 1]) == Enter(Walk([], at), "..")
  {
    hide Walk;
    var rest, x := at[..|at| - 1], at[|at| - 1];
    assert at == rest + [x];
    WalkJoin([], rest, [x]);
    WalkOne(Walk([], rest), x);
    if x == "" {
      assert rest == [];
      assert Walk([], rest) == [] by { WalkNone(); }
    }
  }

  lemma WalkNone()
    ensures Walk([], []) == []
  {
  }

  lemma PushIsDown(at: seq<string>, x: string)
    requires Plain(at) && x != "" && x != "." && x != ".."
    ensures Plain(at + [x]) && Walk([], at + [x]) == Enter(Walk([], at), x)
  {
    hide Walk;
    WalkJoin([], at, [x]);
    WalkOne(Walk([], at), x);
  }

  /** Climbing is walking. */
  lemma {:induction false} ClimbIsWalk(at: seq<string>, parts: seq<string>)
    requires Plain(at) && forall i :: 0 <= i < |parts| ==> parts[i] != "" && parts[i] != "."
    ensures Plain(Climb(at, parts)) && Walk([], Climb(at, parts)) == Walk(Walk([], at), parts)
    decreases |parts|
  {
    hide Enter;
    if parts != [] {
      if parts[0] != ".." {
        PushIsDown(at, parts[0]);
        ClimbIsWalk(at + [parts[0]], parts[1..]);
      } else if at == [] {
        assert Enter([], "..") == [] by { NothingAbove(); }
        ClimbIsWalk([], parts[1..]);
      } else {
        PopIsUp(at);
        ClimbIsWalk(at[..|at| - 1], parts[1..]);
      }
    }
  }

  lemma NothingAbove()
    ensures Enter([], "..") == []
  {
  }

  /** The same, if the first segment may be that of a leading slash. */
  lemma ClimbFromRoot(parts: seq<string>)
    requires forall i :: 0 <= i < |parts| ==> parts[i] != "." && (i > 0 ==> parts[i] != "")
    ensures Plain(Climb([], parts)) && Walk([], Climb([], parts)) == Walk([], parts)
  {
    hide Walk, Climb;
    WalkNone();
    if parts != [] && parts[0] == "" {
      var rest := parts[1..];
      assert parts == [""] + rest;
      ClimbJoin([], [""], rest);
      assert Climb([], [""]) == [""] by { PushRoot(); }
      ClimbIsWalk([""], rest);
      SkipFirst("", []);
      SkipFirst("", rest);
      assert [""] + [] == [""];
    } else {
      ClimbIsWalk([], parts);
    }
  }

  lemma PushRoot()
    ensures Climb([], [""]) == [""]
  {
    assert [] + [""] == [""];
  }

  lemma LastStep(p: seq<string>, q: seq<string>, x: string)
    requires Walk([], p) == Walk([], q)
    ensures Walk([], p + [x]) == Walk([], q + [x])
  {
    WalkJoin([], p, [x]);
    WalkJoin([], q, [x]);
  }

  lemma SlashlessKeeps(parts: seq<string>)
    requires |parts| >= 1
    ensures Walk([], Slashless(parts)) == Walk([], parts)
    ensures forall i :: 0 < i < |Slashless(parts)| - 1 ==> Slashless(parts)[i] != ""
  {
    hide Walk, Without;
    var n := |parts|;
    if n > 1 {
      var first, mid, last := [parts[0]], parts[1..n - 1], parts[n - 1];
      WithoutKeepsWalk(Walk([], first), mid, "");
      WalkJoin([], first, Without(mid, ""));
      WalkJoin([], first, mid);
      LastStep(first + Without(mid, ""), first + mid, last);
      assert first + mid + [last] == parts;
    }
  }

  lemma DotlessKeeps(parts: seq<string>)
    requires |parts| >= 1 && forall i :: 0 < i < |parts| - 1 ==> parts[i] != ""
    ensures Walk([], Dotless(parts)) == Walk([], parts)
    ensures var r := Dotless(parts); forall i :: 0 <= i < |r| - 1 ==> r[i] != "." && (i > 0 ==> r[i] != "")
  {
    hide Walk, Without;
    var front, last := parts[..|parts| - 1], parts[|parts| - 1];
    WithoutKeepsWalk([], front, ".");
    LastStep(Without(front, "."), front, last);
    assert front + [last] == parts;
    EmptyStaysFirst(front, ".");
  }

  lemma EmptyStaysFirst(parts: seq<string>, x: string)
    requires forall i :: 0 < i < |parts| ==> parts[i] != ""
    ensures var r := Without(parts, x); forall i :: 0 < i < |r| ==> r[i] != ""
  {
    if parts != [] {
      var rest, r := Without(parts[1..], x), Without(parts, x);
      OthersStayAway(parts[1..], x, "");
      assert r == (if parts[0] == x then [] else [parts[0]]) + rest;
      forall i | 0 < i < |r|
        ensures r[i] in rest
      {
        if parts[0] != x { assert r[i] == rest[i - 1]; }
      }
    }
  }

  lemma {:induction false} OthersStayAway(parts: seq<string>, x: string, y: string)
    requires y !in parts
    ensures y !in Without(parts, x)
  {
    if parts != [] { OthersStayAway(parts[1..], x, y); }
  }

  lemma UplessKeeps(parts: seq<string>)
    requires |parts| >= 1 && forall i :: 0 <= i < |parts| - 1 ==> parts[i] != "." && (i > 0 ==> parts[i] != "")
    ensures Walk([], Upless(parts)) == Walk([], parts) && Plain(Upless(parts)[..|Upless(parts)| - 1])
  {
    hide Walk, Climb, Plain;
    var front, last := parts[..|parts| - 1], parts[|parts| - 1];
    ClimbFromRoot(front);
    LastStep(Climb([], front), front, last);
    assert front + [last] == parts;
    assert (Climb([], front) + [last])[..|Climb([], front)|] == Climb([], front);
  }

  /** The last phase takes off at most one pair. */
  lemma TrimmedOnce(parts: seq<string>)
    requires |parts| >= 1 && Plain(parts[..|parts| - 1])
    ensures var n := |parts|; Trimmed(parts) == if n >= 3 && parts[n - 1] == ".." then parts[..n - 2] else parts
  {
    hide Plain;
    PlainInside(parts);
    var n := |parts|;
    if n >= 3 && parts[n - 1] == ".." {
      var rest := parts[..n - 2];
      assert rest[n - 3] == parts[n - 3];
      assert Trimmed(rest) == rest;
    }
  }

  lemma TrimmedKeeps(parts: seq<string>)
    requires |parts| >= 1 && Plain(parts[..|parts| - 1])
    ensures Walk([], Trimmed(parts)) == Walk([], parts)
  {
    hide Walk, Trimmed, Plain;
    TrimmedOnce(parts);
    PlainInside(parts);
    var n := |parts|;
    if n >= 3 && parts[n - 1] == ".." {
      assert parts == parts[..n - 2] + [parts[n - 2]] + [".."];
      PairAtEnd([], parts[..n - 2], parts[n - 2]);
    }
  }

  lemma PlainBeforeLast(parts: seq<string>)
    requires |parts| >= 1
    ensures Walk([], Unclimbed(parts)) == Walk([], parts)
    ensures var u := Unclimbed(parts); Plain(u[..|u| - 1])
  {
    hide Walk, Slashless, Dotless, Upless, Plain;
    SlashlessKeeps(parts);
    DotlessKeeps(Slashless(parts));
    UplessKeeps(Dotless(Slashless(parts)));
  }

  /** For every path: the rewritten segments denote the location the given ones denote. */
  lemma KeepsLocation(parts: seq<string>)
    requires |parts| >= 1
    ensures Walk([], Rewritten(parts)) == Walk([], parts)
  {
    hide Walk, Unclimbed, Trimmed;
    PlainBeforeLast(parts);
    TrimmedKeeps(Unclimbed(parts));
  }

  /** The shape of a rewritten path: a `..` only on its own, behind a leading slash, or behind a single segment. */
  ghost predicate Tidy(parts: seq<string>) {
    |parts| >= 1 && Plain(parts[..|parts| - 1]) && (parts[|parts| - 1] == ".." ==> |parts| <= 2)
  }

  lemma RewrittenIsTidy(parts: seq<string>)
    requires |parts| >= 1
    ensures Tidy(Rewritten(parts))
  {
    hide Unclimbed, Trimmed, Plain;
    PlainBeforeLast(parts);
    TrimmedOnce(Unclimbed(parts));
    var u := Unclimbed(parts);
    var n := |u|;
    if n >= 3 && u[n - 1] == ".." {
      PlainInside(u);
      PlainPrefix(u[..n - 1], n - 3);
      assert u[..n - 1][..n - 3] == u[..n - 2][..n - 3];
      assert u[..n - 2][n - 3] == u[n - 3];
    }
  }

  lemma PlainPrefix(parts: seq<string>, k: nat)
    requires Plain(parts) && k <= |parts|
    ensures Plain(parts[..k])
  {
  }

  /** The whole rewriting, and when its result ends in a `..` that the server lets through. */
  method DeDotDot(file0: string) returns (file: string)
    ensures Parts(file) == Rewritten(Parts(file0))
    ensures Resolve(file) == Resolve(file0) && Tidy(Parts(file))
    ensures UpAccepted(file) <==> LeavesPair(file0)
  {
    hide Parts, Slashless, Dotless, Upless, Trimmed, Walk, Tidy, UpAccepted, LeavesPair;
    file := CollapseSlashes(file0);
    file := RemoveDots(file);
    file := RemoveUps(file);
    file := RemoveTrailingUp(file);
    KeepsLocation(Parts(file0));
    RewrittenIsTidy(Parts(file0));
    AcceptedExactly(file0, file);
  }

  // ----- the test the server makes on the result -----

  /** The file name used for a rewritten path, and whether the server accepts it. */
  function Named(file: string): string {
    if file == "" then "./" else file
  }

  predicate Accepted(file: string) {
    !(file[..Min(1, |file|)] == "/" || (|file| >= 2 && file[..2] == ".." && (|file| == 2 || file[2] == '/')))
  }

  /** A name that is accepted although it contains `..`. */
  ghost predicate UpAccepted(file: string) {
    var parts := Parts(Named(file));
    Accepted(Named(file)) && exists k :: 0 <= k < |parts| && parts[k] == ".."
  }

  /** The last phase is left with exactly two segments, a name and a `..`. */
  ghost predicate LeavesPair(file0: string) {
    var u := Unclimbed(Parts(file0));
    |u| == 2 && u[0] != "" && u[1] == ".."
  }

  /** `file` is a proper name followed by `/..`. */
  ghost predicate IsPair(file: string) {
    exists x :: file == x + "/.." && NoSlash(x) && x != "" && x != "." && x != ".."
  }

  /** A rewritten path that contains `..` is accepted just if it is a proper name followed by `/..`. */
  lemma AcceptedPair(file: string)
    requires Tidy(Parts(file))
    ensures UpAccepted(file) <==> IsPair(file)
    ensures IsPair(file) <==> |Parts(file)| == 2 && Parts(file)[0] != "" && Parts(file)[1] == ".."
  {
    hide Parts;
    PairParts(file);
    if file == "" {
      RootName();
    } else if UpAccepted(file) {
      UpIsSecond(file);
    } else if IsPair(file) {
      PairIsAccepted(file);
    }
  }

  lemma RootName()
    ensures Named("") == "./" && Parts("./") == [".", ""] && Parts("") == [""]
  {
    hide Parts;
    assert "./" == "." + "/" + "";
    OnePart(".");
    OnePart("");
    PartsJoin(".", "");
  }

  lemma PairParts(file: string)
    requires Tidy(Parts(file))
    ensures IsPair(file) <==> |Parts(file)| == 2 && Parts(file)[0] != "" && Parts(file)[1] == ".."
  {
    hide Parts;
    if x :| file == x + "/.." && NoSlash(x) && x != "" && x != "." && x != ".." {
      assert file[|file| - 3..] == "/.." && file[..|file| - 3] == x;
      TwoParts(file);
    }
    if |Parts(file)| == 2 && Parts(file)[0] != "" && Parts(file)[1] == ".." {
      LastPart(file);
      var n := FirstPart(file);
      SinglePart(file[n + 1..]);
      var x := file[..n];
      assert x == Parts(file)[..1][0];
      SlashFree(file, n);
      assert file == x + "/..";
    }
  }

  lemma SlashFree(s: string, n: nat)
    requires |Parts(s)| == 2 && n < |s| && s[n] == '/' && Parts(s)[0] == s[..n]
    ensures NoSlash(s[..n])
  {
    hide Parts;
    var k := SlashInside(s);
    assert s == s[..k] + "/" + s[k + 1..];
    OnePart(s[..k]);
    PartsJoin(s[..k], s[k + 1..]);
    assert s[..k] == s[..n];
  }

  lemma UpIsSecond(file: string)
    requires Tidy(Parts(file)) && file != "" && UpAccepted(file)
    ensures |Parts(file)| == 2 && Parts(file)[0] != "" && Parts(file)[1] == ".."
  {
    hide Parts;
    var parts := Parts(file);
    PlainInside(parts);
    if |parts| == 1 { SinglePart(file); }
    FirstSegment(file);
  }

  lemma PairIsAccepted(file: string)
    requires IsPair(file) && file != ""
    ensures UpAccepted(file)
  {
    hide Parts;
    var x :| file == x + "/.." && NoSlash(x) && x != "" && x != "." && x != "..";
    assert file[..|file| - 3] == x && file[|file| - 3..] == "/..";
    TwoParts(file);
    assert [x, ".."][1] == "..";
    assert file[0] == x[0] && (|x| >= 2 ==> file[1] == x[1]);
    assert |x| >= 3 ==> file[2] == x[2];
  }

  lemma FirstSegment(file: string)
    requires |Parts(file)| > 1 && file != "" && file[0] != '/'
    ensures Parts(file)[0] != ""
  {
    var n := FirstPart(file);
  }

  /** For every path: the server lets a `..` through just if the last phase is left with a name and a `..`. */
  lemma AcceptedExactly(file0: string, file: string)
    requires Parts(file) == Rewritten(Parts(file0))
    ensures UpAccepted(file) <==> LeavesPair(file0)
    ensures UpAccepted(file) <==> IsPair(file)
  {
    hide Parts, Unclimbed, Trimmed, UpAccepted, IsPair, Tidy;
    var parts := Parts(file0);
    RewrittenIsTidy(parts);
    AcceptedPair(file);
    PlainBeforeLast(parts);
    TrimmedOnce(Unclimbed(parts));
    var u := Unclimbed(parts);
    if |u| >= 3 && u[|u| - 1] == ".." { NoNewPair(u); }
  }

  lemma NoNewPair(u: seq<string>)
    requires |u| >= 3 && Plain(u[..|u| - 1]) && u[|u| - 1] == ".."
    ensures var r := u[..|u| - 2]; !(|r| == 2 && r[1] == "..")
  {
    assert |u| == 4 ==> u[..|u| - 1][1] == u[1];
  }

  /** The path `a/..` is left alone and accepted, although it denotes the root. */
  lemma PairLetThrough()
    ensures Parts("a/..") == ["a", ".."] && Rewritten(["a", ".."]) == ["a", ".."]
    ensures UpAccepted("a/..") && LeavesPair("a/..") && Resolve("a/..") == []
  {
    hide Parts, Walk, Slashless, Dotless, Upless, UpAccepted, NoSlash, IsPair;
    PartsOfPair();
    SlashlessAlready(["a", ".."]);
    DotlessAlready(["a", ".."]);
    UplessAlready(["a", ".."]);
    PairIsAccepted("a/..");
    PairAtEnd([], [], "a");
    WalkNone();
    assert [] + ["a"] + [".."] == ["a", ".."];
  }

  lemma PartsOfPair()
    ensures IsPair("a/..") && Parts("a/..") == ["a", ".."]
  {
    hide Parts;
    var s := "a/..";
    assert s[..|s| - 3] == "a" && s[|s| - 3..] == "/..";
    TwoParts(s);
    assert s == "a" + "/..";
  }
}
