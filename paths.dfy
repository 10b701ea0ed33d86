/**
 * POSIX path strings as the standard `posixpath` module treats them: `os.path.join`,
 * `os.path.dirname`, `os.path.normpath`, `os.path.abspath` (the working directory is a
 * parameter) and `os.path.relpath`. A path string is read as a `Path`: its non-empty
 * components and whether it starts at the root.
 */
module Paths {

  datatype Path = Path(absolute: bool, segs: seq<string>)

  predicate IsAbs(s: string)
  {
    |s| > 0 && s[0] == '/'
  }

  predicate StartsWith(s: string, prefix: string)
  {
    |prefix| <= |s| && s[..|prefix|] == prefix
  }

  /** A component as splitting yields it: non-empty and free of separators. */
  predicate Segment(c: string)
  {
    c != [] && '/' !in c
  }

  /** A component that normalisation keeps unchanged: neither `.` nor `..`. */
  predicate Plain(c: string)
  {
    Segment(c) && c != "." && c != ".."
  }

  predicate AllSegments(ss: seq<string>)
  {
    forall i :: 0 <= i < |ss| ==> Segment(ss[i])
  }

  predicate AllPlain(ss: seq<string>)
  {
    forall i :: 0 <= i < |ss| ==> Plain(ss[i])
  }

  lemma AllPlainAppend(a: seq<string>, b: seq<string>)
    requires AllPlain(a) && AllPlain(b)
    ensures AllPlain(a + b)
  {
    assert forall i :: 0 <= i < |a + b| ==> (a + b)[i] == if i < |a| then a[i] else b[i - |a|];
  }

  /** The non-empty components of `s`: `[x for x in s.split('/') if x]`. */
  function Segs(s: string): (r: seq<string>)
    ensures AllSegments(r)
  {
    SegsFrom(s, [])
  }

  /** Splitting `s` when the component read so far is `cur`. */
  function SegsFrom(s: string, cur: string): (r: seq<string>)
    requires '/' !in cur
    ensures AllSegments(r)
    decreases |s|
  {
    if s == [] then (if cur == [] then [] else [cur])
    else if s[0] == '/' then (if cur == [] then [] else [cur]) + SegsFrom(s[1..], [])
    else SegsFrom(s[1..], cur + [s[0]])
  }

  function Parse(s: string): Path
  {
    Path(IsAbs(s), Segs(s))
  }

  /** Components joined by single separators: `'/'.join(ss)`. */
  function JoinSegs(ss: seq<string>): string
  {
    if ss == [] then [] else if |ss| == 1 then ss[0] else ss[0] + "/" + JoinSegs(ss[1..])
  }

  function Render(p: Path): string
  {
    (if p.absolute then "/" else "") + JoinSegs(p.segs)
  }

  /** `os.path.join(a, b)`: an absolute `b` replaces `a`; otherwise `b` follows `a` after one
      separator. */
  function Join(a: string, b: string): (r: string)
    ensures IsAbs(b) ==> r == b
    ensures !IsAbs(b) ==> Parse(r) == Path(IsAbs(a), Segs(a) + Segs(b))
  {
    if IsAbs(b) then b
    else if a == [] then
      b
    else if a[|a| - 1] == '/' then
      assert a == a[..|a| - 1] + "/" + [];
      SegsConcat(a[..|a| - 1], [], []);
      assert a + b == a[..|a| - 1] + "/" + b;
      SegsConcat(a[..|a| - 1], b, []);
      a + b
    else
      SegsConcat(a, b, []);
      a + "/" + b
  }

  /** One step of `normpath`'s component loop. */
  function NormStep(absolute: bool, acc: seq<string>, c: string): seq<string>
  {
    if c == "" || c == "." then acc
    else if c != ".." || (!absolute && acc == []) || (acc != [] && acc[|acc| - 1] == "..") then acc + [c]
    else if acc != [] then acc[..|acc| - 1]
    else acc
  }

  function NormFold(absolute: bool, acc: seq<string>, comps: seq<string>): seq<string>
    decreases |comps|
  {
    if comps == [] then acc else NormFold(absolute, NormStep(absolute, acc, comps[0]), comps[1..])
  }

  function Normalize(p: Path): Path
  {
    Path(p.absolute, NormFold(p.absolute, [], p.segs))
  }

  /** `os.path.normpath(s)` (an empty result reads `.`). */
  function NormPath(s: string): string
  {
    var r := Render(Normalize(Parse(s)));
    if r == [] then "." else r
  }

  /** `os.path.abspath(s)` with the working directory `cwd`. */
  function AbsPath(s: string, cwd: string): (r: string)
    ensures IsAbs(cwd) ==> IsAbs(r) && AllPlain(Segs(r)) && Render(Path(true, Segs(r))) == r
  {
    var r := NormPath(if IsAbs(s) then s else Join(cwd, s));
    assert IsAbs(cwd) ==> IsAbs(r) && AllPlain(Segs(r)) && Render(Path(true, Segs(r))) == r by {
      if IsAbs(cwd) {
        var x := if IsAbs(s) then s else Join(cwd, s);
        assert IsAbs(x);
        NormFoldAbsolute([], Segs(x));
        var q := Normalize(Parse(x));
        assert q.absolute && AllPlain(q.segs);
        ParseRender(q);
      }
    }
    r
  }

  /** The length of the longest common prefix of two component lists. */
  function CommonPrefixLen(a: seq<string>, b: seq<string>): (n: nat)
    ensures n <= |a| && n <= |b| && a[..n] == b[..n]
    ensures n < |a| && n < |b| ==> a[n] != b[n]
  {
    if a == [] || b == [] || a[0] != b[0] then 0
    else
      var n := 1 + CommonPrefixLen(a[1..], b[1..]);
      assert a[..n] == [a[0]] + a[1..][..n - 1];
      assert b[..n] == [b[0]] + b[1..][..n - 1];
      n
  }

  /** `os.path.relpath(path, start)` with the working directory `cwd`. */
  function RelPath(path: string, start: string, cwd: string): string
    requires path != []
  {
    var sl := Segs(AbsPath(start, cwd));
    var pl := Segs(AbsPath(path, cwd));
    var n := CommonPrefixLen(sl, pl);
    var rel := seq(|sl| - n, _ => "..") + pl[n..];
    if rel == [] then "." else JoinSegs(rel)
  }

  /** The index just after the last separator of `p`, 0 when there is none. */
  function LastSepEnd(p: string): (e: nat)
    ensures e <= |p|
  {
    if p == [] then 0 else if p[|p| - 1] == '/' then |p| else LastSepEnd(p[..|p| - 1])
  }

  /** `LastSepEnd` stops just after a separator and leaves none after it. */
  lemma {:induction false} LastSepEndSpec(p: string)
    ensures var e := LastSepEnd(p);
      (e > 0 ==> p[e - 1] == '/') && forall i :: e <= i < |p| ==> p[i] != '/'
    decreases |p|
  {
    if p != [] && p[|p| - 1] != '/' {
      var q := p[..|p| - 1];
      LastSepEndSpec(q);
      assert forall i :: 0 <= i < |q| ==> q[i] == p[i];
    }
  }

  predicate AllSeps(s: string)
  {
    forall i :: 0 <= i < |s| ==> s[i] == '/'
  }

  function StripTrailingSeps(s: string): (r: string)
    ensures |r| <= |s|
  {
    if s != [] && s[|s| - 1] == '/' then StripTrailingSeps(s[..|s| - 1]) else s
  }

  /** `os.path.dirname(p)`: what precedes the last separator, with trailing separators removed
      unless nothing but separators would be left. */
  function Dirname(p: string): (r: string)
    ensures |r| <= |p|
  {
    var head := p[..LastSepEnd(p)];
    if head != [] && !AllSeps(head) then StripTrailingSeps(head) else head
  }

  // ---------------------------------------------------------------------------------------
  // Splitting and rendering

  lemma {:induction false} SegsConcat(a: string, b: string, cur: string)
    requires '/' !in cur
    ensures SegsFrom(a + "/" + b, cur) == SegsFrom(a, cur) + Segs(b)
    decreases |a|
  {
    if a == [] {
      assert a + "/" + b == "/" + b;
      assert ("/" + b)[1..] == b;
    } else if a[0] == '/' {
      assert (a + "/" + b)[1..] == a[1..] + "/" + b;
      SegsConcat(a[1..], b, []);
    } else {
      assert (a + "/" + b)[1..] == a[1..] + "/" + b;
      SegsConcat(a[1..], b, cur + [a[0]]);
    }
  }

  lemma {:induction false} SegsOfSegment(x: string, cur: string)
    requires '/' !in cur && '/' !in x && cur + x != []
    ensures SegsFrom(x, cur) == [cur + x]
    decreases |x|
  {
    if x != [] {
      assert x[0] != '/' && '/' !in x[1..] && '/' !in cur + [x[0]];
      assert SegsFrom(x, cur) == SegsFrom(x[1..], cur + [x[0]]);
      assert cur + [x[0]] + x[1..] == cur + x;
      SegsOfSegment(x[1..], cur + [x[0]]);
    } else {
      assert cur + x == cur;
    }
  }

  lemma {:induction false} SegsJoinSegs(ss: seq<string>)
    requires AllSegments(ss)
    ensures Segs(JoinSegs(ss)) == ss
  {
    if |ss| == 1 {
      SegsOfSegment(ss[0], []);
      assert [] + ss[0] == ss[0];
    } else if |ss| > 1 {
      SegsConcat(ss[0], JoinSegs(ss[1..]), []);
      SegsOfSegment(ss[0], []);
      assert [] + ss[0] == ss[0];
      SegsJoinSegs(ss[1..]);
    }
  }

  lemma {:induction false} JoinSegsHead(ss: seq<string>)
    requires ss != [] && AllSegments(ss)
    ensures JoinSegs(ss) != [] && JoinSegs(ss)[0] == ss[0][0]
  {
    if |ss| > 1 {
      assert JoinSegs(ss) == ss[0] + ("/" + JoinSegs(ss[1..]));
    }
  }

  /** Rendering a path made of components and reading it back gives the path again. */
  lemma ParseRender(p: Path)
    requires AllSegments(p.segs)
    ensures Parse(Render(p)) == p
  {
    SegsJoinSegs(p.segs);
    if p.absolute {
      assert ("/" + JoinSegs(p.segs))[1..] == JoinSegs(p.segs);
    } else {
      assert Render(p) == JoinSegs(p.segs);
      if p.segs != [] {
        JoinSegsHead(p.segs);
      }
    }
  }

  // ---------------------------------------------------------------------------------------
  // Normalisation

  /** Components that are neither `.`, `..` nor empty pass through normalisation unchanged. */
  lemma {:induction false} NormFoldPlain(absolute: bool, acc: seq<string>, comps: seq<string>)
    requires AllPlain(comps)
    ensures NormFold(absolute, acc, comps) == acc + comps
    decreases |comps|
  {
    if comps != [] {
      NormFoldPlain(absolute, acc + [comps[0]], comps[1..]);
      assert acc + [comps[0]] + comps[1..] == acc + comps;
    }
  }

  /** Normalising an absolute path leaves no `.` and no `..`. */
  lemma {:induction false} NormFoldAbsolute(acc: seq<string>, comps: seq<string>)
    requires AllPlain(acc) && AllSegments(comps)
    ensures AllPlain(NormFold(true, acc, comps))
    decreases |comps|
  {
    if comps != [] {
      NormFoldAbsolute(NormStep(true, acc, comps[0]), comps[1..]);
    }
  }

  /** `abspath` is idempotent. */
  lemma AbsPathIdempotent(s: string, cwd: string)
    requires IsAbs(cwd)
    ensures AbsPath(AbsPath(s, cwd), cwd) == AbsPath(s, cwd)
  {
    var r := AbsPath(s, cwd);
    NormFoldPlain(true, [], Segs(r));
    assert [] + Segs(r) == Segs(r);
    assert Normalize(Parse(r)) == Path(true, Segs(r));
  }

  /** An absolute path already in normal form is its own `abspath`. */
  lemma AbsPathOfCanonical(segs: seq<string>, cwd: string)
    requires AllPlain(segs)
    ensures AbsPath(Render(Path(true, segs)), cwd) == Render(Path(true, segs))
  {
    var p := Path(true, segs);
    ParseRender(p);
    NormFoldPlain(true, [], segs);
    assert [] + segs == segs;
    assert Normalize(Parse(Render(p))) == p;
  }

  // ---------------------------------------------------------------------------------------
  // Relative paths

  lemma CommonPrefixOfExtension(a: seq<string>, b: seq<string>)
    ensures CommonPrefixLen(a, a + b) == |a|
  {
    var n := CommonPrefixLen(a, a + b);
    assert forall i :: 0 <= i < |a| ==> (a + b)[i] == a[i];
  }

  /** Joining a relative `v` in normal form to a root in normal form and taking `abspath`
      appends `v`'s components to the root's. */
  lemma AbsPathOfJoin(root: string, v: string, cwd: string)
    requires IsAbs(cwd) && AbsPath(root, cwd) == root
    requires !IsAbs(v) && AllPlain(Segs(v))
    ensures AbsPath(Join(root, v), cwd) == Render(Path(true, Segs(root) + Segs(v)))
  {
    var rs, vs := Segs(root), Segs(v);
    var j := Join(root, v);
    assert Parse(j) == Path(true, rs + vs);
    AllPlainAppend(rs, vs);
    NormFoldPlain(true, [], rs + vs);
    assert [] + (rs + vs) == rs + vs;
    assert Normalize(Parse(j)) == Path(true, rs + vs);
  }

  /** `relpath` reverses `abspath(join(root, v))` for a relative `v` in normal form below a
      root in normal form. */
  lemma {:induction false} RelPathOfJoin(root: string, v: string, cwd: string)
    requires IsAbs(cwd) && AbsPath(root, cwd) == root
    requires !IsAbs(v) && v != [] && AllPlain(Segs(v)) && Render(Parse(v)) == v
    ensures RelPath(AbsPath(Join(root, v), cwd), root, cwd) == v
  {
    var rs, vs := Segs(root), Segs(v);
    AbsPathOfJoin(root, v, cwd);
    var a := AbsPath(Join(root, v), cwd);
    AllPlainAppend(rs, vs);
    AbsPathOfCanonical(rs + vs, cwd);
    ParseRender(Path(true, rs + vs));
    assert Segs(AbsPath(a, cwd)) == rs + vs;
    CommonPrefixOfExtension(rs, vs);
    assert (rs + vs)[|rs|..] == vs;
    assert seq(0, _ => "..") + vs == vs;
    assert vs != [] by {
      assert vs == [] ==> Render(Parse(v)) == [];
    }
  }

  /** `relpath` starts with `..` for a path that is not at or below the root. */
  lemma RelPathOutside(path: string, root: string, cwd: string)
    requires path != [] && IsAbs(cwd)
    requires !(Segs(AbsPath(root, cwd)) <= Segs(AbsPath(path, cwd)))
    ensures StartsWith(RelPath(path, root, cwd), ".")
  {
    var sl := Segs(AbsPath(root, cwd));
    var pl := Segs(AbsPath(path, cwd));
    var n := CommonPrefixLen(sl, pl);
    assert sl[..|sl|] == sl;
    assert n < |sl|;
    AllSegmentsSuffix(pl, n);
    UpLevelsFirst(|sl| - n, pl[n..]);
  }

  /** Components that climb `up > 0` levels and then descend render to a string starting
      with `.`. */
  lemma UpLevelsFirst(up: nat, tail: seq<string>)
    requires up > 0 && AllSegments(tail)
    ensures var rel := seq(up, _ => "..") + tail;
      rel != [] && StartsWith(JoinSegs(rel), ".")
  {
    var rel := seq(up, _ => "..") + tail;
    assert rel[0] == "..";
    assert AllSegments(rel) by {
      forall i | 0 <= i < |rel| ensures Segment(rel[i]) {
        if i >= up {
          assert rel[i] == tail[i - up];
        }
      }
    }
    JoinSegsHead(rel);
  }

  lemma AllSegmentsSuffix(ss: seq<string>, n: nat)
    requires AllSegments(ss) && n <= |ss|
    ensures AllSegments(ss[n..])
  {
    assert forall i :: 0 <= i < |ss[n..]| ==> ss[n..][i] == ss[n + i];
  }

  // ---------------------------------------------------------------------------------------
  // Directory names

  lemma {:induction false} SegsTrailingSep(x: string)
    ensures Segs(x + "/") == Segs(x)
  {
    SegsConcat(x, [], []);
    assert x + "/" + [] == x + "/";
  }

  lemma {:induction false} StripKeepsSegs(s: string)
    requires !AllSeps(s)
    ensures Segs(StripTrailingSeps(s)) == Segs(s)
    ensures IsAbs(StripTrailingSeps(s)) == IsAbs(s)
    decreases |s|
  {
    if s != [] && s[|s| - 1] == '/' {
      var t := s[..|s| - 1];
      assert s == t + "/";
      assert !AllSeps(t) by {
        assert forall i :: 0 <= i < |t| ==> s[i] == t[i];
      }
      SegsTrailingSep(t);
      StripKeepsSegs(t);
    }
  }

  lemma {:induction false} SegsOfSeps(s: string, cur: string)
    requires AllSeps(s) && cur == []
    ensures SegsFrom(s, cur) == []
    decreases |s|
  {
    if s != [] {
      SegsOfSeps(s[1..], []);
    }
  }

  /** A name split at a separator followed by a last component. */
  lemma SegsSplitLast(h: string, tail: string)
    requires tail != [] && '/' !in tail
    ensures Segs(h + "/" + tail) == Segs(h) + [tail]
    ensures Segs(h + "/") == Segs(h)
    ensures IsAbs(h + "/" + tail) == IsAbs(h + "/")
  {
    SegsConcat(h, tail, []);
    SegsOfSegment(tail, []);
    assert [] + tail == tail;
    SegsTrailingSep(h);
    assert (h + "/" + tail)[0] == (h + "/")[0];
  }

  /** What `dirname` makes of the part up to the last separator keeps its path. */
  lemma DirHeadPath(head: string)
    requires head != [] && head[|head| - 1] == '/'
    ensures Parse(if !AllSeps(head) then StripTrailingSeps(head) else head) == Parse(head)
  {
    if AllSeps(head) {
    } else {
      StripKeepsSegs(head);
    }
  }

  /** For a name that does not end in a separator, `dirname` is the path of its parent. */
  lemma DirnameIsParent(p: string)
    requires p != [] && p[|p| - 1] != '/'
    ensures Segs(p) != []
    ensures Parse(Dirname(p)) == Path(IsAbs(p), Segs(p)[..|Segs(p)| - 1])
  {
    var e := LastSepEnd(p);
    LastSepEndSpec(p);
    var head, tail := p[..e], p[e..];
    assert tail != [] && '/' !in tail by {
      assert forall i :: 0 <= i < |tail| ==> tail[i] == p[e + i];
    }
    if e == 0 {
      assert p == tail;
      SegsOfSegment(tail, []);
      assert [] + tail == tail;
    } else {
      var h := p[..e - 1];
      assert p == h + "/" + tail && head == h + "/";
      SegsSplitLast(h, tail);
      DirHeadPath(head);
      if AllSeps(head) {
        SegsOfSeps(head, []);
      }
    }
  }
}
