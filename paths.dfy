/** The POSIX path helpers the ear dataset loader relies on:
    `os.path.join`, `os.path.splitext` and `os.path.dirname`, over paths as
    strings, with `os.path.basename` as the inverse of joining a plain name. */
module PathOps {

  /** Python's `str.rfind` for one character: the last index of `c` in `s`, or -1. */
  function RFind(s: string, c: char): (r: int)
    ensures -1 <= r < |s|
    ensures r >= 0 ==> s[r] == c
    ensures forall k :: r < k < |s| ==> s[k] != c
    ensures r < 0 <==> c !in s
  {
    if s == [] then -1
    else if s[|s| - 1] == c then |s| - 1
    else RFind(s[..|s| - 1], c)
  }

  /** The last occurrence in `x + y` is the last one in `y` when `y` has one,
      otherwise the last one in `x`. */
  lemma {:induction false} RFindConcat(x: string, y: string, c: char)
    ensures RFind(x + y, c) == if c in y then |x| + RFind(y, c) else RFind(x, c)
  {
    var s := x + y;
    var r := RFind(s, c);
    var q := if c in y then |x| + RFind(y, c) else RFind(x, c);
    if c in y {
      var d := RFind(y, c);
      assert s[|x| + d] == y[d];
      forall k | q < k < |s| ensures s[k] != c {
        assert s[k] == y[k - |x|];
      }
    } else {
      forall k | q < k < |s| ensures s[k] != c {
        if k < |x| { assert s[k] == x[k]; } else { assert s[k] == y[k - |x|]; }
      }
      if q >= 0 { assert s[q] == x[q]; }
    }
  }

  /** Python's `os.path.join(a, b)` for two components on POSIX: an absolute
      `b` replaces `a`; otherwise a separator is inserted unless `a` is empty
      or already ends with one. */
  function Join(a: string, b: string): (r: string)
    ensures |b| > 0 && b[0] == '/' ==> r == b
    ensures (|b| == 0 || b[0] != '/') ==> r == DirPrefix(a) + b
  {
    if |b| > 0 && b[0] == '/' then b
    else if a == [] || a[|a| - 1] == '/' then a + b
    else a + "/" + b
  }

  /** What `Join(a, b)` puts in front of a relative `b`: `a` itself when it is
      empty or ends with a separator, else `a` followed by one. */
  function DirPrefix(a: string): (p: string)
    ensures p == [] || p[|p| - 1] == '/'
    ensures |a| <= |p| && p[..|a|] == a
  {
    if a == [] || a[|a| - 1] == '/' then a else a + "/"
  }

  /** Python's `os.path.basename` on POSIX: everything after the last separator. */
  function Basename(p: string): (r: string)
    ensures '/' !in r
  {
    p[RFind(p, '/') + 1..]
  }

  /** Joining a directory and a plain name (one without separators) yields a
      path whose base name is that name. */
  lemma {:induction false} JoinBasename(dir: string, name: string)
    requires '/' !in name
    ensures Basename(Join(dir, name)) == name
  {
    var p := DirPrefix(dir);
    assert Join(dir, name) == p + name;
    RFindConcat(p, name, '/');
    if p != [] {
      assert RFind(p, '/') == |p| - 1;
    }
    assert (p + name)[|p|..] == name;
  }

  datatype Split = Split(root: string, ext: string)

  /** True when `s[lo..hi]` holds some character other than '.'. */
  predicate NonDotBetween(s: string, lo: int, hi: int)
    requires 0 <= lo && hi <= |s|
  {
    exists k :: lo <= k < hi && s[k] != '.'
  }

  /** Python's `os.path.splitext` on POSIX: the extension runs from the last
      '.' of the last path component to the end, unless that component
      consists of dots up to that point (".bashrc" has no extension). */
  function SplitExt(p: string): (r: Split)
    ensures r.root + r.ext == p
    ensures r.ext != [] ==> r.ext[0] == '.'
    ensures forall k :: 0 < k < |r.ext| ==> r.ext[k] != '.' && r.ext[k] != '/'
    ensures |r.root| > RFind(p, '/')
  {
    var sepIndex := RFind(p, '/');
    var dotIndex := RFind(p, '.');
    if dotIndex > sepIndex && NonDotBetween(p, sepIndex + 1, dotIndex) then
      Split(p[..dotIndex], p[dotIndex..])
    else
      Split(p, [])
  }

  /** The file name without its last extension (`os.path.splitext(name)[0]`). */
  function Stem(name: string): (s: string)
    ensures |s| <= |name| && s == name[..|s|]
  {
    SplitExt(name).root
  }

  /** A base name with some non-dot character, followed by '.' and an
      extension without dots, splits exactly there. */
  lemma {:induction false} SplitExtOfSimpleName(base: string, ext: string)
    requires '/' !in base && NonDotBetween(base, 0, |base|)
    requires '.' !in ext && '/' !in ext
    ensures SplitExt(base + "." + ext) == Split(base, "." + ext)
  {
    var p := base + "." + ext;
    assert p == base + ("." + ext);
    RFindConcat(base, "." + ext, '/');
    RFindConcat(base, "." + ext, '.');
    RFindConcat(".", ext, '.');
    assert forall k :: 0 <= k < |base| ==> p[k] == base[k];
    assert p[..|base|] == base;
    assert p[|base|..] == "." + ext;
  }

  /** A name made of leading dots, one more dot and a dot-free extension
      (`.bashrc`, `..png`) has no extension: leading dots stay in the root. */
  lemma {:induction false} LeadingDotsKeepRoot(dots: string, ext: string)
    requires forall k :: 0 <= k < |dots| ==> dots[k] == '.'
    requires '.' !in ext && '/' !in ext
    ensures SplitExt(dots + "." + ext) == Split(dots + "." + ext, [])
  {
    var p := dots + "." + ext;
    assert p == dots + ("." + ext);
    RFindConcat(dots, "." + ext, '/');
    RFindConcat(dots, "." + ext, '.');
    RFindConcat(".", ext, '.');
    assert RFind(dots, '/') == -1;
    assert RFind(p, '.') == |dots|;
    assert !NonDotBetween(p, 0, |dots|) by {
      forall k | 0 <= k < |dots| ensures p[k] == '.' {
        assert p[k] == dots[k];
      }
    }
  }

  /** A name without a dot has no extension. */
  lemma NoDotNoExtension(name: string)
    requires '.' !in name
    ensures SplitExt(name) == Split(name, [])
  {
  }

  /** Splitting a plain name under a directory prefix splits the name only:
      the directory part is never touched. */
  lemma {:induction false} SplitExtUnderDir(prefix: string, name: string)
    requires prefix == [] || prefix[|prefix| - 1] == '/'
    requires '/' !in name
    ensures SplitExt(prefix + name) ==
            Split(prefix + SplitExt(name).root, SplitExt(name).ext)
  {
    var p := prefix + name;
    RFindConcat(prefix, name, '/');
    RFindConcat(prefix, name, '.');
    assert RFind(p, '/') == |prefix| - 1 by {
      if prefix != [] { assert RFind(prefix, '/') == |prefix| - 1; }
    }
    if '.' in name {
      DotInNameUnderDir(prefix, name);
    } else {
      assert RFind(name, '.') == -1;
      if prefix != [] {
        assert prefix[|prefix| - 1] != '.';
        assert RFind(prefix, '.') != |prefix| - 1;
      }
      assert RFind(p, '.') <= RFind(p, '/');
    }
  }

  /** The case of `SplitExtUnderDir` where the name has a dot: both splits
      look at the same last dot and the same characters before it. */
  lemma DotInNameUnderDir(prefix: string, name: string)
    requires prefix == [] || prefix[|prefix| - 1] == '/'
    requires '/' !in name && '.' in name
    requires RFind(prefix + name, '/') == |prefix| - 1
    requires RFind(prefix + name, '.') == |prefix| + RFind(name, '.')
    ensures SplitExt(prefix + name) ==
            Split(prefix + SplitExt(name).root, SplitExt(name).ext)
  {
    var d := RFind(name, '.');
    NonDotShift(prefix, name, d);
    if NonDotBetween(name, 0, d) {
      SplitsAtDot(prefix, name, d);
    } else {
      assert SplitExt(name) == Split(name, []);
    }
  }

  /** Whether the characters before the dot hold a non-dot is the same seen
      from the name or from the prefixed path. */
  lemma NonDotShift(prefix: string, name: string, d: nat)
    requires d <= |name|
    ensures NonDotBetween(prefix + name, |prefix|, |prefix| + d) == NonDotBetween(name, 0, d)
  {
    var p := prefix + name;
    if NonDotBetween(name, 0, d) {
      var k :| 0 <= k < d && name[k] != '.';
      assert p[|prefix| + k] == name[k];
    }
    if NonDotBetween(p, |prefix|, |prefix| + d) {
      var k :| |prefix| <= k < |prefix| + d && p[k] != '.';
      assert name[k - |prefix|] == p[k];
    }
  }

  lemma SplitsAtDot(prefix: string, name: string, d: nat)
    requires d < |name| && '/' !in name
    requires d == RFind(name, '.')
    requires NonDotBetween(name, 0, d)
    requires RFind(prefix + name, '/') == |prefix| - 1
    requires RFind(prefix + name, '.') == |prefix| + d
    requires NonDotBetween(prefix + name, |prefix|, |prefix| + d)
    ensures SplitExt(prefix + name) == Split(prefix + name[..d], name[d..])
    ensures SplitExt(name) == Split(name[..d], name[d..])
  {
    var p := prefix + name;
    assert RFind(name, '/') == -1;
    assert p[..|prefix| + d] == prefix + name[..d];
    DropConcat(prefix, name, d);
  }

  /** Dropping past the whole of `x` from `x + y` drops from `y`. */
  lemma DropConcat(x: string, y: string, i: nat)
    requires i <= |y|
    ensures (x + y)[|x| + i..] == y[i..]
  {
    forall k | 0 <= k < |y| - i ensures (x + y)[|x| + i..][k] == y[i..][k] {
      assert (x + y)[|x| + i..][k] == (x + y)[|x| + i + k];
    }
  }

  /** `s.rstrip('/')`: `s` without its trailing separators. */
  function RStripSlash(s: string): (r: string)
    ensures |r| <= |s| && r == s[..|r|]
    ensures r == [] || r[|r| - 1] != '/'
    ensures forall k :: |r| <= k < |s| ==> s[k] == '/'
  {
    if s != [] && s[|s| - 1] == '/' then RStripSlash(s[..|s| - 1]) else s
  }

  predicate AllSlashes(s: string) {
    forall k :: 0 <= k < |s| ==> s[k] == '/'
  }

  /** Python's `os.path.dirname` on POSIX: the path up to its last separator,
      with trailing separators removed unless only separators remain. */
  function Dirname(p: string): (r: string)
    ensures |r| <= |p| && r == p[..|r|]
    ensures r == [] <==> '/' !in p
    ensures forall k :: |r| <= k <= RFind(p, '/') ==> p[k] == '/'
    ensures |r| <= RFind(p, '/') + 1
    ensures AllSlashes(r) ==> r == p[..RFind(p, '/') + 1]
    ensures !AllSlashes(r) ==> r[|r| - 1] != '/'
  {
    var head := p[..RFind(p, '/') + 1];
    if head != [] && !AllSlashes(head) then RStripSlash(head) else head
  }

  /** The directory of a plain name joined onto a directory that does not
      end in a separator is that directory. */
  lemma {:induction false} DirnameOfJoin(dir: string, name: string)
    requires dir == [] || dir[|dir| - 1] != '/'
    requires '/' !in name
    ensures Dirname(Join(dir, name)) == dir
  {
    var prefix := DirPrefix(dir);
    var p := prefix + name;
    assert Join(dir, name) == p;
    RFindConcat(prefix, name, '/');
    if dir != [] {
      assert prefix == dir + "/";
      assert RFind(prefix, '/') == |dir|;
      assert p[..|dir| + 1] == prefix;
      assert !AllSlashes(prefix) by {
        assert prefix[|dir| - 1] != '/';
      }
      assert prefix[..|prefix| - 1] == dir;
    }
  }
}
