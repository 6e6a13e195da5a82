/** The parts of Node's POSIX `path` module that the core uses (`basename`,
 *  `dirname`, `parse`, `join`), on paths separated by '/'.
 *
 *  `path.join` normalises its result: it drops empty and `.` segments and
 *  resolves `..`. The model works on paths that are already normal, where
 *  joining is concatenation with one separator; the only normalisation it
 *  keeps is the one a stripped leaf name can trigger (see JoinLeaf). */
module PosixPath {

  const Sep: char := '/'

  /** Index of the last separator in `p`, or -1 when there is none. */
  function LastSep(p: string): (k: int)
    ensures -1 <= k < |p|
    ensures k >= 0 ==> p[k] == Sep
    ensures forall j :: k < j < |p| ==> p[j] != Sep
  {
    if |p| == 0 then -1
    else if p[|p| - 1] == Sep then |p| - 1
    else LastSep(p[..|p| - 1])
  }

  /** Any position that holds the last separator is the one LastSep finds. */
  lemma LastSepIs(p: string, m: int)
    requires -1 <= m < |p|
    requires m >= 0 ==> p[m] == Sep
    requires forall j :: m < j < |p| ==> p[j] != Sep
    ensures LastSep(p) == m
  {
  }

  /** `path.basename(p)` for a path that does not end in a separator:
   *  the text after the last separator. */
  function Basename(p: string): string {
    p[LastSep(p) + 1..]
  }

  /** `path.dirname(p)` for a path that does not end in a separator: the
   *  text before the last separator, "." without one, "/" for a single
   *  leading separator, and "//" for Node's special case of two. */
  function Dirname(p: string): string {
    var k := LastSep(p);
    if k == -1 then "."
    else if k == 0 then [Sep]
    else if k == 1 && p[0] == Sep then [Sep, Sep]
    else p[..k]
  }

  /** Dirname and Basename split a path at its last separator: a path
   *  without one is its own basename in directory ".", and otherwise,
   *  outside the two root cases, it is the directory, '/', and the
   *  basename. */
  lemma DirnameBasename(p: string)
    ensures Sep !in Basename(p)
    ensures Sep !in p ==> Dirname(p) == "." && Basename(p) == p
    ensures Sep in p && Dirname(p) != "/" && Dirname(p) != "//" ==>
      p == Dirname(p) + [Sep] + Basename(p)
  {
    var k := LastSep(p);
    if Sep !in p {
      LastSepIs(p, -1);
    }
    if k > 0 {
      assert p == p[..k] + [Sep] + p[k + 1..];
    }
  }

  /** The `dir` and `base` of `path.parse(p)`. */
  datatype Parsed = Parsed(dir: string, base: string)

  /** `path.parse(p)` for a path that does not end in a separator. */
  function Parse(p: string): Parsed {
    var k := LastSep(p);
    Parsed(if k > 0 then p[..k] else if k == 0 then [Sep] else "", p[k + 1..])
  }

  /** `path.parse` splits at the last separator: `base` is the basename,
   *  `dir` is empty without a separator, "/" for a top-level entry, and
   *  otherwise the text before the separator. */
  lemma ParseAtLastSep(p: string)
    ensures Parse(p).base == Basename(p)
    ensures LastSep(p) < 0 ==> Parse(p).dir == "" && Parse(p).base == p
    ensures LastSep(p) == 0 ==> Parse(p).dir == [Sep] && Parse(p).dir + Parse(p).base == p
    ensures LastSep(p) > 0 ==> Parse(p).dir + [Sep] + Parse(p).base == p
  {
    var k := LastSep(p);
    if k < 0 {
      assert p[k + 1..] == p;
    } else if k == 0 {
      assert p == [p[0]] + p[1..];
    } else {
      assert p == p[..k] + [p[k]] + p[k + 1..];
    }
  }

  /** The segments of `p` between separators; a leading separator gives an
   *  empty first segment. */
  function Split(p: string): (segs: seq<string>)
    ensures |segs| >= 1
    decreases |p|
  {
    var k := LastSep(p);
    if k < 0 then [p] else Split(p[..k]) + [p[k + 1..]]
  }

  /** The inverse of Split: the segments with one separator between each two. */
  function JoinSegs(segs: seq<string>): string
    requires |segs| >= 1
  {
    if |segs| == 1 then segs[0]
    else JoinSegs(segs[..|segs| - 1]) + [Sep] + segs[|segs| - 1]
  }

  lemma {:induction false} JoinSplit(p: string)
    ensures JoinSegs(Split(p)) == p
    decreases |p|
  {
    var k := LastSep(p);
    if k >= 0 {
      var init := Split(p[..k]);
      var last := p[k + 1..];
      calc {
        JoinSegs(Split(p));
      == { assert Split(p) == init + [last]; }
        JoinSegs(init + [last]);
      == { assert (init + [last])[..|init|] == init && (init + [last])[|init|] == last; }
        JoinSegs(init) + [Sep] + last;
      == { JoinSplit(p[..k]); }
        p[..k] + [Sep] + last;
      == { assert p == p[..k] + [p[k]] + p[k + 1..]; }
        p;
      }
    }
  }

  lemma {:induction false} SplitJoin(segs: seq<string>)
    requires |segs| >= 1
    requires forall i :: 0 <= i < |segs| ==> Sep !in segs[i]
    ensures Split(JoinSegs(segs)) == segs
  {
    if |segs| == 1 {
      SplitSingle(segs[0]);
    } else {
      var init := segs[..|segs| - 1];
      var last := segs[|segs| - 1];
      SplitJoin(init);
      SplitAppend(JoinSegs(init), last);
      SplitSingle(last);
      assert init + [last] == segs;
    }
  }

  /** Two paths with the same segments are the same path. */
  lemma SplitInjective(p: string, q: string)
    requires Split(p) == Split(q)
    ensures p == q
  {
    JoinSplit(p);
    JoinSplit(q);
  }

  lemma {:induction false} SplitLast(p: string)
    ensures Split(p)[|Split(p)| - 1] == Basename(p)
  {
  }

  lemma {:induction false} SplitNoSep(p: string)
    ensures forall i :: 0 <= i < |Split(p)| ==> Sep !in Split(p)[i]
    decreases |p|
  {
    var k := LastSep(p);
    if k >= 0 {
      SplitNoSep(p[..k]);
      assert Basename(p) == p[k + 1..];
    }
  }

  /** A path without separators is its own single segment. */
  lemma SplitSingle(s: string)
    requires Sep !in s
    ensures Split(s) == [s]
  {
    LastSepIs(s, -1);
  }

  /** The last separator of `a + "/" + b` is the one before `b` or one inside `b`. */
  lemma LastSepAppend(a: string, b: string)
    ensures LastSep(a + [Sep] + b) == if LastSep(b) < 0 then |a| else |a| + 1 + LastSep(b)
  {
    var p := a + [Sep] + b;
    var kb := LastSep(b);
    var m := if kb < 0 then |a| else |a| + 1 + kb;
    forall j | m < j < |p| ensures p[j] != Sep {
      assert p[j] == b[j - |a| - 1];
    }
    LastSepIs(p, m);
  }

  lemma {:induction false} SplitAppend(a: string, b: string)
    ensures Split(a + [Sep] + b) == Split(a) + Split(b)
    decreases |b|
  {
    var kb := LastSep(b);
    if kb < 0 {
      SplitAppendLastSegment(a, b);
    } else {
      var init := b[..kb];
      var last := b[kb + 1..];
      calc {
        Split(a + [Sep] + b);
      == { SplitAppendStep(a, b, kb); }
        Split(a + [Sep] + init) + [last];
      == { SplitAppend(a, init); }
        (Split(a) + Split(init)) + [last];
      == { assert (Split(a) + Split(init)) + [last] == Split(a) + (Split(init) + [last]); }
        Split(a) + (Split(init) + [last]);
      == { assert Split(b) == Split(init) + [last]; }
        Split(a) + Split(b);
      }
    }
  }

  /** The last separator of `a + "/" + b` is the added one when `b` has none. */
  lemma SplitAppendLastSegment(a: string, b: string)
    requires LastSep(b) < 0
    ensures Split(a + [Sep] + b) == Split(a) + Split(b)
  {
    var p := a + [Sep] + b;
    LastSepAppend(a, b);
    assert p[..|a|] == a && p[|a| + 1..] == b;
  }

  /** Otherwise it is the last separator of `b`. */
  lemma SplitAppendStep(a: string, b: string, kb: int)
    requires kb == LastSep(b) && kb >= 0
    ensures Split(a + [Sep] + b) == Split(a + [Sep] + b[..kb]) + [b[kb + 1..]]
  {
    var p := a + [Sep] + b;
    var k := |a| + 1 + kb;
    calc {
      Split(p);
    == { assert LastSep(p) == k by { LastSepAppend(a, b); } }
      Split(p[..k]) + [p[k + 1..]];
    == { assert p[..k] == a + [Sep] + b[..kb]; assert p[k + 1..] == b[kb + 1..]; }
      Split(a + [Sep] + b[..kb]) + [b[kb + 1..]];
    }
  }

  /** A segment of a normal path: neither empty nor `.` nor `..`. */
  predicate ProperSegment(seg: string) {
    seg != "" && seg != "." && seg != ".."
  }

  /** A relative path whose every segment is a proper name: no empty
   *  segment (so no leading, doubled or trailing separator), no `.` and no
   *  `..`. `path.join` onto such a path only concatenates. This excludes
   *  "." itself. */
  predicate NormalRelative(p: string) {
    forall seg :: seg in Split(p) ==> ProperSegment(seg)
  }

  /** A normal relative path, or one with a single leading separator.
   *  "/" and "." are not normal roots here. */
  predicate NormalRoot(p: string) {
    NormalRelative(p) || (|p| > 1 && p[0] == Sep && NormalRelative(p[1..]))
  }

  lemma EmptyNotNormal()
    ensures !NormalRoot("")
  {
    assert LastSep("") == -1;
    assert Split("") == [""];
    assert "" in Split("");
  }

  lemma NormalRootNotEmpty(p: string)
    requires NormalRoot(p)
    ensures p != "" && Split(p) != [""]
  {
    EmptyNotNormal();
    JoinSplit(p);
  }

  /** `path.join(base, rel)` of a normal root and a normal relative path:
   *  `base`, one separator, `rel`. Its segments are those of `base`
   *  followed by those of `rel` (SplitAppend). */
  function Join(base: string, rel: string): string {
    base + [Sep] + rel
  }

  /** `path.join(dir, "..")` for a normal root `dir`: its parent, which
   *  drops the last segment; "/" above a top-level entry, "." above a
   *  single relative segment. */
  function Parent(dir: string): string {
    var k := LastSep(dir);
    if k > 0 then dir[..k] else if k == 0 then [Sep] else "."
  }

  /** The parent drops the last segment; it is "/" above a top-level entry
   *  and "." above a single relative segment. */
  lemma ParentDropsLastSegment(dir: string)
    ensures LastSep(dir) > 0 ==> Split(dir) == Split(Parent(dir)) + [Basename(dir)]
    ensures LastSep(dir) == 0 ==> Parent(dir) == [Sep]
    ensures LastSep(dir) < 0 ==> Parent(dir) == "."
  {
  }

  /** `path.join(dir, leaf)` for a normal root `dir` and a leaf without
   *  separators: an empty or `.` leaf leaves `dir`, a `..` leaf climbs,
   *  and a proper name is joined on (JoinLeafSegments gives the segments). */
  function JoinLeaf(dir: string, leaf: string): string {
    if leaf == "" || leaf == "." then dir
    else if leaf == ".." then Parent(dir)
    else Join(dir, leaf)
  }

  /** A leaf name that marks a template: it begins with '_'
   *  (`name.indexOf("_") === 0`). */
  predicate IsTemplateName(name: string) {
    |name| > 0 && name[0] == '_'
  }

  /** `base.replace(/^_/, "")`: at most one leading underscore goes. */
  function StripUnderscore(base: string): (r: string)
    ensures r == base <==> !IsTemplateName(base)
    ensures r != base ==> base == "_" + r
  {
    if IsTemplateName(base) then base[1..] else base
  }
}
