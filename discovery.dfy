/** Decoration of globbed source paths: `getDestPath` and `mapFilePaths`
 *  (index.js lines 54-80). The glob itself is not modelled: its result is
 *  the `files` argument. */
module Discovery {
  import opened Wrappers
  import opened PosixPath
  import opened Records
  import opened Errors

  /** `${path.sep}templates${path.sep}` with the POSIX separator. */
  const Marker: string := "/templates/"

  /** The characters a regular-expression `.` does not match. */
  predicate LineTerminator(c: char) {
    c == '\n' || c == '\r' || c == '\U{2028}' || c == '\U{2029}'
  }

  /** `/\/templates\/(.*)$/` matches starting at `i`: the marker is there
   *  and `(.*)$` can reach the end, so no line terminator follows it. */
  predicate MatchesAt(file: string, i: nat)
    ensures MatchesAt(file, i) ==> i + |Marker| <= |file| && file[i + |Marker| - 1] == Sep
  {
    && i + |Marker| <= |file|
    && file[i..i + |Marker|] == Marker
    && forall j :: i + |Marker| <= j < |file| ==> !LineTerminator(file[j])
  }

  /** `file.match(fileRegex)`: the leftmost position at or after `from`
   *  where the expression matches, or None (a null `matches`). */
  function FindMatch(file: string, from: nat): (r: Option<nat>)
    requires from <= |file|
    ensures r.Some? ==> from <= r.value <= |file| && MatchesAt(file, r.value)
    decreases |file| - from
  {
    if MatchesAt(file, from) then Some(from)
    else if from == |file| then None
    else FindMatch(file, from + 1)
  }

  /** FindMatch finds the leftmost match, and None means there is none. */
  lemma {:induction false} FindMatchLeftmost(file: string, from: nat)
    requires from <= |file|
    ensures FindMatch(file, from).Some? ==>
      forall j :: from <= j < FindMatch(file, from).value ==> !MatchesAt(file, j)
    ensures FindMatch(file, from).None? ==>
      forall j :: from <= j <= |file| ==> !MatchesAt(file, j)
    decreases |file| - from
  {
    if !MatchesAt(file, from) && from < |file| {
      FindMatchLeftmost(file, from + 1);
    }
  }

  /** A match at `i` with none before it is the one FindMatch returns. */
  lemma {:induction false} FindMatchFrom(file: string, from: nat, i: nat)
    requires from <= i <= |file| && MatchesAt(file, i)
    requires forall j :: from <= j < i ==> !MatchesAt(file, j)
    ensures FindMatch(file, from) == Some(i)
    decreases i - from
  {
    if from < i {
      FindMatchFrom(file, from + 1, i);
    }
  }

  /** The captured group `matches[1]`: the text after the marker. */
  function Captured(file: string, i: nat): (r: string)
    requires i + |Marker| <= |file|
    ensures file == file[..i + |Marker|] + r
  {
    file[i + |Marker|..]
  }

  /** The source paths whose destination the model computes: when the
   *  expression matches, the captured text is a normal relative path, so
   *  `path.join` has nothing to normalise in it. */
  predicate WellFormedSource(file: string) {
    match FindMatch(file, 0)
    case None => true
    case Some(i) => NormalRelative(Captured(file, i))
  }

  /** `getDestPath(file)`: the captured text joined onto `outputPath`,
   *  with one leading '_' removed from the leaf name. */
  function GetDestPath(outputPath: string, file: string): (r: Result<string, Error>)
    requires NormalRoot(outputPath) && WellFormedSource(file)
    ensures r.Err? <==> FindMatch(file, 0).None?
    ensures r.Err? ==> r.error == PathResolutionError(file)
  {
    match FindMatch(file, 0)
    case None => Err(PathResolutionError(file))
    case Some(i) =>
      var filePath := Join(outputPath, Captured(file, i));
      var parsed := Parse(filePath);
      Ok(JoinLeaf(parsed.dir, StripUnderscore(parsed.base)))
  }

  /** The destination keeps every segment of `outputPath` and every
   *  directory segment after the marker as they are, even one beginning
   *  with '_', and ends in the source leaf with one leading '_' removed.
   *  A leaf that strips to "" or "." names the directory itself, one that
   *  strips to ".." its parent. */
  lemma DestPathSegments(outputPath: string, file: string, i: nat)
    requires NormalRoot(outputPath) && WellFormedSource(file)
    requires FindMatch(file, 0) == Some(i)
    ensures GetDestPath(outputPath, file).Ok?
    ensures
      var segs := Split(Captured(file, i));
      var dirs := segs[..|segs| - 1];
      var leaf := StripUnderscore(segs[|segs| - 1]);
      var dest := GetDestPath(outputPath, file).value;
      && (ProperSegment(leaf) ==> Split(dest) == Split(outputPath) + dirs + [leaf])
      && (leaf == "" || leaf == "." ==> Split(dest) == Split(outputPath) + dirs)
      && (leaf == ".." && dirs != [] ==> Split(dest) == Split(outputPath) + dirs[..|dirs| - 1])
      && (leaf == ".." && dirs == [] ==> dest == Parent(outputPath))
  {
    var partial := Captured(file, i);
    var segs := Split(partial);
    var dirs := segs[..|segs| - 1];
    var parsed := Parse(Join(outputPath, partial));
    ParseJoined(outputPath, partial);
    var leaf := StripUnderscore(parsed.base);
    assert GetDestPath(outputPath, file) == Ok(JoinLeaf(parsed.dir, leaf));
    SplitNoSep(partial);
    assert Sep !in leaf;
    NormalRootNotEmpty(outputPath);
    JoinLeafSegments(parsed.dir, leaf, Split(outputPath), dirs);
    if leaf == ".." && dirs == [] {
      SplitInjective(parsed.dir, outputPath);
    }
  }

  /** The same on the string: the destination is `outputPath`, '/', the
   *  captured directories with their separators, and the stripped leaf,
   *  whenever the stripped leaf is a proper name. */
  lemma DestPathText(outputPath: string, file: string, i: nat)
    requires NormalRoot(outputPath) && WellFormedSource(file)
    requires FindMatch(file, 0) == Some(i)
    ensures
      var partial := Captured(file, i);
      var leaf := Basename(partial);
      ProperSegment(StripUnderscore(leaf)) ==>
        GetDestPath(outputPath, file)
          == Ok(outputPath + [Sep] + partial[..|partial| - |leaf|] + StripUnderscore(leaf))
  {
    var partial := Captured(file, i);
    var leaf := Basename(partial);
    NormalRootNotEmpty(outputPath);
    ParseJoinedText(outputPath, partial);
    var parsed := Parse(Join(outputPath, partial));
    assert parsed.dir + [Sep] + StripUnderscore(leaf)
        == outputPath + [Sep] + partial[..|partial| - |leaf|] + StripUnderscore(leaf);
  }

  /** Parsing `outputPath + "/" + partial` splits it at the last separator
   *  of `partial`, or at the joining one when `partial` has none. */
  lemma ParseJoinedText(outputPath: string, partial: string)
    requires outputPath != ""
    ensures
      var parsed := Parse(Join(outputPath, partial));
      var leaf := Basename(partial);
      && parsed.base == leaf
      && parsed.dir + [Sep] == outputPath + [Sep] + partial[..|partial| - |leaf|]
  {
    var full := Join(outputPath, partial);
    var kp := LastSep(partial);
    var k := if kp < 0 then |outputPath| else |outputPath| + 1 + kp;
    assert LastSep(full) == k by {
      LastSepAppend(outputPath, partial);
    }
    assert full[k + 1..] == partial[kp + 1..];
    JoinedPrefix(outputPath, partial, k, kp);
  }

  /** The text before the last separator of `outputPath + "/" + partial`,
   *  with that separator, is `outputPath`, '/', and `partial` up to and
   *  including its own last separator. */
  lemma JoinedPrefix(outputPath: string, partial: string, k: nat, kp: int)
    requires -1 <= kp < |partial| && (kp >= 0 ==> partial[kp] == Sep)
    requires k == if kp < 0 then |outputPath| else |outputPath| + 1 + kp
    ensures Join(outputPath, partial)[..k] + [Sep] == outputPath + [Sep] + partial[..kp + 1]
  {
    var full := Join(outputPath, partial);
    if kp >= 0 {
      calc {
        full[..k] + [Sep];
      == { assert full[..k] == outputPath + [Sep] + partial[..kp]; }
        outputPath + [Sep] + partial[..kp] + [Sep];
      == { assert partial[..kp + 1] == partial[..kp] + [Sep]; }
        outputPath + [Sep] + partial[..kp + 1];
      }
    } else {
      assert full[..k] == outputPath;
      assert partial[..0] == [];
    }
  }

  /** Parsing `outputPath` joined with a relative path: the directory is
   *  the root followed by every segment but the last, the base the last. */
  lemma ParseJoined(outputPath: string, partial: string)
    requires NormalRoot(outputPath)
    ensures
      var parsed := Parse(Join(outputPath, partial));
      var segs := Split(partial);
      && parsed.base == segs[|segs| - 1]
      && Split(parsed.dir) == Split(outputPath) + segs[..|segs| - 1]
  {
    var full := Join(outputPath, partial);
    var segs := Split(partial);
    var last := segs[|segs| - 1];
    var dirs := segs[..|segs| - 1];
    var k := LastSep(full);
    assert k > 0 by {
      NormalRootNotEmpty(outputPath);
      LastSepAppend(outputPath, partial);
    }
    assert Split(full) == Split(full[..k]) + [full[k + 1..]];
    assert Split(full) == (Split(outputPath) + dirs) + [last] by {
      SplitAppend(outputPath, partial);
      assert segs == dirs + [last];
    }
    SnocInjective(Split(full[..k]), full[k + 1..], Split(outputPath) + dirs, last);
  }

  lemma SnocInjective<T>(x: seq<T>, a: T, y: seq<T>, b: T)
    requires x + [a] == y + [b]
    ensures x == y && a == b
  {
    assert x == (x + [a])[..|x|] && y == (y + [b])[..|y|];
    assert a == (x + [a])[|x|] && b == (y + [b])[|y|];
  }

  /** `path.join(dir, leaf)` in segments, for a directory whose segments
   *  are a non-empty root `prefix` followed by `dirs`. */
  lemma JoinLeafSegments(dir: string, leaf: string, prefix: seq<string>, dirs: seq<string>)
    requires Split(dir) == prefix + dirs
    requires prefix != [] && prefix != [""]
    requires Sep !in leaf
    ensures ProperSegment(leaf) ==> Split(JoinLeaf(dir, leaf)) == prefix + dirs + [leaf]
    ensures leaf == "" || leaf == "." ==> Split(JoinLeaf(dir, leaf)) == prefix + dirs
    ensures leaf == ".." && dirs != [] ==>
      Split(JoinLeaf(dir, leaf)) == prefix + dirs[..|dirs| - 1]
  {
    if ProperSegment(leaf) {
      SplitAppend(dir, leaf);
      SplitSingle(leaf);
    } else if leaf == ".." && dirs != [] {
      var k := LastSep(dir);
      if k < 0 {
        assert false;
      }
      assert Split(dir) == Split(dir[..k]) + [dir[k + 1..]];
      assert (prefix + dirs)[..|prefix + dirs| - 1] == prefix + dirs[..|dirs| - 1];
      if k == 0 {
        assert false;
      }
    }
  }

  /** `isTemplate` reads the same leaf name that getDestPath strips: the
   *  basename of the source is the last segment of the captured text. */
  lemma TemplateFlagReadsStrippedLeaf(file: string, i: nat)
    requires FindMatch(file, 0) == Some(i)
    ensures var segs := Split(Captured(file, i));
      Basename(file) == segs[|segs| - 1]
  {
    var n := i + |Marker| - 1;
    var head := file[..n];
    var captured := Captured(file, i);
    assert file[n] == Sep by {
      assert MatchesAt(file, i);
      assert file[n] == file[i..i + |Marker|][|Marker| - 1];
    }
    assert file == head + [Sep] + captured by {
      assert file == file[..n] + [file[n]] + file[n + 1..];
    }
    var segs := Split(captured);
    calc {
      Basename(file);
    == { SplitLast(file); }
      Split(file)[|Split(file)| - 1];
    == { SplitAppend(head, captured); }
      (Split(head) + segs)[|Split(head) + segs| - 1];
      segs[|segs| - 1];
    }
  }

  /** The record `mapFilePaths` builds for one source path. */
  function Decorate(srcPath: string, destPath: string): TemplateRecord {
    TemplateRecord(srcPath, destPath, Dirname(srcPath), IsTemplateName(Basename(srcPath)))
  }

  /** The index of the first path the expression does not match, or
   *  `|files|` when it matches them all. */
  function FirstUnmatched(files: seq<string>): (k: nat)
    ensures k <= |files|
    ensures k < |files| ==> FindMatch(files[k], 0).None?
    ensures forall j :: 0 <= j < k ==> FindMatch(files[j], 0).Some?
  {
    if files == [] then 0
    else if FindMatch(files[0], 0).None? then 0
    else 1 + FirstUnmatched(files[1..])
  }

  /** `mapFilePaths(files)`: one record per path, in order, or the error of
   *  the first path getDestPath rejects. */
  function MapFilePaths(outputPath: string, files: seq<string>): (r: Result<seq<TemplateRecord>, Error>)
    requires NormalRoot(outputPath)
    requires forall k :: 0 <= k < |files| ==> WellFormedSource(files[k])
    ensures r.Ok? <==> FirstUnmatched(files) == |files|
    ensures r.Ok? ==> |r.value| == |files|
    ensures r.Err? ==>
      FirstUnmatched(files) < |files| && r.error == PathResolutionError(files[FirstUnmatched(files)])
    decreases |files|
  {
    if files == [] then Ok([])
    else
      match GetDestPath(outputPath, files[0])
      case Err(e) => Err(e)
      case Ok(destPath) =>
        match MapFilePaths(outputPath, files[1..])
        case Err(e) => Err(e)
        case Ok(rest) => Ok([Decorate(files[0], destPath)] + rest)
  }

  /** Each record of a successful mapFilePaths decorates the path at the
   *  same index with its destination. */
  lemma {:induction false} MapFilePathsRecords(outputPath: string, files: seq<string>, k: nat)
    requires NormalRoot(outputPath)
    requires forall j :: 0 <= j < |files| ==> WellFormedSource(files[j])
    requires MapFilePaths(outputPath, files).Ok? && k < |files|
    ensures GetDestPath(outputPath, files[k]).Ok?
    ensures MapFilePaths(outputPath, files).value[k]
         == Decorate(files[k], GetDestPath(outputPath, files[k]).value)
    decreases k
  {
    var r := MapFilePaths(outputPath, files);
    var head := GetDestPath(outputPath, files[0]);
    var rest := MapFilePaths(outputPath, files[1..]);
    assert head.Ok? && rest.Ok?;
    assert r.value == [Decorate(files[0], head.value)] + rest.value;
    if k > 0 {
      assert files[1..][k - 1] == files[k];
      MapFilePathsRecords(outputPath, files[1..], k - 1);
    }
  }
}
