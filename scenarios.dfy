/** Concrete runs of the model: the destinations of a few source paths and
 *  a default set whose one template a package set overrides. Each concrete
 *  lemma takes its inputs as parameters fixed by its `requires`, and the
 *  general lemmas before it carry the reasoning. */
module Scenarios {
  import opened Wrappers
  import opened JsValues
  import opened Errors
  import opened PosixPath
  import opened Records
  import opened Discovery
  import opened Merging
  import opened Materialize
  import opened TemplateFiles

  // General steps.

  lemma OutIsNormalRoot()
    ensures NormalRoot("/out")
  {
    SplitSingle("out");
    assert "/out"[1..] == "out";
  }

  /** A path of the form `/c/templates/...` with `c` a single character
   *  other than 't' and '/', and no line terminator after the marker,
   *  matches at index 2 and nowhere before. */
  lemma MatchAtTwo(file: string)
    requires |file| >= 2 + |Marker| && file[2..2 + |Marker|] == Marker
    requires file[1] != 't' && file[1] != Sep
    requires forall j :: 2 + |Marker| <= j < |file| ==> !LineTerminator(file[j])
    ensures FindMatch(file, 0) == Some(2)
  {
    NoMatchBeforeTwo(file);
    FindMatchFrom(file, 0, 2);
  }

  lemma NoMatchBeforeTwo(file: string)
    requires |file| >= 2 && file[1] != 't' && file[1] != Sep
    ensures forall j :: 0 <= j < 2 ==> !MatchesAt(file, j)
  {
    assert Marker[0] == Sep && Marker[1] == 't';
    forall j | 0 <= j < 2 ensures !MatchesAt(file, j) {
      if j + |Marker| <= |file| {
        assert file[j..j + |Marker|][1 - j] == file[1];
      }
    }
  }

  lemma TwoSegments(a: string, b: string)
    requires Sep !in a && Sep !in b
    requires ProperSegment(a) && ProperSegment(b)
    ensures NormalRelative(a + [Sep] + b)
  {
    SplitAppend(a, b);
    SplitSingle(a);
    SplitSingle(b);
  }

  /** The leaf after the last separator, and the directory before it. */
  lemma LeafAfterSep(a: string, b: string)
    requires Sep !in b
    ensures Basename(a + [Sep] + b) == b
    ensures |a| > 1 ==> Dirname(a + [Sep] + b) == a
  {
    LastSepIs(b, -1);
    LastSepAppend(a, b);
    assert (a + [Sep] + b)[|a| + 1..] == b;
    assert (a + [Sep] + b)[..|a|] == a;
  }

  lemma Regroup(o: string, pre: string, dir: string, s: string)
    requires pre == dir + [Sep] || (pre == [] && dir == [])
    ensures pre == [] ==> o + [Sep] + pre + s == o + [Sep] + s
    ensures pre != [] ==> o + [Sep] + pre + s == o + [Sep] + dir + [Sep] + s
  {
  }

  /** A source one directory below the marker keeps that directory. */
  lemma DestOneDir(o: string, file: string, i: nat, dir: string, leaf: string)
    requires NormalRoot(o) && FindMatch(file, 0) == Some(i)
    requires Captured(file, i) == dir + [Sep] + leaf
    requires Sep !in dir && Sep !in leaf
    requires ProperSegment(dir) && ProperSegment(leaf) && ProperSegment(StripUnderscore(leaf))
    ensures WellFormedSource(file)
    ensures GetDestPath(o, file) == Ok(o + [Sep] + dir + [Sep] + StripUnderscore(leaf))
  {
    TwoSegments(dir, leaf);
    LeafAfterSep(dir, leaf);
    DestPathText(o, file, i);
    var partial := Captured(file, i);
    var pre := partial[..|partial| - |leaf|];
    assert pre == dir + [Sep];
    assert GetDestPath(o, file) == Ok(o + [Sep] + pre + StripUnderscore(leaf));
    Regroup(o, pre, dir, StripUnderscore(leaf));
  }

  /** A source directly below the marker lands directly below the root. */
  lemma DestLeaf(o: string, file: string, i: nat, leaf: string)
    requires NormalRoot(o) && FindMatch(file, 0) == Some(i)
    requires Captured(file, i) == leaf
    requires Sep !in leaf
    requires ProperSegment(leaf) && ProperSegment(StripUnderscore(leaf))
    ensures WellFormedSource(file)
    ensures GetDestPath(o, file) == Ok(o + [Sep] + StripUnderscore(leaf))
  {
    SplitSingle(leaf);
    LastSepIs(leaf, -1);
    DestPathText(o, file, i);
    var pre := leaf[..|leaf| - |leaf|];
    assert GetDestPath(o, file) == Ok(o + [Sep] + pre + StripUnderscore(leaf));
    assert pre == [];
    Regroup(o, pre, [], StripUnderscore(leaf));
  }

  // Single paths.

  /** A source `/c/templates/dir/leaf` keeps `dir` below the root and
   *  is a template when `leaf` begins with '_'. */
  lemma SourceInDirBelowMarker(o: string, c: char, dir: string, leaf: string)
    requires NormalRoot(o) && c != 't' && c != Sep
    requires Sep !in dir && Sep !in leaf
    requires ProperSegment(dir) && ProperSegment(leaf) && ProperSegment(StripUnderscore(leaf))
    requires forall j :: 0 <= j < |dir| ==> !LineTerminator(dir[j])
    requires forall j :: 0 <= j < |leaf| ==> !LineTerminator(leaf[j])
    ensures WellFormedSource([Sep, c] + Marker + dir + [Sep] + leaf)
    ensures GetDestPath(o, [Sep, c] + Marker + dir + [Sep] + leaf)
         == Ok(o + [Sep] + dir + [Sep] + StripUnderscore(leaf))
    ensures Basename([Sep, c] + Marker + dir + [Sep] + leaf) == leaf
  {
    var rel := dir + [Sep] + leaf;
    var file := [Sep, c] + Marker + rel;
    assert file == [Sep, c] + Marker + dir + [Sep] + leaf;
    assert file[2..2 + |Marker|] == Marker;
    assert file[1] == c;
    forall j | 2 + |Marker| <= j < |file| ensures !LineTerminator(file[j]) {
      assert file[j] == rel[j - 2 - |Marker|];
    }
    MatchAtTwo(file);
    assert Captured(file, 2) == rel;
    DestOneDir(o, file, 2, dir, leaf);
    assert file == ([Sep, c] + Marker + dir) + [Sep] + leaf;
    LeafAfterSep([Sep, c] + Marker + dir, leaf);
  }

  /** `/x/templates/sub/_config.json` with output root `/out` lands on
   *  `/out/sub/config.json` and is a template. */
  lemma ConfigTemplateIsStripped(outputPath: string, file: string)
    requires outputPath == "/out" && file == "/x/templates/sub/_config.json"
    ensures NormalRoot(outputPath) && WellFormedSource(file)
    ensures GetDestPath(outputPath, file) == Ok("/out/sub/config.json")
    ensures Decorate(file, "/out/sub/config.json").isTemplate
  {
    ConfigText();
    OutIsNormalRoot();
    assert StripUnderscore("_config.json") == "config.json";
    SourceInDirBelowMarker(outputPath, 'x', "sub", "_config.json");
  }

  lemma ConfigText()
    ensures "/x/templates/sub/_config.json" == "/x" + Marker + "sub" + [Sep] + "_config.json"
    ensures "/x/templates/sub/_config.json" == "/x/templates/sub" + [Sep] + "_config.json"
    ensures "/out" + [Sep] + "sub" + [Sep] + "config.json" == "/out/sub/config.json"
  {
    ConfigSourceText();
  }

  lemma ConfigSourceText()
    ensures "/x/templates/sub/_config.json" == "/x/templates/sub" + [Sep] + "_config.json"
    ensures "/x/templates/sub" == "/x" + Marker + "sub"
  {
  }

  /** `/x/templates/readme.md` is copied to `/out/readme.md` under its own
   *  name. */
  lemma PlainFileKeepsItsName(outputPath: string, file: string)
    requires outputPath == "/out" && file == "/x/templates/readme.md"
    ensures NormalRoot(outputPath) && WellFormedSource(file)
    ensures GetDestPath(outputPath, file) == Ok("/out/readme.md")
    ensures !Decorate(file, "/out/readme.md").isTemplate
  {
    var leaf := "readme.md";
    ReadmeText();
    OutIsNormalRoot();
    MatchAtTwo(file);
    assert Captured(file, 2) == leaf;
    assert StripUnderscore(leaf) == leaf;
    DestLeaf(outputPath, file, 2, leaf);
    LeafAfterSep("/x/templates", leaf);
  }

  lemma ReadmeText()
    ensures "/x/templates/readme.md" == "/x" + Marker + "readme.md"
    ensures "/x/templates/readme.md" == "/x/templates" + [Sep] + "readme.md"
    ensures "/out" + [Sep] + "readme.md" == "/out/readme.md"
  {
  }

  /** Only one leading '_' goes: `__init` is written as `_init`. */
  lemma OneUnderscoreIsStripped(outputPath: string, file: string)
    requires outputPath == "/out" && file == "/x/templates/__init"
    ensures NormalRoot(outputPath) && WellFormedSource(file)
    ensures GetDestPath(outputPath, file) == Ok("/out/_init")
    ensures Decorate(file, "/out/_init").isTemplate
  {
    var leaf := "__init";
    UnderscoreText();
    OutIsNormalRoot();
    MatchAtTwo(file);
    assert Captured(file, 2) == leaf;
    assert StripUnderscore(leaf) == "_init";
    DestLeaf(outputPath, file, 2, leaf);
    LeafAfterSep("/x/templates", leaf);
  }

  lemma UnderscoreText()
    ensures "/x/templates/__init" == "/x" + Marker + "__init"
    ensures "/x/templates/__init" == "/x/templates" + [Sep] + "__init"
    ensures "/out" + [Sep] + "_init" == "/out/_init"
  {
  }

  /** The marker needs its trailing separator: `/x/templates` itself has
   *  no destination. */
  lemma MarkerNeedsTrailingSeparator(outputPath: string, file: string)
    requires outputPath == "/out" && file == "/x/templates"
    ensures NormalRoot(outputPath) && WellFormedSource(file)
    ensures GetDestPath(outputPath, file) == Err(PathResolutionError(file))
  {
    OutIsNormalRoot();
    assert |file| == 12 && file[1] == 'x';
    NoMatchBeforeTwo(file);
    assert forall j :: 0 <= j <= |file| ==> !MatchesAt(file, j);
  }

  /** `(.*)$` cannot cross a line break, so a path with one after the
   *  marker has no destination. */
  lemma LineBreakAfterMarkerIsRejected(outputPath: string, file: string)
    requires outputPath == "/out" && file == "/x/templates/a\nb"
    ensures NormalRoot(outputPath) && WellFormedSource(file)
    ensures GetDestPath(outputPath, file) == Err(PathResolutionError(file))
  {
    OutIsNormalRoot();
    assert |file| == 16 && file[1] == 'x' && file[14] == '\n';
    NoMatchBeforeTwo(file);
    assert !MatchesAt(file, 2);
    assert Marker[0] == Sep;
    forall j | 3 <= j <= |file| ensures !MatchesAt(file, j) {
      if j + |Marker| <= |file| {
        assert file[j..j + |Marker|][0] == file[j];
      }
    }
  }

  // A default set overridden by a package set.

  /** One default record shares its destination with the only package
   *  record: the package record takes its place, the other default record
   *  stays after it. */
  lemma PackageReplacesSharedDestination(a: TemplateRecord, b: TemplateRecord, p: TemplateRecord)
    requires a.destPath == p.destPath && a.destPath != b.destPath
    ensures MergeTemplates([a, b], [p]) == [p, b]
  {
    var merged := MergeTemplates([a, b], [p]);
    SharedDestinationOrder(a, b, p);
    forall dest ensures FirstWithDest(merged, dest) == FirstWithDest([p, b], dest) {
      SharedDestinationLookup(a, b, p, dest);
    }
    SameAsPair(merged, p, b);
  }

  lemma SameAsPair(m: seq<TemplateRecord>, p: TemplateRecord, b: TemplateRecord)
    requires DistinctDests(m) && p.destPath != b.destPath
    requires DestSeq(m) == DestSeq([p, b])
    requires forall dest :: FirstWithDest(m, dest) == FirstWithDest([p, b], dest)
    ensures m == [p, b]
  {
    SameByDest(m, [p, b]);
  }

  lemma SharedDestinationOrder(a: TemplateRecord, b: TemplateRecord, p: TemplateRecord)
    requires a.destPath == p.destPath && a.destPath != b.destPath
    ensures DestSeq(MergeTemplates([a, b], [p])) == DestSeq([p, b])
  {
    calc {
      DestSeq(MergeTemplates([a, b], [p]));
    == { MergeOrder([a, b], [p]); }
      Dedup(DestSeq([a, b]) + DestSeq([p]), {});
    == { DestSeqPair(a, b);
         assert DestSeq([p]) == [p.destPath];
         assert [a.destPath, b.destPath] + [p.destPath] == [a.destPath, b.destPath, a.destPath]; }
      Dedup([a.destPath, b.destPath, a.destPath], {});
    == { DedupRepeat(a.destPath, b.destPath); }
      [a.destPath, b.destPath];
    == { DestSeqPair(p, b); }
      DestSeq([p, b]);
    }
  }

  lemma DestSeqPair(x: TemplateRecord, y: TemplateRecord)
    ensures DestSeq([x, y]) == [x.destPath, y.destPath]
  {
    assert DestSeq([x, y])[0] == x.destPath && DestSeq([x, y])[1] == y.destPath;
  }

  lemma SharedDestinationLookup(a: TemplateRecord, b: TemplateRecord, p: TemplateRecord, dest: string)
    requires a.destPath == p.destPath && a.destPath != b.destPath
    ensures FirstWithDest(MergeTemplates([a, b], [p]), dest) == FirstWithDest([p, b], dest)
  {
    MergeLookup([a, b], [p], dest);
    assert [a, b][1..] == [b] && [p, b][1..] == [b] && [p][1..] == [] && [b][1..] == [];
  }

  lemma DedupRepeat(x: string, y: string)
    requires x != y
    ensures Dedup([x, y, x], {}) == [x, y]
  {
    var s := [x, y, x];
    assert s[1..] == [y, x] && [y, x][1..] == [x] && [x][1..] == [];
    assert {} + {x} == {x} && {x} + {y} == {x, y};
    calc {
      Dedup(s, {});
      [x] + Dedup([y, x], {x});
      [x] + ([y] + Dedup([x], {x, y}));
      [x] + ([y] + Dedup([], {x, y}));
      [x, y];
    }
  }

  /** A source `/c/templates/leaf` gets the destination `leaf` stripped
   *  below the root. */
  lemma SourceBelowMarker(o: string, c: char, leaf: string)
    requires NormalRoot(o) && c != 't' && c != Sep
    requires Sep !in leaf && ProperSegment(leaf) && ProperSegment(StripUnderscore(leaf))
    requires forall j :: 0 <= j < |leaf| ==> !LineTerminator(leaf[j])
    ensures WellFormedSource([Sep, c] + Marker + leaf)
    ensures GetDestPath(o, [Sep, c] + Marker + leaf) == Ok(o + [Sep] + StripUnderscore(leaf))
  {
    var file := [Sep, c] + Marker + leaf;
    assert file[2..2 + |Marker|] == Marker;
    assert file[1] == c;
    assert forall j :: 2 + |Marker| <= j < |file| ==> file[j] == leaf[j - 2 - |Marker|];
    MatchAtTwo(file);
    assert Captured(file, 2) == leaf;
    DestLeaf(o, file, 2, leaf);
  }

  /** Its record keeps `/c/templates` as directory and is a template when
   *  the leaf begins with '_'. */
  lemma SourceBelowMarkerRecord(o: string, c: char, leaf: string, dest: string)
    requires Sep !in leaf
    ensures Decorate([Sep, c] + Marker + leaf, dest)
         == TemplateRecord([Sep, c] + Marker + leaf, dest, [Sep, c] + "/templates", IsTemplateName(leaf))
  {
    var dir := [Sep, c] + "/templates";
    assert [Sep, c] + Marker + leaf == dir + [Sep] + leaf;
    LeafAfterSep(dir, leaf);
  }

  /** `mapFilePaths` of two paths with destinations: their two records. */
  lemma MapTwo(o: string, f1: string, f2: string, d1: string, d2: string)
    requires NormalRoot(o) && WellFormedSource(f1) && WellFormedSource(f2)
    requires GetDestPath(o, f1) == Ok(d1) && GetDestPath(o, f2) == Ok(d2)
    ensures MapFilePaths(o, [f1, f2]) == Ok([Decorate(f1, d1), Decorate(f2, d2)])
  {
    PairWellFormed(f1, f2);
    var files := [f1, f2];
    assert FindMatch(files[0], 0).Some? && FindMatch(files[1], 0).Some?;
    assert FirstUnmatched(files) == |files|;
    var r := MapFilePaths(o, files);
    MapFilePathsRecords(o, files, 0);
    MapFilePathsRecords(o, files, 1);
    assert r.value == [Decorate(f1, d1), Decorate(f2, d2)];
  }

  /** `mapFilePaths` of one path with a destination: its record. */
  lemma MapOne(o: string, f: string, d: string)
    requires NormalRoot(o) && WellFormedSource(f)
    requires GetDestPath(o, f) == Ok(d)
    ensures MapFilePaths(o, [f]) == Ok([Decorate(f, d)])
  {
    SingleWellFormed(f);
    var files := [f];
    assert FindMatch(files[0], 0).Some?;
    assert FirstUnmatched(files) == |files|;
    var r := MapFilePaths(o, files);
    MapFilePathsRecords(o, files, 0);
    assert r.value == [Decorate(f, d)];
  }

  /** `/d/templates/_a.txt`, `/d/templates/b.txt` and `/p/templates/_a.txt`. */
  const DefaultTemplate: string := "/d" + Marker + "_a.txt"
  const DefaultPlain: string := "/d" + Marker + "b.txt"
  const PackageTemplate: string := "/p" + Marker + "_a.txt"

  /** A source `/c/templates/leaf` of the scenario, with its record. */
  lemma ScenarioSource(o: string, file: string, c: char, leaf: string, dest: string, dir: string)
    requires o == "/out"
    requires file == [Sep, c] + Marker + leaf && dir == [Sep, c] + "/templates"
    requires (c == 'd' || c == 'p') && (leaf == "_a.txt" || leaf == "b.txt")
    requires dest == o + [Sep] + StripUnderscore(leaf)
    ensures NormalRoot(o) && WellFormedSource(file)
    ensures GetDestPath(o, file) == Ok(dest)
    ensures Decorate(file, dest) == TemplateRecord(file, dest, dir, leaf == "_a.txt")
  {
    OutIsNormalRoot();
    SourceBelowMarker(o, c, leaf);
    SourceBelowMarkerRecord(o, c, leaf, dest);
  }

  lemma DefaultsDecorated(o: string)
    requires o == "/out"
    ensures NormalRoot(o) && WellFormedSource(DefaultTemplate) && WellFormedSource(DefaultPlain)
    ensures MapFilePaths(o, [DefaultTemplate, DefaultPlain]) == Ok([
      TemplateRecord(DefaultTemplate, "/out/a.txt", "/d/templates", true),
      TemplateRecord(DefaultPlain, "/out/b.txt", "/d/templates", false)])
  {
    ScenarioText();
    ScenarioSource(o, DefaultTemplate, 'd', "_a.txt", "/out/a.txt", "/d/templates");
    ScenarioSource(o, DefaultPlain, 'd', "b.txt", "/out/b.txt", "/d/templates");
    MapTwo(o, DefaultTemplate, DefaultPlain, "/out/a.txt", "/out/b.txt");
  }

  lemma PackagesDecorated(o: string)
    requires o == "/out"
    ensures NormalRoot(o) && WellFormedSource(PackageTemplate)
    ensures MapFilePaths(o, [PackageTemplate]) == Ok([
      TemplateRecord(PackageTemplate, "/out/a.txt", "/p/templates", true)])
  {
    ScenarioText();
    ScenarioSource(o, PackageTemplate, 'p', "_a.txt", "/out/a.txt", "/p/templates");
    MapOne(o, PackageTemplate, "/out/a.txt");
  }

  /** The scenario's options pass construction, and its output root is
   *  normal. */
  lemma ScenarioConfig(options: Config, data: JsValue)
    requires options == Config(Str("/p/templates/**"), Str("/d/templates/**"), data, Str("/out"))
    requires Truthy(data)
    ensures New(options) == Ok(options) && ValidOutput(options)
  {
    OutIsNormalRoot();
    forall f: Field ensures Truthy(options.Get(f)) {
      match f
      case PackageTemplatePath => assert options.Get(f).s != "";
      case DefaultTemplatePath => assert options.Get(f).s != "";
      case TemplateData =>
      case OutputPath => assert options.Get(f).s != "";
    }
  }

  /** A template record is rendered and a plain record copied. */
  lemma PlanOfTemplateAndPlain(t: TemplateRecord, c: TemplateRecord, data: JsValue)
    requires t.isTemplate && !c.isTemplate
    ensures Plan([t, c], data) == [Render(t.srcPath, t.destPath, data), Copy(c.dirname, c, c.destPath)]
  {
    var r := Plan([t, c], data);
    assert r[0] == Render(t.srcPath, t.destPath, data);
    assert r[1] == Copy(c.dirname, c, c.destPath);
  }

  /** The default set holds the template `_a.txt` and the plain file
   *  `b.txt`, the package set its own `_a.txt`: the package template is
   *  rendered to `/out/a.txt` and the default `b.txt` copied to
   *  `/out/b.txt`, as `copyFile` is written (the source record's
   *  directory, the record itself as copy source). */
  lemma PackageTemplateOverridesDefault(
    options: Config, defaults: seq<string>, packages: seq<string>, data: JsValue)
    requires options == Config(Str("/p/templates/**"), Str("/d/templates/**"), data, Str("/out"))
    requires Truthy(data)
    requires defaults == [DefaultTemplate, DefaultPlain] && packages == [PackageTemplate]
    ensures ValidOutput(options)
    ensures forall k :: 0 <= k < |defaults| ==> WellFormedSource(defaults[k])
    ensures forall k :: 0 <= k < |packages| ==> WellFormedSource(packages[k])
    ensures Process(options, defaults, packages) == Ok([
      Render(PackageTemplate, "/out/a.txt", data),
      Copy("/d/templates",
           TemplateRecord(DefaultPlain, "/out/b.txt", "/d/templates", false),
           "/out/b.txt")])
  {
    ScenarioConfig(options, data);
    ScenarioTemplates(options, defaults, packages);
    var pa := TemplateRecord(PackageTemplate, "/out/a.txt", "/p/templates", true);
    var rb := TemplateRecord(DefaultPlain, "/out/b.txt", "/d/templates", false);
    PlanOfTemplateAndPlain(pa, rb, data);
  }

  lemma PairWellFormed(d1: string, d2: string)
    requires WellFormedSource(d1) && WellFormedSource(d2)
    ensures forall k :: 0 <= k < |[d1, d2]| ==> WellFormedSource([d1, d2][k])
  {
    forall k | 0 <= k < |[d1, d2]| ensures WellFormedSource([d1, d2][k]) {
      assert [d1, d2][k] == if k == 0 then d1 else d2;
    }
  }

  lemma SingleWellFormed(p1: string)
    requires WellFormedSource(p1)
    ensures forall k :: 0 <= k < |[p1]| ==> WellFormedSource([p1][k])
  {
    forall k | 0 <= k < |[p1]| ensures WellFormedSource([p1][k]) {
      assert [p1][k] == p1;
    }
  }

  /** `findTemplates` of two default paths and one package path whose
   *  record shares its destination with the first default record. */
  lemma FindTemplatesOverridingFirst(
    options: Config, d1: string, d2: string, p1: string,
    ra: TemplateRecord, rb: TemplateRecord, pa: TemplateRecord)
    requires ValidOutput(options)
    requires WellFormedSource(d1) && WellFormedSource(d2) && WellFormedSource(p1)
    requires MapFilePaths(options.outputPath.s, [d1, d2]) == Ok([ra, rb])
    requires MapFilePaths(options.outputPath.s, [p1]) == Ok([pa])
    requires ra.destPath == pa.destPath && ra.destPath != rb.destPath
    ensures forall k :: 0 <= k < |[d1, d2]| ==> WellFormedSource([d1, d2][k])
    ensures forall k :: 0 <= k < |[p1]| ==> WellFormedSource([p1][k])
    ensures FindTemplates(options, [d1, d2], [p1]) == Ok([pa, rb])
  {
    PairWellFormed(d1, d2);
    SingleWellFormed(p1);
    calc {
      FindTemplates(options, [d1, d2], [p1]);
    == { FindTemplatesMerges(options, [d1, d2], [p1], [ra, rb], [pa]); }
      Ok(MergeTemplates([ra, rb], [pa]));
    == { PackageReplacesSharedDestination(ra, rb, pa); }
      Ok([pa, rb]);
    }
  }

  /** `findTemplates` of the scenario: the package `_a.txt`, then the
   *  default `b.txt`. */
  lemma ScenarioTemplates(options: Config, defaults: seq<string>, packages: seq<string>)
    requires options.outputPath == Str("/out")
    requires defaults == [DefaultTemplate, DefaultPlain] && packages == [PackageTemplate]
    ensures ValidOutput(options)
    ensures forall k :: 0 <= k < |defaults| ==> WellFormedSource(defaults[k])
    ensures forall k :: 0 <= k < |packages| ==> WellFormedSource(packages[k])
    ensures FindTemplates(options, defaults, packages) == Ok([
      TemplateRecord(PackageTemplate, "/out/a.txt", "/p/templates", true),
      TemplateRecord(DefaultPlain, "/out/b.txt", "/d/templates", false)])
  {
    DefaultsDecorated(options.outputPath.s);
    PackagesDecorated(options.outputPath.s);
    FindTemplatesOverridingFirst(options, DefaultTemplate, DefaultPlain, PackageTemplate,
      TemplateRecord(DefaultTemplate, "/out/a.txt", "/d/templates", true),
      TemplateRecord(DefaultPlain, "/out/b.txt", "/d/templates", false),
      TemplateRecord(PackageTemplate, "/out/a.txt", "/p/templates", true));
  }

  lemma ScenarioText()
    ensures ['/', 'd'] + "/templates" == "/d/templates"
    ensures ['/', 'p'] + "/templates" == "/p/templates"
    ensures "/out" + [Sep] + StripUnderscore("_a.txt") == "/out/a.txt"
    ensures "/out" + [Sep] + StripUnderscore("b.txt") == "/out/b.txt"
  {
  }
}
