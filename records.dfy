/** The record mapFilePaths builds for every discovered file, and lookups
 *  by destination. */
module Records {
  import opened Wrappers

  /** `{ srcPath, destPath, dirname, isTemplate }`; `destPath` is the
   *  identity the merge deduplicates on. */
  datatype TemplateRecord = TemplateRecord(
    srcPath: string,
    destPath: string,
    dirname: string,
    isTemplate: bool)

  /** The destinations of `s`, in order. */
  function DestSeq(s: seq<TemplateRecord>): (r: seq<string>)
    ensures |r| == |s|
    ensures forall i :: 0 <= i < |s| ==> r[i] == s[i].destPath
  {
    if s == [] then [] else [s[0].destPath] + DestSeq(s[1..])
  }

  /** No two records of `s` write the same destination. */
  predicate DistinctDests(s: seq<TemplateRecord>) {
    forall i, j :: 0 <= i < j < |s| ==> s[i].destPath != s[j].destPath
  }

  /** `find(s, { destPath: dest })`: the first record of `s` with that
   *  destination. */
  function FirstWithDest(s: seq<TemplateRecord>, dest: string): (r: Option<TemplateRecord>)
    ensures r.None? <==> dest !in DestSeq(s)
    ensures r.Some? ==> r.value in s && r.value.destPath == dest
  {
    if s == [] then None
    else if s[0].destPath == dest then Some(s[0])
    else FirstWithDest(s[1..], dest)
  }

  /** FirstWithDest finds the record at the first index with that destination. */
  lemma {:induction false} FirstWithDestIsFirst(s: seq<TemplateRecord>, i: nat)
    requires i < |s|
    requires forall j :: 0 <= j < i ==> s[j].destPath != s[i].destPath
    ensures FirstWithDest(s, s[i].destPath) == Some(s[i])
  {
    if i > 0 {
      FirstWithDestIsFirst(s[1..], i - 1);
    }
  }

  /** In a sequence with distinct destinations every record is found by its own. */
  lemma FirstWithDestOfDistinct(s: seq<TemplateRecord>, x: TemplateRecord)
    requires DistinctDests(s) && x in s
    ensures FirstWithDest(s, x.destPath) == Some(x)
  {
    var i :| 0 <= i < |s| && s[i] == x;
    FirstWithDestIsFirst(s, i);
  }

  lemma {:induction false} DestSeqAppend(a: seq<TemplateRecord>, b: seq<TemplateRecord>)
    ensures DestSeq(a + b) == DestSeq(a) + DestSeq(b)
  {
    if a != [] {
      assert (a + b)[1..] == a[1..] + b;
      DestSeqAppend(a[1..], b);
    }
  }

  /** Looking up in `a + b` looks in `a` first. */
  lemma {:induction false} FirstWithDestAppend(a: seq<TemplateRecord>, b: seq<TemplateRecord>, dest: string)
    ensures FirstWithDest(a + b, dest)
         == if dest in DestSeq(a) then FirstWithDest(a, dest) else FirstWithDest(b, dest)
  {
    if a != [] {
      assert (a + b)[1..] == a[1..] + b;
      FirstWithDestAppend(a[1..], b, dest);
    } else {
      assert a + b == b;
    }
  }
}
