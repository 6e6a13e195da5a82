/** `mergeTemplates` (index.js lines 43-52): the package records override
 *  the default records that share their destination, and every
 *  destination is kept once. */
module Merging {
  import opened Wrappers
  import opened Records

  /** lodash `uniq` with a set of values already seen: the first
   *  occurrence of each value, in order. */
  function Dedup<T(==)>(s: seq<T>, seen: set<T>): (r: seq<T>)
    ensures forall x :: x in r ==> x in s && x !in seen
    ensures forall x :: x in s && x !in seen ==> x in r
    ensures forall i, j :: 0 <= i < j < |r| ==> r[i] != r[j]
    decreases |s|
  {
    if s == [] then []
    else if s[0] in seen then Dedup(s[1..], seen)
    else [s[0]] + Dedup(s[1..], seen + {s[0]})
  }

  /** `union(defaultTemplates, packageTemplates)`: both lists, defaults
   *  first, each value once. */
  function Union(defaults: seq<TemplateRecord>, packages: seq<TemplateRecord>): (r: seq<TemplateRecord>)
    ensures forall x :: x in r <==> x in defaults || x in packages
  {
    Dedup(defaults + packages, {})
  }

  /** The callback of the `map` step: the first package record with the
   *  same destination, or the record itself when there is none. */
  function PreferPackage(t: TemplateRecord, packages: seq<TemplateRecord>): (r: TemplateRecord)
    ensures r.destPath == t.destPath
    ensures t.destPath in DestSeq(packages) ==> Some(r) == FirstWithDest(packages, t.destPath)
    ensures t.destPath !in DestSeq(packages) ==> r == t
  {
    match FirstWithDest(packages, t.destPath)
    case Some(p) => p
    case None => t
  }

  /** The `map` step over the whole union. */
  function Override(u: seq<TemplateRecord>, packages: seq<TemplateRecord>): (r: seq<TemplateRecord>)
    ensures |r| == |u|
    ensures forall i :: 0 <= i < |u| ==> r[i] == PreferPackage(u[i], packages)
    ensures DestSeq(r) == DestSeq(u)
    ensures forall x :: x in r ==> x in u || x in packages
  {
    if u == [] then [] else [PreferPackage(u[0], packages)] + Override(u[1..], packages)
  }

  /** lodash `uniqBy(s, "destPath")` with a set of destinations already
   *  seen: the first record for each destination, in order. */
  function UniqByDestFrom(s: seq<TemplateRecord>, seen: set<string>): (r: seq<TemplateRecord>)
    ensures DistinctDests(r)
    ensures forall x :: x in r ==> x in s && x.destPath !in seen
    decreases |s|
  {
    if s == [] then []
    else if s[0].destPath in seen then UniqByDestFrom(s[1..], seen)
    else [s[0]] + UniqByDestFrom(s[1..], seen + {s[0].destPath})
  }

  /** `uniqBy(s, "destPath")`: the first record for each destination, in
   *  the order the destinations first occur. */
  function UniqByDest(s: seq<TemplateRecord>): (r: seq<TemplateRecord>)
    ensures DistinctDests(r)
    ensures DestSeq(r) == Dedup(DestSeq(s), {})
    ensures forall x :: x in r ==> x in s
  {
    UniqByDestOrder(s, {});
    UniqByDestFrom(s, {})
  }

  /** `mergeTemplates({ defaultTemplates, packageTemplates })`. */
  function MergeTemplates(defaults: seq<TemplateRecord>, packages: seq<TemplateRecord>): (r: seq<TemplateRecord>)
    ensures DistinctDests(r)
    ensures forall x :: x in r ==> x in defaults || x in packages
  {
    UniqByDest(Override(Union(defaults, packages), packages))
  }

  // Properties of the three steps.

  /** The destinations uniqBy keeps are those of `s` in first-occurrence order. */
  lemma {:induction false} UniqByDestOrder(s: seq<TemplateRecord>, seen: set<string>)
    ensures DestSeq(UniqByDestFrom(s, seen)) == Dedup(DestSeq(s), seen)
    decreases |s|
  {
    if s != [] {
      UniqByDestOrder(s[1..], seen + if s[0].destPath in seen then {} else {s[0].destPath});
      assert DestSeq(s)[1..] == DestSeq(s[1..]);
      assert seen + {} == seen;
    }
  }

  /** The record uniqBy keeps for a destination is the first one in `s`. */
  lemma {:induction false} UniqByDestLookup(s: seq<TemplateRecord>, seen: set<string>, dest: string)
    ensures FirstWithDest(UniqByDestFrom(s, seen), dest)
         == if dest in seen then None else FirstWithDest(s, dest)
    decreases |s|
  {
    if s != [] {
      if s[0].destPath in seen {
        UniqByDestLookup(s[1..], seen, dest);
      } else if s[0].destPath != dest {
        UniqByDestLookup(s[1..], seen + {s[0].destPath}, dest);
      }
    }
  }

  /** After the `map` step a destination that the package list has
   *  resolves to the first package record with it. */
  lemma {:induction false} OverrideLookup(u: seq<TemplateRecord>, packages: seq<TemplateRecord>, dest: string)
    ensures FirstWithDest(Override(u, packages), dest)
         == if dest in DestSeq(u) && dest in DestSeq(packages)
            then FirstWithDest(packages, dest)
            else FirstWithDest(u, dest)
  {
    if u != [] && u[0].destPath != dest {
      OverrideLookup(u[1..], packages, dest);
    }
  }

  /** Deduplicating the union by value changes nothing once the merge has
   *  deduplicated by destination: lodash's union compares objects by
   *  identity, and every record is a fresh object, so in the program the
   *  union is plain concatenation. Both give the same merge. */
  lemma {:induction false} DedupBeforeOverride(
    s: seq<TemplateRecord>, seenValues: set<TemplateRecord>,
    packages: seq<TemplateRecord>, seenDests: set<string>)
    requires forall v :: v in seenValues ==> v.destPath in seenDests
    ensures UniqByDestFrom(Override(Dedup(s, seenValues), packages), seenDests)
         == UniqByDestFrom(Override(s, packages), seenDests)
    decreases |s|
  {
    if s != [] {
      var rest := Dedup(s[1..], seenValues + {s[0]});
      var p0 := PreferPackage(s[0], packages);
      if s[0] in seenValues {
        DedupBeforeOverride(s[1..], seenValues, packages, seenDests);
      } else if s[0].destPath in seenDests {
        assert Override([s[0]] + rest, packages) == [p0] + Override(rest, packages);
        DedupBeforeOverride(s[1..], seenValues + {s[0]}, packages, seenDests);
      } else {
        assert Override([s[0]] + rest, packages) == [p0] + Override(rest, packages);
        DedupBeforeOverride(s[1..], seenValues + {s[0]}, packages, seenDests + {s[0].destPath});
      }
    }
  }

  lemma UnionByValueIsConcat(defaults: seq<TemplateRecord>, packages: seq<TemplateRecord>)
    ensures MergeTemplates(defaults, packages) == UniqByDest(Override(defaults + packages, packages))
  {
    DedupBeforeOverride(defaults + packages, {}, packages, {});
  }

  lemma {:induction false} OverrideWithoutPackages(u: seq<TemplateRecord>)
    ensures Override(u, []) == u
  {
    if u != [] {
      OverrideWithoutPackages(u[1..]);
    }
  }

  lemma {:induction false} DedupAllSeen<T>(b: seq<T>, seen: set<T>)
    requires forall x :: x in b ==> x in seen
    ensures Dedup(b, seen) == []
    decreases |b|
  {
    if b != [] {
      assert b[0] in b;
      DedupAllSeen(b[1..], seen);
    }
  }

  /** Deduplicating a list of distinct values followed by values already
   *  in it, or already seen, gives the list back. */
  lemma {:induction false} DedupAbsorbs<T>(a: seq<T>, b: seq<T>, seen: set<T>)
    requires forall i, j :: 0 <= i < j < |a| ==> a[i] != a[j]
    requires forall x :: x in a ==> x !in seen
    requires forall x :: x in b ==> x in a || x in seen
    ensures Dedup(a + b, seen) == a
    decreases |a|
  {
    if a == [] {
      assert a + b == b;
      DedupAllSeen(b, seen);
    } else {
      assert (a + b)[1..] == a[1..] + b;
      forall x | x in a[1..] ensures x !in seen + {a[0]} {
        var i :| 0 <= i < |a[1..]| && a[1..][i] == x;
        assert a[i + 1] == x;
      }
      DedupAbsorbs(a[1..], b, seen + {a[0]});
    }
  }

  /** Two merge results with distinct destinations are equal when they
   *  list the same destinations in the same order and keep the same
   *  record for each. */
  lemma SameByDest(a: seq<TemplateRecord>, b: seq<TemplateRecord>)
    requires DistinctDests(a) && DistinctDests(b)
    requires DestSeq(a) == DestSeq(b)
    requires forall dest :: FirstWithDest(a, dest) == FirstWithDest(b, dest)
    ensures a == b
  {
    forall i | 0 <= i < |a| ensures a[i] == b[i] {
      assert DestSeq(a)[i] == DestSeq(b)[i];
      FirstWithDestOfDistinct(a, a[i]);
      FirstWithDestOfDistinct(b, b[i]);
      assert FirstWithDest(a, a[i].destPath) == FirstWithDest(b, a[i].destPath);
    }
  }

  // Properties of mergeTemplates.

  /** Precedence: for a destination the package list has, the merge keeps
   *  the first package record with it, whatever the defaults hold; for any
   *  other destination it keeps the first default record with it. */
  lemma MergeLookup(defaults: seq<TemplateRecord>, packages: seq<TemplateRecord>, dest: string)
    ensures FirstWithDest(MergeTemplates(defaults, packages), dest)
         == if dest in DestSeq(packages)
            then FirstWithDest(packages, dest)
            else FirstWithDest(defaults, dest)
  {
    UnionByValueIsConcat(defaults, packages);
    UniqByDestLookup(Override(defaults + packages, packages), {}, dest);
    OverrideLookup(defaults + packages, packages, dest);
    DestSeqAppend(defaults, packages);
    FirstWithDestAppend(defaults, packages, dest);
  }

  /** Order: the merged destinations are those of the defaults followed by
   *  the packages, each at its first occurrence. */
  lemma MergeOrder(defaults: seq<TemplateRecord>, packages: seq<TemplateRecord>)
    ensures DestSeq(MergeTemplates(defaults, packages)) == Dedup(DestSeq(defaults) + DestSeq(packages), {})
  {
    UnionByValueIsConcat(defaults, packages);
    UniqByDestOrder(Override(defaults + packages, packages), {});
    DestSeqAppend(defaults, packages);
  }

  /** Nothing lost, nothing invented: the merged destinations are exactly
   *  those of the two inputs. */
  lemma MergeDestinations(defaults: seq<TemplateRecord>, packages: seq<TemplateRecord>)
    ensures forall dest :: dest in DestSeq(MergeTemplates(defaults, packages))
                        <==> dest in DestSeq(defaults) || dest in DestSeq(packages)
  {
    MergeOrder(defaults, packages);
  }

  /** A record is in the merge exactly when it is the winner for its own
   *  destination. */
  lemma MergeMembers(defaults: seq<TemplateRecord>, packages: seq<TemplateRecord>, x: TemplateRecord)
    ensures x in MergeTemplates(defaults, packages)
        <==> Some(x) == if x.destPath in DestSeq(packages)
                        then FirstWithDest(packages, x.destPath)
                        else FirstWithDest(defaults, x.destPath)
  {
    var merged := MergeTemplates(defaults, packages);
    MergeLookup(defaults, packages, x.destPath);
    if x in merged {
      FirstWithDestOfDistinct(merged, x);
    }
  }

  /** Every merged record is a package record, or a default record whose
   *  destination no package record has. */
  lemma MergeFromInputs(defaults: seq<TemplateRecord>, packages: seq<TemplateRecord>, x: TemplateRecord)
    requires x in MergeTemplates(defaults, packages)
    ensures x in packages || (x in defaults && x.destPath !in DestSeq(packages))
  {
    MergeMembers(defaults, packages, x);
  }

  /** Without package records the merge is uniqBy of the defaults. */
  lemma MergeWithoutPackages(defaults: seq<TemplateRecord>)
    ensures MergeTemplates(defaults, []) == UniqByDest(defaults)
  {
    UnionByValueIsConcat(defaults, []);
    assert defaults + [] == defaults;
    OverrideWithoutPackages(defaults);
  }

  /** Without default records the merge is uniqBy of the packages. */
  lemma MergeWithoutDefaults(packages: seq<TemplateRecord>)
    ensures MergeTemplates([], packages) == UniqByDest(packages)
  {
    var merged := MergeTemplates([], packages);
    MergeOrder([], packages);
    UniqByDestOrder(packages, {});
    assert DestSeq([]) + DestSeq(packages) == DestSeq(packages);
    forall dest ensures FirstWithDest(merged, dest) == FirstWithDest(UniqByDest(packages), dest) {
      MergeLookup([], packages, dest);
      UniqByDestLookup(packages, {}, dest);
    }
    SameByDest(merged, UniqByDest(packages));
  }

  /** Restricted to the destinations the package list has, the merge holds
   *  exactly the records of the packages' own uniqBy. */
  lemma MergeRestrictedToPackages(defaults: seq<TemplateRecord>, packages: seq<TemplateRecord>, x: TemplateRecord)
    ensures (x in MergeTemplates(defaults, packages) && x.destPath in DestSeq(packages))
        <==> x in UniqByDest(packages)
  {
    MergeMembers(defaults, packages, x);
    UniqByDestLookup(packages, {}, x.destPath);
    if x in UniqByDest(packages) {
      FirstWithDestOfDistinct(UniqByDest(packages), x);
    }
  }

  /** Merging the same package records a second time changes nothing. */
  lemma MergeIdempotent(defaults: seq<TemplateRecord>, packages: seq<TemplateRecord>)
    ensures MergeTemplates(MergeTemplates(defaults, packages), packages)
         == MergeTemplates(defaults, packages)
  {
    var merged := MergeTemplates(defaults, packages);
    var again := MergeTemplates(merged, packages);
    MergeOrder(merged, packages);
    MergeDestinations(defaults, packages);
    var order := DestSeq(merged);
    forall i, j | 0 <= i < j < |order| ensures order[i] != order[j] {
      assert order[i] == merged[i].destPath && order[j] == merged[j].destPath;
    }
    DedupAbsorbs(order, DestSeq(packages), {});
    forall dest ensures FirstWithDest(again, dest) == FirstWithDest(merged, dest) {
      MergeLookup(merged, packages, dest);
      MergeLookup(defaults, packages, dest);
    }
    SameByDest(again, merged);
  }
}
