/**
What the retention cap removes, for every directory listing order
(cli/launcher/src/launch/outbound/resolve/cache.rs).
*/
module CacheRetention {
  import opened Wrappers
  import opened CacheNames
  import opened CacheDirectory

  /** The entries retention counts for a name. */
  function Matching(dir: Dir, name: string): set<string> {
    set file | file in dir && IsRetained(file, name)
  }

  ghost predicate IsDistinct(files: seq<string>) {
    forall i, j | 0 <= i < j < |files| :: files[i] != files[j]
  }

  ghost function Elements(files: seq<string>): set<string> {
    set file | file in files
  }

  lemma {:induction false} DistinctSize(files: seq<string>)
    requires IsDistinct(files)
    ensures |Elements(files)| == |files|
  {
    if files != [] {
      DistinctSize(files[1..]);
      assert Elements(files) == Elements(files[1..]) + {files[0]};
    }
  }

  // ---- Filtering and sorting ----

  lemma {:induction false} RetainedFacts(listing: seq<string>, name: string)
    ensures forall file :: file in Retained(listing, name) <==> file in listing && IsRetained(file, name)
    ensures IsDistinct(listing) ==> IsDistinct(Retained(listing, name))
  {
    if listing != [] {
      RetainedFacts(listing[1..], name);
      if IsDistinct(listing) {
        assert IsDistinct(listing[1..]);
        assert listing[0] !in listing[1..];
      }
    }
  }

  lemma {:induction false} RetainedAppend(a: seq<string>, b: seq<string>, name: string)
    ensures Retained(a + b, name) == Retained(a, name) + Retained(b, name)
  {
    if a == [] {
      assert a + b == b;
    } else {
      assert (a + b)[1..] == a[1..] + b;
      RetainedAppend(a[1..], b, name);
    }
  }

  ghost predicate IsSorted(dir: Dir, files: seq<string>) {
    forall i, j | 0 <= i < j < |files| :: Modified(dir, files[i]) <= Modified(dir, files[j])
  }

  lemma {:induction false} PlaceFacts(dir: Dir, file: string, sorted: seq<string>)
    ensures forall other :: other in Place(dir, file, sorted) <==> other == file || other in sorted
    ensures |Place(dir, file, sorted)| == |sorted| + 1
    ensures IsSorted(dir, sorted) ==> IsSorted(dir, Place(dir, file, sorted))
  {
    if sorted != [] && Modified(dir, file) > Modified(dir, sorted[0]) {
      var rest := sorted[1..];
      PlaceFacts(dir, file, rest);
      var placed := Place(dir, file, rest);
      assert forall other :: other in sorted <==> other == sorted[0] || other in rest;
      if IsSorted(dir, sorted) {
        assert IsSorted(dir, rest);
        forall j | 0 <= j < |placed| ensures Modified(dir, sorted[0]) <= Modified(dir, placed[j]) {
          assert placed[j] in placed;
        }
      }
    }
  }

  lemma {:induction false} PlaceKeepsDistinct(dir: Dir, file: string, sorted: seq<string>)
    requires IsDistinct(sorted) && file !in sorted
    ensures IsDistinct(Place(dir, file, sorted))
  {
    if sorted != [] && Modified(dir, file) > Modified(dir, sorted[0]) {
      var rest := sorted[1..];
      assert IsDistinct(rest) && sorted[0] !in rest;
      PlaceKeepsDistinct(dir, file, rest);
      PlaceFacts(dir, file, rest);
      assert sorted[0] !in Place(dir, file, rest);
    }
  }

  lemma {:induction false} SortFacts(dir: Dir, files: seq<string>)
    ensures forall file :: file in SortByModified(dir, files) <==> file in files
    ensures |SortByModified(dir, files)| == |files|
    ensures IsSorted(dir, SortByModified(dir, files))
    ensures IsDistinct(files) ==> IsDistinct(SortByModified(dir, files))
  {
    if files != [] {
      SortFacts(dir, files[1..]);
      PlaceFacts(dir, files[0], SortByModified(dir, files[1..]));
      if IsDistinct(files) {
        assert IsDistinct(files[1..]) && files[0] !in files[1..];
        PlaceKeepsDistinct(dir, files[0], SortByModified(dir, files[1..]));
      }
    }
  }

  ghost predicate AllNotNewer(dir: Dir, a: seq<string>, b: seq<string>) {
    forall i, j | 0 <= i < |a| && 0 <= j < |b| :: Modified(dir, a[i]) <= Modified(dir, b[j])
  }

  lemma {:induction false} PlaceBefore(dir: Dir, file: string, a: seq<string>, b: seq<string>)
    requires AllNotNewer(dir, [file], b)
    ensures Place(dir, file, a + b) == Place(dir, file, a) + b
  {
    if a == [] {
      assert a + b == b;
      if b != [] {
        assert Modified(dir, [file][0]) <= Modified(dir, b[0]);
      }
    } else {
      assert (a + b)[1..] == a[1..] + b && (a + b)[0] == a[0];
      if Modified(dir, file) <= Modified(dir, a[0]) {
        assert [file] + (a + b) == ([file] + a) + b;
      } else {
        PlaceBefore(dir, file, a[1..], b);
        var rest := Place(dir, file, a[1..]);
        assert [a[0]] + (rest + b) == ([a[0]] + rest) + b;
      }
    }
  }

  /** Listing the older ones first sorts them in front, ties included. */
  lemma {:induction false} SortAppend(dir: Dir, a: seq<string>, b: seq<string>)
    requires AllNotNewer(dir, a, b)
    ensures SortByModified(dir, a + b) == SortByModified(dir, a) + SortByModified(dir, b)
  {
    if a == [] {
      assert a + b == b;
    } else {
      assert (a + b)[1..] == a[1..] + b;
      SortAppend(dir, a[1..], b);
      SortFacts(dir, b);
      var sorted := SortByModified(dir, b);
      forall j | 0 <= j < |sorted| ensures Modified(dir, a[0]) <= Modified(dir, sorted[j]) {
        assert sorted[j] in b;
      }
      PlaceBefore(dir, a[0], SortByModified(dir, a[1..]), sorted);
    }
  }

  // ---- The effect of retention ----

  function SignaturesOf(stems: set<string>): set<string> {
    set stem | stem in stems :: SignatureName(stem)
  }

  lemma {:induction false} RemoveEntriesIs(dir: Dir, victims: seq<string>, stays: set<string>)
    ensures RemoveEntries(dir, victims, stays) == dir - (Elements(victims) + SignaturesOf(Elements(victims)) - stays)
  {
    if victims != [] {
      var first := victims[0];
      RemoveEntriesIs(Evicted(dir, first, stays), victims[1..], stays);
      assert Elements(victims) == {first} + Elements(victims[1..]);
    }
  }

  /** The front of a sorted list is not newer than the rest of it. */
  lemma FrontIsOldest(dir: Dir, sorted: seq<string>, n: nat, v: string, k: string)
    requires IsSorted(dir, sorted) && n <= |sorted| && v in sorted[..n] && k in sorted && k !in sorted[..n]
    ensures Modified(dir, v) <= Modified(dir, k)
  {
    var front := sorted[..n];
    assert forall m | 0 <= m < n :: sorted[m] == front[m] && front[m] in front;
    var i :| 0 <= i < n && front[i] == v;
    var j :| 0 <= j < |sorted| && sorted[j] == k;
  }

  lemma FrontSize(sorted: seq<string>, n: nat)
    requires IsDistinct(sorted) && n <= |sorted|
    ensures |Elements(sorted[..n])| == n && Elements(sorted[..n]) <= Elements(sorted)
  {
    DistinctSize(sorted[..n]);
  }

  /** The listing, filtered and sorted, holds each entry of the name once. */
  lemma SortedMatching(dir: Dir, listing: seq<string>, name: string) returns (sorted: seq<string>)
    requires Lists(listing, dir)
    ensures sorted == SortByModified(dir, Retained(listing, name))
    ensures IsSorted(dir, sorted) && IsDistinct(sorted) && Elements(sorted) == Matching(dir, name)
    ensures |sorted| == |Matching(dir, name)|
  {
    RetainedFacts(listing, name);
    SortFacts(dir, Retained(listing, name));
    sorted := SortByModified(dir, Retained(listing, name));
    assert Elements(sorted) == Matching(dir, name);
    DistinctSize(sorted);
  }

  /** The victims are the oldest entries beyond the cap. */
  lemma VictimsFacts(dir: Dir, listing: seq<string>, name: string, cap: nat)
    requires Lists(listing, dir)
    ensures var victims := Elements(Victims(dir, listing, name, cap));
            var all := Matching(dir, name);
            && victims <= all
            && |victims| == (if |all| <= cap then 0 else |all| - cap)
            && forall v, k | v in victims && k in all - victims :: dir[v].modified <= dir[k].modified
  {
    var sorted := SortedMatching(dir, listing, name);
    var n := if |sorted| <= cap then 0 else |sorted| - cap;
    assert Victims(dir, listing, name, cap) == sorted[..n];
    FrontSize(sorted, n);
    forall v, k | v in Elements(sorted[..n]) && k in Matching(dir, name) - Elements(sorted[..n])
      ensures dir[v].modified <= dir[k].modified
    {
      assert k in Elements(sorted);
      FrontIsOldest(dir, sorted, n, v, k);
    }
  }

  /**
  Whatever the listing order: the entries chosen are the oldest beyond the cap, none newer
  than an entry that is not; exactly they and their signatures go, as far as they can be
  removed; and if all of them can, exactly min(n, cap) of the n entries remain.
  */
  lemma RetentionEffect(dir: Dir, listing: seq<string>, name: string, cap: nat, stays: set<string>)
      returns (chosen: set<string>)
    requires Lists(listing, dir)
    ensures chosen == Elements(Victims(dir, listing, name, cap)) && chosen <= Matching(dir, name)
    ensures forall v, k | v in chosen && k in Matching(dir, name) - chosen :: dir[v].modified <= dir[k].modified
    ensures var dir' := RemoveEntries(dir, Victims(dir, listing, name, cap), stays);
            var after, n := Matching(dir', name), |Matching(dir, name)|;
            && dir' == dir - (chosen + SignaturesOf(chosen) - stays)
            && after == Matching(dir, name) - (chosen - stays)
            && (chosen !! stays ==> |after| == if n <= cap then n else cap)
  {
    var victims := Victims(dir, listing, name, cap);
    chosen := Elements(victims);
    VictimsFacts(dir, listing, name, cap);
    RemoveEntriesIs(dir, victims, stays);
    MatchingAfter(dir, victims, name, stays);
    assert |Matching(dir, name) - chosen| == |Matching(dir, name)| - |chosen|;
    assert chosen !! stays ==> chosen - stays == chosen;
  }

  lemma MatchingAfter(dir: Dir, victims: seq<string>, name: string, stays: set<string>)
    requires Elements(victims) <= Matching(dir, name)
    ensures Matching(RemoveEntries(dir, victims, stays), name) == Matching(dir, name) - (Elements(victims) - stays)
  {
    RemoveEntriesIs(dir, victims, stays);
    forall v | v in victims ensures !IsRetained(SignatureName(v), name) {
      SuffixIsNotStem(v);
      if IsRetained(SignatureName(v), name) {
        RetainedIsStem(SignatureName(v), name);
      }
    }
  }

  /** No entry that went is newer than one that is left, as far as that could have been removed too. */
  ghost predicate OldestWent(dir: Dir, dir': Dir, name: string, stays: set<string>) {
    forall gone, kept | gone in Matching(dir, name) - Matching(dir', name)
      && kept in Matching(dir, name) * Matching(dir', name) && kept !in stays ::
        dir[gone].modified <= dir[kept].modified
  }

  /** A file of an entry of this name, as retention counts them, or of its signature. */
  ghost predicate IsOfName(file: string, name: string) {
    IsRetained(file, name) || exists entry :: IsRetained(entry, name) && file == SignatureName(entry)
  }

  ghost predicate OnlyEntriesWent(dir: Dir, dir': Dir, name: string) {
    && (forall file | file in dir' :: file in dir && dir'[file] == dir[file])
    && (forall file | file in dir && file !in dir' :: IsOfName(file, name))
  }

  /** The outcome in terms of the directory before and after alone. */
  lemma RetentionOutcome(dir: Dir, listing: seq<string>, name: string, cap: nat, stays: set<string>)
    requires Lists(listing, dir)
    ensures var dir' := RemoveEntries(dir, Victims(dir, listing, name, cap), stays);
            && OldestWent(dir, dir', name, stays) && OnlyEntriesWent(dir, dir', name)
            && Matching(dir', name) <= Matching(dir, name)
            && (stays == {} ==>
                  |Matching(dir', name)| == if |Matching(dir, name)| <= cap then |Matching(dir, name)| else cap)
  {
    var chosen := RetentionEffect(dir, listing, name, cap, stays);
    var dir' := RemoveEntries(dir, Victims(dir, listing, name, cap), stays);
    ChosenWent(dir, dir', chosen, name, stays);
    OldestChosen(dir, dir', chosen, name, stays);
  }

  lemma ChosenWent(dir: Dir, dir': Dir, chosen: set<string>, name: string, stays: set<string>)
    requires chosen <= Matching(dir, name) && dir' == dir - (chosen + SignaturesOf(chosen) - stays)
    ensures OnlyEntriesWent(dir, dir', name)
  {
    forall file | file in dir && file !in dir' ensures IsOfName(file, name) {
      assert file in chosen || file in SignaturesOf(chosen);
    }
  }

  lemma OldestChosen(dir: Dir, dir': Dir, chosen: set<string>, name: string, stays: set<string>)
    requires chosen <= Matching(dir, name) && Matching(dir', name) == Matching(dir, name) - (chosen - stays)
    requires forall v, k | v in chosen && k in Matching(dir, name) - chosen :: dir[v].modified <= dir[k].modified
    ensures OldestWent(dir, dir', name, stays)
  {
  }

  // ---- Which entries are safe ----

  /** The other entries of the name that are not older than this one. */
  function NotOlder(dir: Dir, name: string, file: string): set<string>
    requires file in dir
  {
    set other | other in Matching(dir, name) && other != file && dir[other].modified >= dir[file].modified
  }

  lemma {:induction false} ListOf(files: set<string>) returns (list: seq<string>)
    ensures IsDistinct(list) && Elements(list) == files
    decreases |files|
  {
    if files == {} {
      list := [];
      assert Elements(list) == {};
    } else {
      var file :| file in files;
      var rest := ListOf(files - {file});
      assert file !in Elements(rest);
      list := [file] + rest;
      assert Elements(list) == {file} + Elements(rest);
    }
  }

  lemma {:induction false} Newest(dir: Dir, files: set<string>) returns (newest: string)
    requires files != {} && files <= dir.Keys
    ensures newest in files && forall file | file in files :: dir[file].modified <= dir[newest].modified
    decreases |files|
  {
    newest :| newest in files;
    var rest := files - {newest};
    if rest == {} {
      assert forall file | file in files :: file in rest || file == newest;
    } else {
      var other := Newest(dir, rest);
      if dir[other].modified > dir[newest].modified {
        newest := other;
      }
    }
  }

  /** Some `k` of the files that are newest among them. */
  lemma {:induction false} TopOf(dir: Dir, files: set<string>, k: nat) returns (top: set<string>)
    requires files <= dir.Keys && k <= |files|
    ensures top <= files && |top| == k
    ensures forall a, b | a in files - top && b in top :: dir[a].modified <= dir[b].modified
    decreases k
  {
    if k == 0 {
      top := {};
    } else {
      var newest := Newest(dir, files);
      var rest := TopOf(dir, files - {newest}, k - 1);
      top := rest + {newest};
    }
  }

  /** A listing in which the files outside `top` come first. */
  lemma ListAround(dir: Dir, top: set<string>) returns (front: seq<string>, back: seq<string>)
    requires top <= dir.Keys
    ensures Lists(front + back, dir) && Elements(back) == top && Elements(front) == dir.Keys - top
    ensures IsDistinct(front) && IsDistinct(back)
  {
    front := ListOf(dir.Keys - top);
    back := ListOf(top);
    var listing := front + back;
    forall i, j | 0 <= i < j < |listing| ensures listing[i] != listing[j] {
      if i < |front| <= j {
        assert listing[i] in Elements(front) && listing[j] in Elements(back);
      }
    }
    assert forall file :: file in listing <==> file in Elements(front) || file in Elements(back);
  }

  /** With enough entries not older than it, some listing order makes the entry a victim. */
  lemma SomeListingRemoves(dir: Dir, name: string, cap: nat, file: string) returns (listing: seq<string>)
    requires file in Matching(dir, name) && |NotOlder(dir, name, file)| >= cap
    ensures Lists(listing, dir) && file in Victims(dir, listing, name, cap)
  {
    var top := TopOf(dir, NotOlder(dir, name, file), cap);
    var front, back := ListAround(dir, top);
    listing := front + back;
    RetainedAppend(front, back, name);
    RetainedFacts(front, name);
    RetainedFacts(back, name);
    var older, newer := Retained(front, name), Retained(back, name);
    assert Elements(newer) == top;
    DistinctSize(newer);
    forall i, j | 0 <= i < |older| && 0 <= j < |newer|
      ensures Modified(dir, older[i]) <= Modified(dir, newer[j])
    {
      assert older[i] in older && newer[j] in newer;
      assert older[i] in Elements(front) && newer[j] in top;
    }
    SortAppend(dir, older, newer);
    SortFacts(dir, older);
    SortFacts(dir, newer);
    assert file in Elements(front) && file in older;
    var all := SortByModified(dir, older + newer);
    assert all[..|older|] == SortByModified(dir, older);
  }

  /** No listing order makes the entry a victim. */
  ghost predicate AlwaysSurvives(dir: Dir, name: string, cap: nat, file: string) {
    forall listing | Lists(listing, dir) :: file !in Victims(dir, listing, name, cap)
  }

  /**
  An entry survives every run of retention exactly when fewer than `cap` other entries
  are as new as it is or newer. In particular the newest is safe only against ties.
  */
  lemma SurvivesIff(dir: Dir, name: string, cap: nat, file: string)
    requires file in Matching(dir, name)
    ensures AlwaysSurvives(dir, name, cap, file) <==> |NotOlder(dir, name, file)| < cap
  {
    if |NotOlder(dir, name, file)| < cap {
      forall listing | Lists(listing, dir) ensures file !in Victims(dir, listing, name, cap) {
        var victims := Elements(Victims(dir, listing, name, cap));
        VictimsFacts(dir, listing, name, cap);
        if file in victims {
          var survivors := Matching(dir, name) - victims;
          assert |survivors| == |Matching(dir, name)| - |victims|;
          assert survivors <= NotOlder(dir, name, file);
          SubsetSize(survivors, NotOlder(dir, name, file));
        }
      }
    } else {
      var listing := SomeListingRemoves(dir, name, cap, file);
    }
  }

  lemma {:induction false} SubsetSize(a: set<string>, b: set<string>)
    requires a <= b
    ensures |a| <= |b|
  {
    assert |b| == |a| + |b - a|;
  }
}
