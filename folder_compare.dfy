/**
 * Comparing two folder trees, in the three versions of the folder
 * counter:
 *  - by relative path, with a content hash per file, splitting the shared
 *    paths into modified and unchanged files;
 *  - by lower-cased base name, as sets, with sorted listings;
 *  - by base name, as lists that keep duplicates, with their intersection.
 * The directory walk is given as its result: per directory, the files it
 * lists; the content hash is an opaque string.
 */
module FolderCompare {
  import opened Text
  import opened Ordering

  // ---------------------------------------------------------------------
  // Lists and the sets they hold
  // ---------------------------------------------------------------------

  function Elements(s: seq<string>): (r: set<string>)
    ensures forall x :: x in r <==> x in s
  {
    set x | x in s
  }

  predicate NoDuplicates(s: seq<string>) {
    forall i, j :: 0 <= i < j < |s| ==> s[i] != s[j]
  }

  /** A list holds at least as many entries as it has distinct ones, and a
      list without duplicates exactly as many. */
  lemma {:induction false} ElementsBound(s: seq<string>)
    ensures |Elements(s)| <= |s|
    ensures NoDuplicates(s) ==> |Elements(s)| == |s|
  {
    if s != [] {
      var init := s[..|s| - 1];
      ElementsBound(init);
      assert Elements(s) == Elements(init) + {s[|s| - 1]};
      if NoDuplicates(s) {
        assert s[|s| - 1] !in Elements(init);
      }
    }
  }

  /** A name listed twice makes the list longer than its set of names. */
  lemma {:induction false} DuplicateShrinks(s: seq<string>, i: nat, j: nat)
    requires i < j < |s| && s[i] == s[j]
    ensures |Elements(s)| < |s|
  {
    var init := s[..|s| - 1];
    assert Elements(s) == Elements(init) + {s[|s| - 1]};
    if j == |s| - 1 {
      assert s[j] == init[i];
      assert Elements(s) == Elements(init);
      ElementsBound(init);
    } else {
      DuplicateShrinks(init, i, j);
    }
  }

  /** The three parts of two name sets: in both, only in the old one, only
      in the new one. */
  datatype Partition = Partition(common: set<string>, onlyOld: set<string>, onlyNew: set<string>)

  /** `old & new`, `old - new`, `new - old`: pairwise disjoint, and together
      exactly the names of either side. */
  function Compare(oldNames: set<string>, newNames: set<string>): (p: Partition)
    ensures p.common !! p.onlyOld && p.common !! p.onlyNew && p.onlyOld !! p.onlyNew
    ensures p.common + p.onlyOld + p.onlyNew == oldNames + newNames
    ensures p.common + p.onlyOld == oldNames && p.common + p.onlyNew == newNames
    ensures |p.common| + |p.onlyOld| == |oldNames| && |p.common| + |p.onlyNew| == |newNames|
  {
    var p := Partition(oldNames * newNames, oldNames - newNames, newNames - oldNames);
    SplitBy(oldNames, newNames);
    SplitBy(newNames, oldNames);
    assert newNames * oldNames == p.common;
    p
  }

  /** `a` is the disjoint union of `a & b` and `a - b`. */
  lemma SplitBy(a: set<string>, b: set<string>)
    ensures (a * b) + (a - b) == a && (a * b) !! (a - b)
    ensures |a * b| + |a - b| == |a|
  {
    assert (a * b) + (a - b) == a;
  }

  // ---------------------------------------------------------------------
  // Version 2: relative paths and content hashes
  // ---------------------------------------------------------------------

  /** What the scan records for one file. */
  datatype FileInfo = FileInfo(size: nat, hash: string)

  /** One file met by the walk: its path relative to the scanned folder. */
  datatype Entry = Entry(relPath: string, size: nat, hash: string)

  function Paths(entries: seq<Entry>): (r: seq<string>)
    ensures |r| == |entries| && forall i :: 0 <= i < |entries| ==> r[i] == entries[i].relPath
  {
    seq(|entries|, i requires 0 <= i < |entries| => entries[i].relPath)
  }

  /** `file_data[rel_path] = {...}` for every file of the walk: one key per
      relative path, holding the last record made for it. */
  method ScanFolder(entries: seq<Entry>) returns (fileData: map<string, FileInfo>)
    ensures fileData.Keys == Elements(Paths(entries))
    ensures forall k :: 0 <= k < |entries| && (forall l :: k < l < |entries| ==> entries[l].relPath != entries[k].relPath) ==>
      fileData[entries[k].relPath] == FileInfo(entries[k].size, entries[k].hash)
  {
    fileData := map[];
    for i := 0 to |entries|
      invariant fileData.Keys == Elements(Paths(entries[..i]))
      invariant forall k :: 0 <= k < i && (forall l :: k < l < i ==> entries[l].relPath != entries[k].relPath) ==>
        fileData[entries[k].relPath] == FileInfo(entries[k].size, entries[k].hash)
    {
      assert Paths(entries[..i + 1]) == Paths(entries[..i]) + [entries[i].relPath];
      var e := entries[i];
      fileData := fileData[e.relPath := FileInfo(e.size, e.hash)];
    }
    assert entries[..|entries|] == entries;
  }

  /** A walk never meets the same relative path twice, so every file found
      is a key of its own, even where base names repeat across
      subfolders: the total reported is the number of files walked. */
  lemma ScanKeepsEveryFile(entries: seq<Entry>, fileData: map<string, FileInfo>)
    requires NoDuplicates(Paths(entries))
    requires fileData.Keys == Elements(Paths(entries))
    ensures |fileData| == |entries|
  {
    ElementsBound(Paths(entries));
  }

  predicate Modified(oldFiles: map<string, FileInfo>, newFiles: map<string, FileInfo>, f: string) {
    f in oldFiles && f in newFiles && oldFiles[f].hash != newFiles[f].hash
  }

  predicate Same(oldFiles: map<string, FileInfo>, newFiles: map<string, FileInfo>, f: string) {
    f in oldFiles && f in newFiles && oldFiles[f].hash == newFiles[f].hash
  }

  /** The loop over the shared paths: each goes to `modified` when the two
      hashes differ and to `same` otherwise; the recorded size plays no
      part. The set is visited in an unspecified order. */
  method SplitCommon(oldFiles: map<string, FileInfo>, newFiles: map<string, FileInfo>, common: set<string>)
    returns (modified: seq<string>, same: seq<string>)
    requires common == oldFiles.Keys * newFiles.Keys
    ensures NoDuplicates(modified) && NoDuplicates(same)
    ensures forall f :: f in modified <==> Modified(oldFiles, newFiles, f)
    ensures forall f :: f in same <==> Same(oldFiles, newFiles, f)
    ensures |modified| + |same| == |common|
  {
    modified, same := [], [];
    var rest := common;
    while rest != {}
      invariant rest <= common
      invariant NoDuplicates(modified) && NoDuplicates(same)
      invariant forall f :: f in modified <==> f in common && f !in rest && Modified(oldFiles, newFiles, f)
      invariant forall f :: f in same <==> f in common && f !in rest && Same(oldFiles, newFiles, f)
      invariant |modified| + |same| + |rest| == |common|
      decreases |rest|
    {
      var f :| f in rest;
      if oldFiles[f].hash != newFiles[f].hash {
        modified := modified + [f];
      } else {
        same := same + [f];
      }
      rest := rest - {f};
    }
  }

  /** The counts of the report. */
  datatype Report = Report(totalOld: nat, totalNew: nat, same: nat, modified: nat, onlyOld: nat, onlyNew: nat)

  /** The folder comparison: partition of the paths, split of the shared
      ones, and the six counts printed. */
  method CompareFolders(oldFiles: map<string, FileInfo>, newFiles: map<string, FileInfo>)
    returns (report: Report, modified: seq<string>, p: Partition)
    ensures p == Compare(oldFiles.Keys, newFiles.Keys)
    ensures forall f :: f in modified <==> Modified(oldFiles, newFiles, f)
    ensures report.totalOld == |oldFiles| && report.totalNew == |newFiles|
    ensures report.modified == |modified| && report.onlyOld == |p.onlyOld| && report.onlyNew == |p.onlyNew|
    ensures report.same + report.modified + report.onlyOld == report.totalOld
    ensures report.same + report.modified + report.onlyNew == report.totalNew
  {
    p := Compare(oldFiles.Keys, newFiles.Keys);
    var same;
    modified, same := SplitCommon(oldFiles, newFiles, p.common);
    report := Report(|oldFiles|, |newFiles|, |same|, |modified|, |p.onlyOld|, |p.onlyNew|);
  }

  /** Only the hash decides: two scans that differ only in the recorded
      sizes give the same modified files. */
  lemma SizeIgnored(oldFiles: map<string, FileInfo>, newFiles: map<string, FileInfo>, oldResized: map<string, FileInfo>, f: string)
    requires oldResized.Keys == oldFiles.Keys
    requires forall g :: g in oldFiles ==> oldResized[g].hash == oldFiles[g].hash
    ensures Modified(oldResized, newFiles, f) <==> Modified(oldFiles, newFiles, f)
  {
  }

  // ---------------------------------------------------------------------
  // Versions 1 and 3: base names from the walk
  // ---------------------------------------------------------------------

  /** Every file name of the walk, directory by directory. */
  function Flatten(walk: seq<seq<string>>): (r: seq<string>)
    ensures forall x :: x in r <==> exists d :: 0 <= d < |walk| && x in walk[d]
  {
    if walk == [] then []
    else
      var init := walk[..|walk| - 1];
      var r := Flatten(init) + walk[|walk| - 1];
      assert forall d :: 0 <= d < |init| ==> init[d] == walk[d];
      r
  }

  function FileCount(walk: seq<seq<string>>): nat {
    if walk == [] then 0 else FileCount(walk[..|walk| - 1]) + |walk[|walk| - 1]|
  }

  /** Version 1: every base name appended, duplicates kept. */
  method CollectNames(walk: seq<seq<string>>) returns (files: seq<string>)
    ensures files == Flatten(walk)
    ensures |files| == FileCount(walk)
  {
    files := [];
    for d := 0 to |walk|
      invariant files == Flatten(walk[..d])
      invariant |files| == FileCount(walk[..d])
    {
      assert walk[..d + 1][..d] == walk[..d];
      for j := 0 to |walk[d]|
        invariant files == Flatten(walk[..d]) + walk[d][..j]
      {
        assert walk[d][..j + 1] == walk[d][..j] + [walk[d][j]];
        files := files + [walk[d][j]];
      }
      assert walk[d][..|walk[d]|] == walk[d];
    }
    assert walk[..|walk|] == walk;
  }

  /** `set(files_old).intersection(files_new)`: the names listed in both,
      compared exactly as written. */
  function CommonNames(filesOld: seq<string>, filesNew: seq<string>): (r: set<string>)
    ensures forall x :: x in r <==> x in filesOld && x in filesNew
    ensures |r| <= |filesOld| && |r| <= |filesNew|
  {
    ElementsBound(filesOld);
    ElementsBound(filesNew);
    Compare(Elements(filesOld), Elements(filesNew)).common
  }

  /** The printed count is the list length, duplicates included: a name
      met in two subfolders counts twice. */
  lemma CountIncludesDuplicates(walk: seq<seq<string>>, d: nat, e: nat, name: string)
    requires d < e < |walk| && name in walk[d] && name in walk[e]
    ensures |Elements(Flatten(walk))| < FileCount(walk)
  {
    var files := Flatten(walk);
    FlattenLength(walk);
    var i := FlattenPosition(walk, d, name);
    var j := FlattenPosition(walk, e, name);
    OffsetMonotone(walk, d + 1, e);
    DuplicateShrinks(files, i, j);
  }

  lemma {:induction false} FlattenLength(walk: seq<seq<string>>)
    ensures |Flatten(walk)| == FileCount(walk)
  {
    if walk != [] {
      FlattenLength(walk[..|walk| - 1]);
    }
  }

  /** Where in the flattened list directory `d`'s first `name` lands. */
  function Offset(walk: seq<seq<string>>, d: nat): (n: nat)
    requires d <= |walk|
    ensures n == |Flatten(walk[..d])|
  {
    if d == 0 then 0
    else
      assert walk[..d][..d - 1] == walk[..d - 1];
      Offset(walk, d - 1) + |walk[d - 1]|
  }

  lemma {:induction false} FlattenPrefix(walk: seq<seq<string>>, d: nat)
    requires d < |walk|
    ensures Offset(walk, d) + |walk[d]| <= |Flatten(walk)|
      && Flatten(walk)[Offset(walk, d)..Offset(walk, d) + |walk[d]|] == walk[d]
    decreases |walk| - d
  {
    var init := walk[..|walk| - 1];
    assert Flatten(walk) == Flatten(init) + walk[|walk| - 1];
    if d == |walk| - 1 {
      assert init == walk[..d];
    } else {
      FlattenPrefix(init, d);
      assert init[d] == walk[d];
      OffsetPrefix(walk, init, d);
    }
  }

  lemma {:induction false} OffsetPrefix(walk: seq<seq<string>>, init: seq<seq<string>>, d: nat)
    requires d <= |init| <= |walk| && init == walk[..|init|]
    ensures Offset(init, d) == Offset(walk, d)
  {
    assert init[..d] == walk[..d];
  }

  /** A position of the flattened list holding directory `d`'s `name`. */
  lemma FlattenPosition(walk: seq<seq<string>>, d: nat, name: string) returns (i: nat)
    requires d < |walk| && name in walk[d]
    ensures Offset(walk, d) <= i < Offset(walk, d) + |walk[d]|
    ensures i < |Flatten(walk)| && Flatten(walk)[i] == name
  {
    FlattenPrefix(walk, d);
    var k :| 0 <= k < |walk[d]| && walk[d][k] == name;
    i := Offset(walk, d) + k;
  }

  lemma {:induction false} OffsetMonotone(walk: seq<seq<string>>, d: nat, e: nat)
    requires d <= e <= |walk|
    ensures Offset(walk, d) <= Offset(walk, e)
    decreases e - d
  {
    if d < e {
      OffsetMonotone(walk, d, e - 1);
    }
  }

  function LowerAll(names: seq<string>): (r: seq<string>)
    ensures |r| == |names| && forall i :: 0 <= i < |names| ==> r[i] == Lower(names[i])
  {
    seq(|names|, i requires 0 <= i < |names| => Lower(names[i]))
  }

  /** Version 3: every base name of the walk, lower-cased, into one set. */
  method AllFileNames(walk: seq<seq<string>>) returns (names: set<string>)
    ensures names == Elements(LowerAll(Flatten(walk)))
  {
    names := {};
    for d := 0 to |walk|
      invariant names == Elements(LowerAll(Flatten(walk[..d])))
    {
      assert walk[..d + 1][..d] == walk[..d];
      assert Flatten(walk[..d]) + walk[d][..0] == Flatten(walk[..d]);
      for j := 0 to |walk[d]|
        invariant names == Elements(LowerAll(Flatten(walk[..d]) + walk[d][..j]))
      {
        assert walk[d][..j + 1] == walk[d][..j] + [walk[d][j]];
        assert LowerAll(Flatten(walk[..d]) + walk[d][..j + 1]) ==
          LowerAll(Flatten(walk[..d]) + walk[d][..j]) + [Lower(walk[d][j])];
        names := names + {Lower(walk[d][j])};
      }
      assert walk[d][..|walk[d]|] == walk[d];
    }
    assert walk[..|walk|] == walk;
  }

  /** Names that differ only in case are one name, and a name met twice in
      the walk is counted once: the set is smaller than the file count. */
  lemma CaseFoldedNamesMerge(walk: seq<seq<string>>, d: nat, e: nat, a: string, b: string)
    requires d < e < |walk| && a in walk[d] && b in walk[e] && Lower(a) == Lower(b)
    ensures |Elements(LowerAll(Flatten(walk)))| < FileCount(walk)
  {
    var files := Flatten(walk);
    FlattenLength(walk);
    var i := FlattenPosition(walk, d, a);
    var j := FlattenPosition(walk, e, b);
    OffsetMonotone(walk, d + 1, e);
    DuplicateShrinks(LowerAll(files), i, j);
  }

  /** Version 1 matches names exactly and version 3 after lower-casing:
      "IMG.JPG" in one folder and "img.jpg" in the other are common only
      to version 3. */
  lemma CaseSensitivityDiffers()
    ensures CommonNames(["IMG.JPG"], ["img.jpg"]) == {}
    ensures Compare(Elements(LowerAll(["IMG.JPG"])), Elements(LowerAll(["img.jpg"]))).common == {"img.jpg"}
  {
    assert "IMG.JPG" != "img.jpg" by { assert "IMG.JPG"[0] != "img.jpg"[0]; }
    assert Lower("IMG.JPG") == "img.jpg";
    assert Lower("img.jpg") == "img.jpg";
    assert LowerAll(["IMG.JPG"]) == ["img.jpg"];
    assert LowerAll(["img.jpg"]) == ["img.jpg"];
  }

  /** `sorted(names)`: the names once each, in ascending order. */
  function Listing(names: set<string>): (r: seq<string>)
    ensures |r| == |names| && forall x :: x in r <==> x in names
    ensures forall i, j :: 0 <= i < j < |r| ==> StrLt(r[i], r[j])
  {
    StrLeIsTotalOrder();
    SortSet(names, StrLe)
  }

  /** The three sorted listings of version 3 together list every name of
      either folder exactly once. */
  lemma ListingsCoverBothFolders(oldNames: set<string>, newNames: set<string>)
    ensures var p := Compare(oldNames, newNames);
      |Listing(p.onlyOld)| + |Listing(p.onlyNew)| + |Listing(p.common)| == |oldNames + newNames|
  {
    var p := Compare(oldNames, newNames);
    assert oldNames + newNames == p.common + p.onlyOld + p.onlyNew;
  }
}
