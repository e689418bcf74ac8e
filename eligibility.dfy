/**
 * The age check and folder eligibility: `check_mtime`, the offending-file
 * counter of `check_folder_is_archivable`, and the filter that keeps the
 * eligible project folders in discovery order.
 */
module Eligibility {
  import opened Text
  import opened Scanner

  const SecondsPerDay: int := 60 * 60 * 24

  /** The instant `now - 86400 * settle` at or before which a file counts as settled. */
  function Cutoff(now: int, settle: int): int {
    now - SecondsPerDay * settle
  }

  /** `check_mtime`: only a file modified strictly after the cutoff is unsettled. */
  function CheckMtime(mtime: int, now: int, settle: int): (settled: bool)
    ensures settled <==> now - mtime >= settle * SecondsPerDay
  {
    var aging := Cutoff(now, settle);
    if mtime > aging then false else true
  }

  /** The number of records `check_mtime` rejects, counted in list order. */
  function UnsettledCount(fs: seq<FileRecord>, now: int, settle: int): (n: nat)
    ensures n <= |fs|
  {
    if fs == [] then 0
    else UnsettledCount(fs[..|fs| - 1], now, settle) + (if CheckMtime(fs[|fs| - 1].mtime, now, settle) then 0 else 1)
  }

  /** The positions of the records `check_mtime` rejects. */
  ghost function Offenders(fs: seq<FileRecord>, now: int, settle: int): set<nat> {
    set i: nat | i < |fs| && !CheckMtime(fs[i].mtime, now, settle)
  }

  /** The counter `n` is the number of files that are not settled; it is 0 exactly when every file is settled. */
  lemma {:induction false} UnsettledCountCountsOffenders(fs: seq<FileRecord>, now: int, settle: int)
    ensures UnsettledCount(fs, now, settle) == |Offenders(fs, now, settle)|
    ensures UnsettledCount(fs, now, settle) == 0 <==> forall i :: 0 <= i < |fs| ==> CheckMtime(fs[i].mtime, now, settle)
    decreases |fs|
  {
    if fs != [] {
      var init := fs[..|fs| - 1];
      UnsettledCountCountsOffenders(init, now, settle);
      var last: nat := |fs| - 1;
      assert forall i :: 0 <= i < |init| ==> init[i] == fs[i];
      if CheckMtime(fs[last].mtime, now, settle) {
        assert Offenders(fs, now, settle) == Offenders(init, now, settle);
      } else {
        assert Offenders(fs, now, settle) == Offenders(init, now, settle) + {last};
        assert !CheckMtime(fs[last].mtime, now, settle);
      }
    }
  }

  /**
   * Reference definition of eligibility on the tree itself: every file at
   * every depth below `d` passes `check_mtime`.
   */
  predicate Settled(d: Dir, now: int, settle: int)
    decreases d
  {
    && (forall k :: 0 <= k < |d.files| ==> CheckMtime(d.files[k].mtime, now, settle))
    && SubdirsSettled(d.subdirs, now, settle)
  }

  predicate SubdirsSettled(ds: seq<Dir>, now: int, settle: int)
    decreases ds
  {
    forall j :: 0 <= j < |ds| ==> Settled(ds[j], now, settle)
  }

  /** `check_folder_is_archivable`: count the unsettled files below the folder; archivable when none. */
  method CheckFolderIsArchivable(sourceDirectory: string, folder: Dir, now: int, settle: int)
    returns (archivable: bool, n: nat)
    ensures n == |Offenders(TreeFiles(Join(sourceDirectory, folder.name), folder), now, settle)|
    ensures archivable <==> n == 0
    ensures archivable <==> Settled(folder, now, settle)
  {
    var files := GetAllFiles(Join(sourceDirectory, folder.name), folder);
    n := 0;
    var i := 0;
    while i < |files|
      invariant 0 <= i <= |files|
      invariant n == UnsettledCount(files[..i], now, settle)
    {
      assert files[..i + 1][..i] == files[..i];
      if CheckMtime(files[i].mtime, now, settle) {
      } else {
        n := n + 1;
      }
      i := i + 1;
    }
    assert files[..i] == files;
    UnsettledCountCountsOffenders(files, now, settle);
    NoOffendersIffSettled(Join(sourceDirectory, folder.name), folder, now, settle);
    archivable := n == 0;
  }

  predicate RecordsSettled(fs: seq<FileRecord>, now: int, settle: int) {
    forall i :: 0 <= i < |fs| ==> CheckMtime(fs[i].mtime, now, settle)
  }

  lemma RecordsSettledAppend(a: seq<FileRecord>, b: seq<FileRecord>, now: int, settle: int)
    ensures RecordsSettled(a + b, now, settle) <==> RecordsSettled(a, now, settle) && RecordsSettled(b, now, settle)
  {
    if RecordsSettled(a, now, settle) && RecordsSettled(b, now, settle) {
      forall i | 0 <= i < |a + b| ensures CheckMtime((a + b)[i].mtime, now, settle) {
        if i >= |a| { assert (a + b)[i] == b[i - |a|]; }
      }
    }
    if RecordsSettled(a + b, now, settle) {
      forall i | 0 <= i < |a| ensures CheckMtime(a[i].mtime, now, settle) {
        assert (a + b)[i] == a[i];
      }
      forall i | 0 <= i < |b| ensures CheckMtime(b[i].mtime, now, settle) {
        assert (a + b)[|a| + i] == b[i];
      }
    }
  }

  lemma {:induction false} TreeFilesSettled(top: string, d: Dir, now: int, settle: int)
    ensures RecordsSettled(TreeFiles(top, d), now, settle) <==> Settled(d, now, settle)
    decreases d
  {
    RecordsSettledAppend(FilesAt(top, d.files), TreeFilesEach(top, d.subdirs), now, settle);
    TreeFilesEachSettled(top, d.subdirs, now, settle);
  }

  lemma {:induction false} TreeFilesEachSettled(top: string, ds: seq<Dir>, now: int, settle: int)
    ensures RecordsSettled(TreeFilesEach(top, ds), now, settle) <==> SubdirsSettled(ds, now, settle)
    decreases ds
  {
    if ds != [] {
      var first := TreeFiles(Join(top, ds[0].name), ds[0]);
      var rest := TreeFilesEach(top, ds[1..]);
      assert TreeFilesEach(top, ds) == first + rest;
      RecordsSettledAppend(first, rest, now, settle);
      TreeFilesSettled(Join(top, ds[0].name), ds[0], now, settle);
      TreeFilesEachSettled(top, ds[1..], now, settle);
      SubdirsSettledCons(ds, now, settle);
    }
  }

  lemma SubdirsSettledCons(ds: seq<Dir>, now: int, settle: int)
    requires ds != []
    ensures SubdirsSettled(ds, now, settle) <==> Settled(ds[0], now, settle) && SubdirsSettled(ds[1..], now, settle)
  {
    if Settled(ds[0], now, settle) && SubdirsSettled(ds[1..], now, settle) {
      forall j | 0 <= j < |ds| ensures Settled(ds[j], now, settle) {
        if j > 0 { assert ds[j] == ds[1..][j - 1]; }
      }
    }
  }

  /**
   * The count `check_folder_is_archivable` keeps over the walked files is 0
   * exactly when every file at every depth of the tree is settled.
   */
  lemma NoOffendersIffSettled(top: string, folder: Dir, now: int, settle: int)
    ensures UnsettledCount(TreeFiles(top, folder), now, settle) == 0 <==> Settled(folder, now, settle)
  {
    UnsettledCountCountsOffenders(TreeFiles(top, folder), now, settle);
    TreeFilesSettled(top, folder, now, settle);
  }

  /** A folder without any file, at any depth, is archivable. */
  lemma {:induction false} EmptyFolderIsSettled(d: Dir, now: int, settle: int)
    requires FileCount(d) == 0
    ensures Settled(d, now, settle)
    decreases d
  {
    forall j | 0 <= j < |d.subdirs| ensures Settled(d.subdirs[j], now, settle) {
      NoFilesInSubdir(d.subdirs, j);
      EmptyFolderIsSettled(d.subdirs[j], now, settle);
    }
  }

  lemma {:induction false} NoFilesInSubdir(ds: seq<Dir>, j: nat)
    requires j < |ds| && FileCountEach(ds) == 0
    ensures FileCount(ds[j]) == 0
    decreases j
  {
    if j > 0 {
      NoFilesInSubdir(ds[1..], j - 1);
    }
  }

  /** With the tree unchanged, a folder that is archivable stays archivable as time passes. */
  lemma {:induction false} SettledStaysSettled(d: Dir, now: int, later: int, settle: int)
    requires now <= later
    requires Settled(d, now, settle)
    ensures Settled(d, later, settle)
    decreases d
  {
    forall j | 0 <= j < |d.subdirs| ensures Settled(d.subdirs[j], later, settle) {
      SettledStaysSettled(d.subdirs[j], now, later, settle);
    }
  }

  /** Whether each discovered folder is archivable, position by position. */
  function EligibleFlags(subs: seq<Dir>, now: int, settle: int): (flags: seq<bool>)
    ensures |flags| == |subs|
    ensures forall i :: 0 <= i < |subs| ==> flags[i] == Settled(subs[i], now, settle)
  {
    seq(|subs|, i requires 0 <= i < |subs| => Settled(subs[i], now, settle))
  }

  /** The positions at which `flags` holds, in increasing order. */
  function SetPositions(flags: seq<bool>): (idx: seq<nat>)
    ensures forall k :: 0 <= k < |idx| ==> idx[k] < |flags|
    ensures forall k, l :: 0 <= k < l < |idx| ==> idx[k] < idx[l]
    ensures forall i :: 0 <= i < |flags| ==> (i in idx <==> flags[i])
  {
    if flags == [] then []
    else
      var n := |flags| - 1;
      var prev := SetPositions(flags[..n]);
      assert n !in prev;
      prev + (if flags[n] then [n] else [])
  }

  /** Positions of the archivable folders, in increasing order: exactly those that qualify. */
  function KeptIndices(subs: seq<Dir>, now: int, settle: int): (idx: seq<nat>)
    ensures forall k :: 0 <= k < |idx| ==> idx[k] < |subs|
    ensures forall k, l :: 0 <= k < l < |idx| ==> idx[k] < idx[l]
    ensures forall i :: 0 <= i < |subs| ==> (i in idx <==> Settled(subs[i], now, settle))
  {
    SetPositions(EligibleFlags(subs, now, settle))
  }

  /** The names of the folders whose flag is set, in the order the folders come. */
  function Select(subs: seq<Dir>, flags: seq<bool>): (names: seq<string>)
    requires |flags| == |subs|
    ensures |names| <= |subs|
  {
    if subs == [] then []
    else
      var n := |subs| - 1;
      Select(subs[..n], flags[..n]) + (if flags[n] then [subs[n].name] else [])
  }

  /** `folders_ready`: the names of the archivable folders, in the order they were discovered. */
  function ReadyFolders(subs: seq<Dir>, now: int, settle: int): seq<string> {
    Select(subs, EligibleFlags(subs, now, settle))
  }

  /** Appending one discovered folder appends its name to `folders_ready` exactly when it is archivable. */
  lemma ReadyFoldersSnoc(subs: seq<Dir>, d: Dir, now: int, settle: int)
    ensures ReadyFolders(subs + [d], now, settle)
         == ReadyFolders(subs, now, settle) + (if Settled(d, now, settle) then [d.name] else [])
  {
    var subs' := subs + [d];
    assert subs'[..|subs|] == subs;
    assert EligibleFlags(subs', now, settle)[..|subs|] == EligibleFlags(subs, now, settle);
  }

  lemma {:induction false} SelectAtPositions(subs: seq<Dir>, flags: seq<bool>)
    requires |flags| == |subs|
    ensures var names := Select(subs, flags);
            var idx := SetPositions(flags);
            |names| == |idx| && forall k :: 0 <= k < |idx| ==> names[k] == subs[idx[k]].name
    decreases |subs|
  {
    if subs != [] {
      var n := |subs| - 1;
      var prev := Select(subs[..n], flags[..n]);
      var prevIdx := SetPositions(flags[..n]);
      SelectAtPositions(subs[..n], flags[..n]);
      assert Select(subs, flags) == prev + (if flags[n] then [subs[n].name] else []);
      assert SetPositions(flags) == prevIdx + (if flags[n] then [n] else []);
      forall k | 0 <= k < |prevIdx| ensures prev[k] == subs[prevIdx[k]].name {
        assert subs[..n][prevIdx[k]] == subs[prevIdx[k]];
      }
    }
  }

  /**
   * `folders_ready` is the subsequence of the discovered folders that are
   * archivable: the k-th ready name is the name of the k-th kept position.
   */
  lemma ReadyFoldersAreKeptInOrder(subs: seq<Dir>, now: int, settle: int)
    ensures var ready := ReadyFolders(subs, now, settle);
            var idx := KeptIndices(subs, now, settle);
            |ready| == |idx| && forall k :: 0 <= k < |idx| ==> ready[k] == subs[idx[k]].name
  {
    SelectAtPositions(subs, EligibleFlags(subs, now, settle));
  }
}
