/**
 * The folder scanner: a directory tree whose files carry integer modification
 * times, the top-down walk `os.walk` performs over it, `get_all_files` (every
 * file at every depth, joined to the directory that holds it) and
 * `get_all_subdirs` (the immediate sub-directories of a folder).
 */
module Scanner {
  import opened Text

  /** A regular file as a directory listing reports it, with its `st_mtime` in whole seconds. */
  datatype FileEntry = FileEntry(name: string, mtime: int)

  /** A directory: the file names and sub-directory names its listing splits into, as `os.walk` does. */
  datatype Dir = Dir(name: string, files: seq<FileEntry>, subdirs: seq<Dir>)

  /** A file found by a scan: its full path and its modification time. */
  datatype FileRecord = FileRecord(path: string, mtime: int)

  /** One triple `(root, dirnames, filenames)` yielded by `os.walk`. */
  datatype WalkStep = WalkStep(root: string, dirnames: seq<string>, files: seq<FileEntry>)

  function Names(ds: seq<Dir>): (names: seq<string>)
    ensures |names| == |ds|
    ensures forall i :: 0 <= i < |ds| ==> names[i] == ds[i].name
  {
    seq(|ds|, i requires 0 <= i < |ds| => ds[i].name)
  }

  /** `os.walk(top)` in its default top-down order: this directory first, then each sub-directory in listing order. */
  function Walk(top: string, d: Dir): (steps: seq<WalkStep>)
    ensures |steps| > 0 && steps[0] == WalkStep(top, Names(d.subdirs), d.files)
    decreases d
  {
    [WalkStep(top, Names(d.subdirs), d.files)] + WalkEach(top, d.subdirs)
  }

  function WalkEach(top: string, ds: seq<Dir>): seq<WalkStep>
    decreases ds
  {
    if ds == [] then [] else Walk(Join(top, ds[0].name), ds[0]) + WalkEach(top, ds[1..])
  }

  /** The files of one listing, each joined to the directory `root` that lists it. */
  function FilesAt(root: string, files: seq<FileEntry>): (rs: seq<FileRecord>)
    ensures |rs| == |files|
    ensures forall k :: 0 <= k < |files| ==> rs[k] == FileRecord(Join(root, files[k].name), files[k].mtime)
  {
    seq(|files|, k requires 0 <= k < |files| => FileRecord(Join(root, files[k].name), files[k].mtime))
  }

  /** The files the walk steps report, in the order the walk yields them. */
  function StepsFiles(steps: seq<WalkStep>): seq<FileRecord>
  {
    if steps == [] then []
    else StepsFiles(steps[..|steps| - 1]) + FilesAt(steps[|steps| - 1].root, steps[|steps| - 1].files)
  }

  /** Number of regular files at every depth of a tree. */
  function FileCount(d: Dir): nat
    decreases d
  {
    |d.files| + FileCountEach(d.subdirs)
  }

  function FileCountEach(ds: seq<Dir>): nat
    decreases ds
  {
    if ds == [] then 0 else FileCount(ds[0]) + FileCountEach(ds[1..])
  }

  /** Number of directories in a tree, `d` itself included. */
  function DirCount(d: Dir): nat
    decreases d
  {
    1 + DirCountEach(d.subdirs)
  }

  function DirCountEach(ds: seq<Dir>): nat
    decreases ds
  {
    if ds == [] then 0 else DirCount(ds[0]) + DirCountEach(ds[1..])
  }

  /** The walk yields exactly one triple per directory of the tree. */
  lemma {:induction false} WalkVisitsEveryFolder(top: string, d: Dir)
    ensures |Walk(top, d)| == DirCount(d)
    decreases d
  {
    WalkEachVisitsEveryFolder(top, d.subdirs);
  }

  lemma {:induction false} WalkEachVisitsEveryFolder(top: string, ds: seq<Dir>)
    ensures |WalkEach(top, ds)| == DirCountEach(ds)
    decreases ds
  {
    if ds != [] {
      WalkVisitsEveryFolder(Join(top, ds[0].name), ds[0]);
      WalkEachVisitsEveryFolder(top, ds[1..]);
    }
  }

  /**
   * Reference definition of the files below `d` (reached as path `top`):
   * its own files, then those of each sub-directory, by structural recursion on the tree.
   */
  function TreeFiles(top: string, d: Dir): (rs: seq<FileRecord>)
    ensures |rs| == FileCount(d)
    decreases d
  {
    FilesAt(top, d.files) + TreeFilesEach(top, d.subdirs)
  }

  function TreeFilesEach(top: string, ds: seq<Dir>): (rs: seq<FileRecord>)
    ensures |rs| == FileCountEach(ds)
    decreases ds
  {
    if ds == [] then [] else TreeFiles(Join(top, ds[0].name), ds[0]) + TreeFilesEach(top, ds[1..])
  }

  /** `rec` is a regular file somewhere below `d`, with the path the walk gives it. */
  ghost predicate HasFile(top: string, d: Dir, rec: FileRecord)
    decreases d
  {
    || (exists k :: 0 <= k < |d.files| && rec == FileRecord(Join(top, d.files[k].name), d.files[k].mtime))
    || (exists j :: 0 <= j < |d.subdirs| && HasFile(Join(top, d.subdirs[j].name), d.subdirs[j], rec))
  }

  /** `get_all_subdirs(top)`: the directory names of the first triple `os.walk(top)` yields. */
  function GetAllSubdirs(top: string, d: Dir): (names: seq<string>)
    ensures |names| == |d.subdirs|
    ensures forall i :: 0 <= i < |names| ==> names[i] == d.subdirs[i].name
  {
    Walk(top, d)[0].dirnames
  }

  /** `get_all_files(top)`: for every triple of the walk, append each file name joined to that triple's root. */
  method GetAllFiles(top: string, d: Dir) returns (myFiles: seq<FileRecord>)
    ensures myFiles == TreeFiles(top, d)
    ensures |myFiles| == FileCount(d)
    ensures forall rec :: rec in myFiles <==> HasFile(top, d, rec)
  {
    var steps := Walk(top, d);
    myFiles := [];
    var i := 0;
    while i < |steps|
      invariant 0 <= i <= |steps|
      invariant myFiles == StepsFiles(steps[..i])
    {
      var step := steps[i];
      ghost var before := myFiles;
      var j := 0;
      while j < |step.files|
        invariant 0 <= j <= |step.files|
        invariant myFiles == before + FilesAt(step.root, step.files[..j])
      {
        FilesAtSnoc(step.root, step.files, j);
        myFiles := myFiles + [FileRecord(Join(step.root, step.files[j].name), step.files[j].mtime)];
        j := j + 1;
      }
      assert step.files[..j] == step.files;
      StepsFilesSnoc(steps[..i], step);
      assert steps[..i + 1] == steps[..i] + [step];
      i := i + 1;
    }
    assert steps[..i] == steps;
    WalkReportsTreeFiles(top, d);
    forall rec ensures rec in myFiles <==> HasFile(top, d, rec) {
      TreeFilesAreExactlyTheFiles(top, d, rec);
    }
  }

  lemma FilesAtSnoc(root: string, files: seq<FileEntry>, j: nat)
    requires j < |files|
    ensures FilesAt(root, files[..j + 1])
         == FilesAt(root, files[..j]) + [FileRecord(Join(root, files[j].name), files[j].mtime)]
  {
  }

  lemma StepsFilesSnoc(a: seq<WalkStep>, s: WalkStep)
    ensures StepsFiles(a + [s]) == StepsFiles(a) + FilesAt(s.root, s.files)
  {
    assert (a + [s])[..|a|] == a;
  }

  lemma {:induction false} StepsFilesAppend(a: seq<WalkStep>, b: seq<WalkStep>)
    ensures StepsFiles(a + b) == StepsFiles(a) + StepsFiles(b)
    decreases |b|
  {
    if b == [] {
      assert a + b == a;
    } else {
      var b', last := b[..|b| - 1], b[|b| - 1];
      var tail := FilesAt(last.root, last.files);
      assert a + b == (a + b') + [last];
      assert b == b' + [last];
      StepsFilesSnoc(a + b', last);
      StepsFilesSnoc(b', last);
      StepsFilesAppend(a, b');
    }
  }

  /** The files reported along the walk of `d` are exactly its tree files, in the same order. */
  lemma {:induction false} WalkReportsTreeFiles(top: string, d: Dir)
    ensures StepsFiles(Walk(top, d)) == TreeFiles(top, d)
    decreases d
  {
    var first := WalkStep(top, Names(d.subdirs), d.files);
    assert [first][..0] == [];
    calc {
      StepsFiles(Walk(top, d));
      StepsFiles([first] + WalkEach(top, d.subdirs));
      { StepsFilesAppend([first], WalkEach(top, d.subdirs)); }
      StepsFiles([first]) + StepsFiles(WalkEach(top, d.subdirs));
      { WalkEachReportsTreeFiles(top, d.subdirs); }
      FilesAt(top, d.files) + TreeFilesEach(top, d.subdirs);
    }
  }

  lemma {:induction false} WalkEachReportsTreeFiles(top: string, ds: seq<Dir>)
    ensures StepsFiles(WalkEach(top, ds)) == TreeFilesEach(top, ds)
    decreases ds
  {
    if ds != [] {
      StepsFilesAppend(Walk(Join(top, ds[0].name), ds[0]), WalkEach(top, ds[1..]));
      WalkReportsTreeFiles(Join(top, ds[0].name), ds[0]);
      WalkEachReportsTreeFiles(top, ds[1..]);
    }
  }

  /**
   * `get_all_files` returns exactly the regular files at every depth, each
   * joined to the directory that holds it, and nothing that is a directory.
   */
  lemma {:induction false} TreeFilesAreExactlyTheFiles(top: string, d: Dir, rec: FileRecord)
    ensures rec in TreeFiles(top, d) <==> HasFile(top, d, rec)
    decreases d
  {
    var here := FilesAt(top, d.files);
    var below := TreeFilesEach(top, d.subdirs);
    assert rec in here + below <==> rec in here || rec in below;
    FilesAtMembers(top, d.files, rec);
    TreeFilesEachMembers(top, d.subdirs, rec);
  }

  lemma FilesAtMembers(top: string, files: seq<FileEntry>, rec: FileRecord)
    ensures rec in FilesAt(top, files) <==>
            exists k :: 0 <= k < |files| && rec == FileRecord(Join(top, files[k].name), files[k].mtime)
  {
    var rs := FilesAt(top, files);
    if rec in rs {
      var k :| 0 <= k < |rs| && rs[k] == rec;
    }
  }

  lemma {:induction false} TreeFilesEachMembers(top: string, ds: seq<Dir>, rec: FileRecord)
    ensures rec in TreeFilesEach(top, ds) <==>
            exists j :: 0 <= j < |ds| && HasFile(Join(top, ds[j].name), ds[j], rec)
    decreases ds
  {
    if ds != [] {
      TreeFilesAreExactlyTheFiles(Join(top, ds[0].name), ds[0], rec);
      TreeFilesEachMembers(top, ds[1..], rec);
      if exists j :: 0 <= j < |ds| && HasFile(Join(top, ds[j].name), ds[j], rec) {
        var j :| 0 <= j < |ds| && HasFile(Join(top, ds[j].name), ds[j], rec);
        if j > 0 {
          assert ds[1..][j - 1] == ds[j];
        }
      }
      if exists j :: 0 <= j < |ds[1..]| && HasFile(Join(top, ds[1..][j].name), ds[1..][j], rec) {
        var j :| 0 <= j < |ds[1..]| && HasFile(Join(top, ds[1..][j].name), ds[1..][j], rec);
        assert ds[j + 1] == ds[1..][j];
      }
    }
  }
}
