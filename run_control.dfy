/**
 * The script's top level: the two startup checks, discovery of the project
 * folders, the eligibility filter, and the dry-run / nothing-to-do gating in
 * front of `archive_folders`.
 */
module RunControl {
  import opened Text
  import opened Scanner
  import opened Eligibility
  import opened Orchestrator

  /** The options the core reads: source root, archive plan, settle days, dry-run flag. */
  datatype Config = Config(sourceDirectory: string, plan: int, settle: int, dryRun: bool)

  /**
   * What the script observes of the outside world: whether the P5 CLI and the
   * source root exist, the tree under the source root, the clock (whole
   * seconds) and the P5 bridge.
   */
  datatype Environment = Environment(cliPresent: bool, sourcePresent: bool, root: Dir, now: int, service: Service)

  /**
   * The filter loop over the discovered folders: check each one and append the
   * name of every archivable one to `folders_ready`.
   */
  method CollectReadyFolders(sourceDirectory: string, subs: seq<Dir>, mySubs: seq<string>, now: int, settle: int)
    returns (foldersReady: seq<string>)
    requires |mySubs| == |subs| && forall i :: 0 <= i < |subs| ==> mySubs[i] == subs[i].name
    ensures foldersReady == ReadyFolders(subs, now, settle)
  {
    foldersReady := [];
    var i := 0;
    while i < |mySubs|
      invariant 0 <= i <= |mySubs|
      invariant foldersReady == ReadyFolders(subs[..i], now, settle)
    {
      // `mySubs[i]` names the directory `subs[i]`, which the check walks
      var archivable, n := CheckFolderIsArchivable(sourceDirectory, subs[i], now, settle);
      if archivable {
        foldersReady := foldersReady + [mySubs[i]];
      }
      ReadyFoldersSnoc(subs[..i], subs[i], now, settle);
      assert subs[..i + 1] == subs[..i] + [subs[i]];
      i := i + 1;
    }
    assert subs[..i] == subs;
  }

  /**
   * One execution of the script. A failed startup check exits 1 before any
   * scan; otherwise the eligible folders are collected in discovery order, and
   * only a non-dry run with at least one eligible folder talks to P5.
   */
  method Run(cfg: Config, env: Environment) returns (foldersReady: seq<string>, trace: seq<Command>, exitCode: int)
    ensures !env.cliPresent || !env.sourcePresent ==> foldersReady == [] && trace == [] && exitCode == 1
    ensures env.cliPresent && env.sourcePresent ==>
              foldersReady == ReadyFolders(env.root.subdirs, env.now, cfg.settle)
    ensures env.cliPresent && env.sourcePresent && (cfg.dryRun || foldersReady == []) ==>
              trace == [] && exitCode == 0
    ensures env.cliPresent && env.sourcePresent && !cfg.dryRun && foldersReady != [] ==>
              var r := ArchiveRun(env.service, cfg.sourceDirectory, cfg.plan, foldersReady);
              trace == r.trace && exitCode == (if r.outcome.Aborted? then 1 else 0)
  {
    foldersReady, trace := [], [];
    if !env.cliPresent {
      exitCode := 1;
      return;
    }
    if !env.sourcePresent {
      exitCode := 1;
      return;
    }
    var mySubs := GetAllSubdirs(cfg.sourceDirectory, env.root);
    foldersReady := CollectReadyFolders(cfg.sourceDirectory, env.root.subdirs, mySubs, env.now, cfg.settle);
    exitCode := 0;
    if !cfg.dryRun && |foldersReady| > 0 {
      var outcome;
      trace, outcome := ArchiveFolders(env.service, cfg.sourceDirectory, cfg.plan, foldersReady);
      if outcome.Aborted? {
        exitCode := 1;
      }
    }
  }

  /** Project `A`: every file 40 or more days old. */
  function ScenarioA(now: int): Dir {
    Dir("A", [FileEntry("a.mov", now - 40 * SecondsPerDay)], [Dir("renders", [FileEntry("r.exr", now - 41 * SecondsPerDay)], [])])
  }

  /** Project `B`: one file modified 5 days ago. */
  function ScenarioB(now: int): Dir {
    Dir("B", [FileEntry("old.mov", now - 60 * SecondsPerDay), FileEntry("new.mov", now - 5 * SecondsPerDay)], [])
  }

  /** Project `C`: empty. */
  function ScenarioC(): Dir {
    Dir("C", [], [])
  }

  /** With a 30-day settle time, `A` and `C` qualify and `B`, holding a file 5 days old, does not. */
  lemma ScenarioEligibility(now: int)
    ensures Settled(ScenarioA(now), now, 30)
    ensures !Settled(ScenarioB(now), now, 30)
    ensures Settled(ScenarioC(), now, 30)
  {
    assert Settled(ScenarioA(now).subdirs[0], now, 30);
    assert !CheckMtime(ScenarioB(now).files[1].mtime, now, 30);
  }

  /** Of three discovered folders where only the middle one fails the check, the outer two are ready, in order. */
  lemma ReadyOfThree(a: Dir, b: Dir, c: Dir, now: int, settle: int)
    requires Settled(a, now, settle) && !Settled(b, now, settle) && Settled(c, now, settle)
    ensures ReadyFolders([a, b, c], now, settle) == [a.name, c.name]
  {
    assert ReadyFolders([], now, settle) == [];
    ReadyFoldersSnoc([], a, now, settle);
    assert [] + [a] == [a];
    ReadyFoldersSnoc([a], b, now, settle);
    assert [a] + [b] == [a, b];
    ReadyFoldersSnoc([a, b], c, now, settle);
    assert [a, b] + [c] == [a, b, c];
  }

  /** The scenario's ready list is `A` then `C`, in discovery order. */
  lemma ScenarioReadyFolders(now: int)
    ensures ReadyFolders(ScenarioRoot(now).subdirs, now, 30) == ["A", "C"]
  {
    ScenarioEligibility(now);
    ReadyOfThree(ScenarioA(now), ScenarioB(now), ScenarioC(), now, 30);
  }

  /** The source root of the scenario: projects `A`, `B` and `C`. */
  function ScenarioRoot(now: int): Dir {
    Dir("projects", [], [ScenarioA(now), ScenarioB(now), ScenarioC()])
  }

  /**
   * Against a bridge that answers every call, the two ready folders give one
   * selection, `A` and `C` enrolled in that order, one submitted job, and a
   * report of two folders.
   */
  lemma ScenarioArchivesAAndC()
    ensures var service: Service := h => "7\n";
            ArchiveRun(service, "/projects", 2, ["A", "C"])
            == ArchiveResult(
                 [CreateCmd(2), AddDirectoryCmd("7", "/projects", "A"), AddDirectoryCmd("7", "/projects", "C"),
                  SubmitCmd("7")],
                 Submitted("7", 2, ["A", "C"]))
  {
    var service: Service := h => "7\n";
    assert RStrip("7\n") == "7";
    var create, addA, addC := CreateCmd(2), AddDirectoryCmd("7", "/projects", "A"), AddDirectoryCmd("7", "/projects", "C");
    assert Reply(service, [create]) == "7";
    assert Issue(service, [], create) == [create];
    assert Reply(service, [create, addA]) == "7";
    assert Reply(service, [create, addA, addC]) == "7";
    assert Reply(service, [create, addA, addC, SubmitCmd("7")]) == "7";
    assert ["A", "C"][1..] == ["C"] && ["C"][1..] == [];
    assert EnrollAll(service, [create, addA, addC], "7", "/projects", [], ["A", "C"])
        == Enrollment([create, addA, addC], ["A", "C"]);
    assert EnrollAll(service, [create, addA], "7", "/projects", ["C"], ["A"])
        == Enrollment([create, addA, addC], ["A", "C"]);
    assert EnrollAll(service, [create], "7", "/projects", ["A", "C"], [])
        == Enrollment([create, addA, addC], ["A", "C"]);
  }

  /** A bridge that answers the one command `rejected` with a blank line and every other command with `7`. */
  function Rejecting(rejected: Command): Service {
    h => if |h| > 0 && h[|h| - 1] == rejected then "\n" else "7\n"
  }

  /** The three `adddirectory` commands of the scenario differ from each other and from a query. */
  lemma ScenarioCommandsDiffer()
    ensures var addX, addY, addZ := AddDirectoryCmd("7", "/projects", "X"), AddDirectoryCmd("7", "/projects", "Y"),
                                    AddDirectoryCmd("7", "/projects", "Z");
            addY != addX && addZ != addX && GetErrorCmd != addX && CreateCmd(2) != addX && SubmitCmd("7") != addX
  {
    var addX, addY, addZ := AddDirectoryCmd("7", "/projects", "X"), AddDirectoryCmd("7", "/projects", "Y"),
                            AddDirectoryCmd("7", "/projects", "Z");
    assert addX[3] == "{/projects/X}" && addY[3] == "{/projects/Y}" && addZ[3] == "{/projects/Z}";
    assert addX[3][11] == 'X' && addY[3][11] == 'Y' && addZ[3][11] == 'Z';
  }

  /** `X` is turned down: one query follows it and nothing is enrolled. */
  lemma ScenarioRejectsX()
    ensures var addX := AddDirectoryCmd("7", "/projects", "X");
            EnrollAll(Rejecting(addX), [CreateCmd(2)], "7", "/projects", ["X", "Y", "Z"], [])
            == EnrollAll(Rejecting(addX), [CreateCmd(2), addX, GetErrorCmd], "7", "/projects", ["Y", "Z"], [])
  {
    var addX := AddDirectoryCmd("7", "/projects", "X");
    assert RStrip("\n") == "";
    assert Reply(Rejecting(addX), [CreateCmd(2), addX]) == "";
    assert [CreateCmd(2)] + [addX] == [CreateCmd(2), addX];
    assert Issue(Rejecting(addX), [CreateCmd(2)], addX) == [CreateCmd(2), addX, GetErrorCmd];
    assert ["X", "Y", "Z"][1..] == ["Y", "Z"];
    EnrollStep(Rejecting(addX), [CreateCmd(2)], "7", "/projects", ["X", "Y", "Z"], []);
  }

  /** `Y` and then `Z` are accepted and enrolled, in that order. */
  lemma ScenarioAcceptsYAndZ()
    ensures var addX, addY, addZ := AddDirectoryCmd("7", "/projects", "X"), AddDirectoryCmd("7", "/projects", "Y"),
                                    AddDirectoryCmd("7", "/projects", "Z");
            var t1 := [CreateCmd(2), addX, GetErrorCmd];
            EnrollAll(Rejecting(addX), t1, "7", "/projects", ["Y", "Z"], [])
            == Enrollment(t1 + [addY, addZ], ["Y", "Z"])
  {
    var addX, addY, addZ := AddDirectoryCmd("7", "/projects", "X"), AddDirectoryCmd("7", "/projects", "Y"),
                            AddDirectoryCmd("7", "/projects", "Z");
    var service := Rejecting(addX);
    var t1 := [CreateCmd(2), addX, GetErrorCmd];
    ScenarioCommandsDiffer();
    assert RStrip("7\n") == "7";
    assert Reply(service, t1 + [addY]) == "7";
    assert Reply(service, t1 + [addY] + [addZ]) == "7";
    assert ["Y", "Z"][1..] == ["Z"] && ["Z"][1..] == [];
    EnrollStep(service, t1, "7", "/projects", ["Y", "Z"], []);
    EnrollStep(service, t1 + [addY], "7", "/projects", ["Z"], ["Y"]);
    assert [] + ["Y"] == ["Y"] && ["Y"] + ["Z"] == ["Y", "Z"];
    assert t1 + [addY] + [addZ] == t1 + [addY, addZ];
  }

  /**
   * When the bridge turns down `X` but accepts `Y` and `Z`, the loop queries
   * the error once, right after `X`, and goes on: `Y` and `Z` are enrolled.
   */
  lemma ScenarioEnrollSkipsX()
    ensures var addX, addY, addZ := AddDirectoryCmd("7", "/projects", "X"), AddDirectoryCmd("7", "/projects", "Y"),
                                    AddDirectoryCmd("7", "/projects", "Z");
            EnrollAll(Rejecting(addX), [CreateCmd(2)], "7", "/projects", ["X", "Y", "Z"], [])
            == Enrollment([CreateCmd(2), addX, GetErrorCmd, addY, addZ], ["Y", "Z"])
  {
    ScenarioRejectsX();
    ScenarioAcceptsYAndZ();
  }

  /**
   * A failed `adddirectory` does not stop the run: the job holds `Y` and `Z`,
   * yet reports the three folders it was handed.
   */
  lemma ScenarioSkipsRejectedFolder()
    ensures var addX := AddDirectoryCmd("7", "/projects", "X");
            ArchiveRun(Rejecting(addX), "/projects", 2, ["X", "Y", "Z"])
            == ArchiveResult(
                 [CreateCmd(2), addX, GetErrorCmd, AddDirectoryCmd("7", "/projects", "Y"),
                  AddDirectoryCmd("7", "/projects", "Z"), SubmitCmd("7")],
                 Submitted("7", 3, ["Y", "Z"]))
  {
    var create := CreateCmd(2);
    var addX := AddDirectoryCmd("7", "/projects", "X");
    var service := Rejecting(addX);
    assert RStrip("7\n") == "7";
    ScenarioCommandsDiffer();
    assert Reply(service, [create]) == "7";
    CreatedRunShape(service, "/projects", 2, ["X", "Y", "Z"]);
    ScenarioEnrollSkipsX();
    var t3 := [create, addX, GetErrorCmd, AddDirectoryCmd("7", "/projects", "Y"), AddDirectoryCmd("7", "/projects", "Z")];
    var submit := SubmitCmd("7");
    assert Reply(service, t3 + [submit]) == "7";
    assert Issue(service, t3, submit) == t3 + [submit];
  }
}
