/**
 * `archive_folders`: the create -> enroll -> submit protocol against the P5
 * command-line bridge. The bridge is an oracle: given the history of commands
 * issued so far, it answers the last one with a raw output string. A run is the
 * trace of commands the script issues plus its outcome.
 */
module Orchestrator {
  import opened Text

  /** The arguments of one P5 call (what follows the fixed `nsdchat -s <socket> -c` prefix). */
  type Command = seq<string>

  /** The P5 bridge: the raw standard output of the last command of a history. */
  type Service = seq<Command> -> string

  function CreateCmd(plan: int): Command {
    ["ArchiveSelection", "create", "localhost", IntToString(plan)]
  }

  function AddDirectoryCmd(selection: string, sourceDirectory: string, folder: string): Command {
    ["ArchiveSelection", selection, "adddirectory", "{" + sourceDirectory + "/" + folder + "}"]
  }

  function SubmitCmd(selection: string): Command {
    ["ArchiveSelection", selection, "submit", "now"]
  }

  const GetErrorCmd: Command := ["geterror"]

  predicate IsSubmit(c: Command) {
    |c| == 4 && c[0] == "ArchiveSelection" && c[2] == "submit"
  }

  /** The right-stripped answer to the last command of `history`; "" signals failure. */
  function Reply(service: Service, history: seq<Command>): string {
    RStrip(service(history))
  }

  /** Issue `c`; when its stripped answer is empty, query the bridge's last error. */
  function Issue(service: Service, trace: seq<Command>, c: Command): (t: seq<Command>)
    ensures |t| > |trace| && t[..|trace| + 1] == trace + [c]
  {
    var t := trace + [c];
    if Reply(service, t) == "" then t + [GetErrorCmd] else t
  }

  /** The outcome of `archive_folders`: `exit(1)`, or a submitted job with the folder count it reports. */
  datatype Outcome =
    | Aborted
    | Submitted(job: string, reportedCount: nat, enrolled: seq<string>)

  datatype ArchiveResult = ArchiveResult(trace: seq<Command>, outcome: Outcome)

  datatype Enrollment = Enrollment(trace: seq<Command>, enrolled: seq<string>)

  /** The enrollment loop from a given trace: one `adddirectory` per folder, in order, whatever the answers. */
  function EnrollAll(service: Service, trace: seq<Command>, selection: string, sourceDirectory: string,
                     folders: seq<string>, enrolled: seq<string>): Enrollment
    decreases |folders|
  {
    if folders == [] then Enrollment(trace, enrolled)
    else
      var add := AddDirectoryCmd(selection, sourceDirectory, folders[0]);
      var t := Issue(service, trace, add);
      if Reply(service, trace + [add]) == "" then
        EnrollAll(service, t, selection, sourceDirectory, folders[1..], enrolled)
      else
        EnrollAll(service, t, selection, sourceDirectory, folders[1..], enrolled + [folders[0]])
  }

  /** What `archive_folders(folders)` does, as a function of the bridge's answers. */
  function ArchiveRun(service: Service, sourceDirectory: string, plan: int, folders: seq<string>): ArchiveResult {
    var create := CreateCmd(plan);
    var t0 := Issue(service, [], create);
    var selection := Reply(service, [create]);
    if selection == "" then ArchiveResult(t0, Aborted)
    else
      var e := EnrollAll(service, t0, selection, sourceDirectory, folders, []);
      var submit := SubmitCmd(selection);
      var t1 := Issue(service, e.trace, submit);
      var job := Reply(service, e.trace + [submit]);
      if job == "" then ArchiveResult(t1, Aborted)
      else ArchiveResult(t1, Submitted(job, |folders|, e.enrolled))
  }

  /**
   * `archive_folders`, step by step: each call appends its command to the
   * trace before its answer is read. Besides agreeing with `ArchiveRun`, the
   * run keeps the protocol: a blank create answer ends it after one
   * `geterror`; otherwise every folder gets one `adddirectory`, in order, and
   * `submit now` follows them all; every failure is queried; the run aborts
   * exactly when it ends on a query; a job reports `len(folders)` and holds
   * exactly the folders whose `adddirectory` the bridge accepted.
   */
  method ArchiveFolders(service: Service, sourceDirectory: string, plan: int, folders: seq<string>)
    returns (trace: seq<Command>, outcome: Outcome)
    ensures ArchiveResult(trace, outcome) == ArchiveRun(service, sourceDirectory, plan, folders)
    ensures Reply(service, [CreateCmd(plan)]) == "" ==> trace == [CreateCmd(plan), GetErrorCmd] && outcome == Aborted
    ensures var selection := Reply(service, [CreateCmd(plan)]);
            selection != "" ==>
              Requests(trace) == [CreateCmd(plan)] + AddCmds(selection, sourceDirectory, folders) + [SubmitCmd(selection)]
    ensures FailuresQueried(service, trace)
    ensures |trace| > 0 && (outcome.Aborted? <==> trace[|trace| - 1] == GetErrorCmd)
    ensures outcome.Submitted? ==>
              && outcome.reportedCount == |folders|
              && IsSubsequence(outcome.enrolled, folders)
              && Queries(trace) == |folders| - |outcome.enrolled|
              && Accepted(service, trace)
                 == [CreateCmd(plan)] + AddCmds(Reply(service, [CreateCmd(plan)]), sourceDirectory, outcome.enrolled)
                    + [SubmitCmd(Reply(service, [CreateCmd(plan)]))]
  {
    ArchiveRunKeepsProtocol(service, sourceDirectory, plan, folders);
    trace := [CreateCmd(plan)];
    assert [] + trace == trace;
    var archiveSelection := RStrip(service(trace));
    if archiveSelection == "" {
      trace := trace + [GetErrorCmd];
      outcome := Aborted;
      return;
    }
    var enrolled: seq<string> := [];
    var i := 0;
    while i < |folders|
      invariant 0 <= i <= |folders|
      invariant EnrollAll(service, trace, archiveSelection, sourceDirectory, folders[i..], enrolled)
             == EnrollAll(service, [CreateCmd(plan)], archiveSelection, sourceDirectory, folders, [])
    {
      assert folders[i..][1..] == folders[i + 1..];
      trace := trace + [AddDirectoryCmd(archiveSelection, sourceDirectory, folders[i])];
      var thisHandle := RStrip(service(trace));
      if thisHandle == "" {
        trace := trace + [GetErrorCmd];
      } else {
        enrolled := enrolled + [folders[i]];
      }
      i := i + 1;
    }
    assert folders[i..] == [];
    trace := trace + [SubmitCmd(archiveSelection)];
    var jobNumber := RStrip(service(trace));
    if jobNumber == "" {
      trace := trace + [GetErrorCmd];
      outcome := Aborted;
    } else {
      outcome := Submitted(jobNumber, |folders|, enrolled);
    }
  }

  /** The commands of a trace other than the `geterror` queries, in order. */
  function Requests(t: seq<Command>): (rs: seq<Command>)
    ensures |rs| <= |t|
  {
    if t == [] then []
    else Requests(t[..|t| - 1]) + (if t[|t| - 1] == GetErrorCmd then [] else [t[|t| - 1]])
  }

  /** How many `geterror` queries a trace holds. */
  function Queries(t: seq<Command>): (n: nat)
    ensures n == 0 <==> GetErrorCmd !in t
  {
    if t == [] then 0
    else
      var init := t[..|t| - 1];
      assert t == init + [t[|t| - 1]];
      Queries(init) + (if t[|t| - 1] == GetErrorCmd then 1 else 0)
  }

  /**
   * The commands of a trace that the bridge answered with a non-blank string,
   * in order: every command that is not a `geterror` query and whose stripped
   * answer is non-empty.
   */
  function Accepted(service: Service, t: seq<Command>): (cs: seq<Command>)
    ensures |cs| <= |t|
    ensures GetErrorCmd !in cs
  {
    if t == [] then []
    else
      var c := t[|t| - 1];
      Accepted(service, t[..|t| - 1]) + (if c != GetErrorCmd && Reply(service, t) != "" then [c] else [])
  }

  /** One `adddirectory` command per folder, in list order. */
  function AddCmds(selection: string, sourceDirectory: string, folders: seq<string>): (cs: seq<Command>)
    ensures |cs| == |folders|
    ensures forall i :: 0 <= i < |folders| ==> cs[i] == AddDirectoryCmd(selection, sourceDirectory, folders[i])
  {
    seq(|folders|, i requires 0 <= i < |folders| => AddDirectoryCmd(selection, sourceDirectory, folders[i]))
  }

  /**
   * Every command whose stripped answer is empty is immediately followed by a
   * `geterror` query, and every `geterror` query immediately follows such a command.
   */
  ghost predicate FailuresQueried(service: Service, t: seq<Command>) {
    && (forall i :: 0 <= i < |t| && t[i] != GetErrorCmd && Reply(service, t[..i + 1]) == "" ==>
          i + 1 < |t| && t[i + 1] == GetErrorCmd)
    && (forall i :: 0 <= i < |t| && t[i] == GetErrorCmd ==>
          0 < i && t[i - 1] != GetErrorCmd && Reply(service, t[..i]) == "")
  }

  /** `a` is `b` with some elements left out, the rest in their original order. */
  predicate IsSubsequence<T(==)>(a: seq<T>, b: seq<T>)
    decreases |b|
  {
    if b == [] then a == []
    else (a != [] && a[0] == b[0] && IsSubsequence(a[1..], b[1..])) || IsSubsequence(a, b[1..])
  }

  lemma IssueCounts(service: Service, t: seq<Command>, c: Command)
    requires c != GetErrorCmd
    ensures Requests(Issue(service, t, c)) == Requests(t) + [c]
    ensures Queries(Issue(service, t, c)) == Queries(t) + (if Reply(service, t + [c]) == "" then 1 else 0)
  {
    var t' := t + [c];
    assert t'[..|t|] == t;
    if Reply(service, t') == "" {
      assert (t' + [GetErrorCmd])[..|t'|] == t';
    }
  }

  lemma IssueAccepted(service: Service, t: seq<Command>, c: Command)
    requires c != GetErrorCmd
    ensures Reply(service, t + [c]) != "" ==> Accepted(service, Issue(service, t, c)) == Accepted(service, t) + [c]
    ensures Reply(service, t + [c]) == "" ==> Accepted(service, Issue(service, t, c)) == Accepted(service, t)
  {
    var t' := t + [c];
    assert t'[..|t|] == t;
    if Reply(service, t') == "" {
      assert (t' + [GetErrorCmd])[..|t'|] == t';
    }
  }

  lemma IssueKeepsQueried(service: Service, t: seq<Command>, c: Command)
    requires c != GetErrorCmd
    requires FailuresQueried(service, t)
    ensures FailuresQueried(service, Issue(service, t, c))
  {
    var t' := Issue(service, t, c);
    var failed := Reply(service, t + [c]) == "";
    assert |t'| == |t| + (if failed then 2 else 1);
    assert forall i :: 0 <= i < |t| ==> t'[i] == t[i];
    assert t'[|t|] == c;
    assert failed ==> t'[|t| + 1] == GetErrorCmd;
    forall i | 0 <= i < |t'| && t'[i] != GetErrorCmd && Reply(service, t'[..i + 1]) == ""
      ensures i + 1 < |t'| && t'[i + 1] == GetErrorCmd
    {
      if i < |t| {
        assert t'[..i + 1] == t[..i + 1];
      } else {
        assert t'[..i + 1] == t + [c];
      }
    }
    forall i | 0 <= i < |t'| && t'[i] == GetErrorCmd
      ensures 0 < i && t'[i - 1] != GetErrorCmd && Reply(service, t'[..i]) == ""
    {
      if i < |t| {
        assert t'[..i] == t[..i];
      } else {
        assert i == |t| + 1;
        assert t'[..i] == t + [c];
      }
    }
  }

  /** One loop step: the `adddirectory` for the first folder, then the loop over the rest. */
  lemma EnrollStep(service: Service, trace: seq<Command>, selection: string,
                   sourceDirectory: string, folders: seq<string>, enrolled: seq<string>)
    requires folders != []
    ensures var add := AddDirectoryCmd(selection, sourceDirectory, folders[0]);
            var ok := Reply(service, trace + [add]) != "";
            EnrollAll(service, trace, selection, sourceDirectory, folders, enrolled)
            == EnrollAll(service, Issue(service, trace, add), selection, sourceDirectory, folders[1..],
                         if ok then enrolled + [folders[0]] else enrolled)
  {
  }

  lemma {:induction false} EnrollRequests(service: Service, trace: seq<Command>, selection: string,
                                          sourceDirectory: string, folders: seq<string>, enrolled: seq<string>)
    ensures Requests(EnrollAll(service, trace, selection, sourceDirectory, folders, enrolled).trace)
            == Requests(trace) + AddCmds(selection, sourceDirectory, folders)
    decreases |folders|
  {
    if folders != [] {
      var add := AddDirectoryCmd(selection, sourceDirectory, folders[0]);
      var t := Issue(service, trace, add);
      var enrolled' := if Reply(service, trace + [add]) != "" then enrolled + [folders[0]] else enrolled;
      EnrollStep(service, trace, selection, sourceDirectory, folders, enrolled);
      IssueCounts(service, trace, add);
      EnrollRequests(service, t, selection, sourceDirectory, folders[1..], enrolled');
      AddCmdsCons(selection, sourceDirectory, folders);
    }
  }

  lemma AddCmdsCons(selection: string, sourceDirectory: string, folders: seq<string>)
    requires folders != []
    ensures AddCmds(selection, sourceDirectory, folders)
         == [AddDirectoryCmd(selection, sourceDirectory, folders[0])] + AddCmds(selection, sourceDirectory, folders[1..])
  {
  }

  lemma {:induction false} EnrollQueries(service: Service, trace: seq<Command>, selection: string,
                                         sourceDirectory: string, folders: seq<string>, enrolled: seq<string>)
    ensures var e := EnrollAll(service, trace, selection, sourceDirectory, folders, enrolled);
            Queries(e.trace) + |e.enrolled| == Queries(trace) + |enrolled| + |folders|
    decreases |folders|
  {
    if folders != [] {
      var add := AddDirectoryCmd(selection, sourceDirectory, folders[0]);
      var t := Issue(service, trace, add);
      var enrolled' := if Reply(service, trace + [add]) != "" then enrolled + [folders[0]] else enrolled;
      EnrollStep(service, trace, selection, sourceDirectory, folders, enrolled);
      IssueCounts(service, trace, add);
      EnrollQueries(service, t, selection, sourceDirectory, folders[1..], enrolled');
    }
  }

  lemma {:induction false} EnrollKeepsQueried(service: Service, trace: seq<Command>, selection: string,
                                              sourceDirectory: string, folders: seq<string>, enrolled: seq<string>)
    requires FailuresQueried(service, trace)
    ensures FailuresQueried(service, EnrollAll(service, trace, selection, sourceDirectory, folders, enrolled).trace)
    decreases |folders|
  {
    if folders != [] {
      var add := AddDirectoryCmd(selection, sourceDirectory, folders[0]);
      IssueKeepsQueried(service, trace, add);
      var enrolled' := if Reply(service, trace + [add]) == "" then enrolled else enrolled + [folders[0]];
      EnrollKeepsQueried(service, Issue(service, trace, add), selection, sourceDirectory, folders[1..], enrolled');
    }
  }

  lemma {:induction false} EnrollSelects(service: Service, trace: seq<Command>, selection: string,
                                         sourceDirectory: string, folders: seq<string>, enrolled: seq<string>)
    ensures var e := EnrollAll(service, trace, selection, sourceDirectory, folders, enrolled);
            && |enrolled| <= |e.enrolled| && e.enrolled[..|enrolled|] == enrolled
            && IsSubsequence(e.enrolled[|enrolled|..], folders)
    decreases |folders|
  {
    var e := EnrollAll(service, trace, selection, sourceDirectory, folders, enrolled);
    if folders == [] {
      assert e.enrolled[|enrolled|..] == [];
    } else {
      var add := AddDirectoryCmd(selection, sourceDirectory, folders[0]);
      var t := Issue(service, trace, add);
      if Reply(service, trace + [add]) == "" {
        EnrollSelects(service, t, selection, sourceDirectory, folders[1..], enrolled);
      } else {
        var enrolled' := enrolled + [folders[0]];
        EnrollSelects(service, t, selection, sourceDirectory, folders[1..], enrolled');
        assert e.enrolled[..|enrolled'|][..|enrolled|] == e.enrolled[..|enrolled|];
        var rest := e.enrolled[|enrolled|..];
        assert rest[0] == folders[0];
        assert rest[1..] == e.enrolled[|enrolled'|..];
      }
    }
  }

  /**
   * The folders the loop enrolls are exactly those whose `adddirectory` the
   * bridge accepted: the accepted commands the loop adds to the trace are the
   * `adddirectory` commands of the newly enrolled folders, in order.
   */
  lemma {:induction false} EnrollAccepted(service: Service, trace: seq<Command>, selection: string,
                                          sourceDirectory: string, folders: seq<string>, enrolled: seq<string>)
    ensures var e := EnrollAll(service, trace, selection, sourceDirectory, folders, enrolled);
            && |enrolled| <= |e.enrolled| && e.enrolled[..|enrolled|] == enrolled
            && Accepted(service, e.trace)
               == Accepted(service, trace) + AddCmds(selection, sourceDirectory, e.enrolled[|enrolled|..])
    decreases |folders|
  {
    var e := EnrollAll(service, trace, selection, sourceDirectory, folders, enrolled);
    if folders == [] {
      assert e.enrolled[|enrolled|..] == [];
      AppendNil(Accepted(service, trace));
    } else {
      var add := AddDirectoryCmd(selection, sourceDirectory, folders[0]);
      var ok := Reply(service, trace + [add]) != "";
      var enrolled' := if ok then enrolled + [folders[0]] else enrolled;
      var t := Issue(service, trace, add);
      EnrollStep(service, trace, selection, sourceDirectory, folders, enrolled);
      assert e == EnrollAll(service, t, selection, sourceDirectory, folders[1..], enrolled');
      IssueAccepted(service, trace, add);
      EnrollAccepted(service, t, selection, sourceDirectory, folders[1..], enrolled');
      if ok {
        AcceptedEnrollsOne(selection, sourceDirectory, folders[0], Accepted(service, trace), Accepted(service, t),
                           Accepted(service, e.trace), enrolled, e.enrolled);
      }
    }
  }

  /** The bookkeeping of one accepted `adddirectory`: the folder joins the enrolled list and its command the accepted ones. */
  lemma AcceptedEnrollsOne(selection: string, sourceDirectory: string, folder: string,
                           before: seq<Command>, after: seq<Command>, final: seq<Command>,
                           enrolled: seq<string>, finalEnrolled: seq<string>)
    requires after == before + [AddDirectoryCmd(selection, sourceDirectory, folder)]
    requires |enrolled| + 1 <= |finalEnrolled| && finalEnrolled[..|enrolled| + 1] == enrolled + [folder]
    requires final == after + AddCmds(selection, sourceDirectory, finalEnrolled[|enrolled| + 1..])
    ensures finalEnrolled[..|enrolled|] == enrolled
    ensures final == before + AddCmds(selection, sourceDirectory, finalEnrolled[|enrolled|..])
  {
    var add := AddDirectoryCmd(selection, sourceDirectory, folder);
    PrefixStep(finalEnrolled, enrolled, folder);
    var rest := finalEnrolled[|enrolled|..];
    AddCmdsCons(selection, sourceDirectory, rest);
    assert rest[1..] == finalEnrolled[|enrolled| + 1..];
    AppendAssoc(before, [add], AddCmds(selection, sourceDirectory, rest[1..]));
  }

  lemma AppendNil<T>(a: seq<T>)
    ensures a + [] == a
  {
  }

  lemma AppendAssoc<T>(a: seq<T>, b: seq<T>, c: seq<T>)
    ensures (a + b) + c == a + (b + c)
  {
  }

  /** Splitting a sequence just after a known prefix `a + [x]`. */
  lemma PrefixStep<T>(s: seq<T>, a: seq<T>, x: T)
    requires |a| + 1 <= |s| && s[..|a| + 1] == a + [x]
    ensures s[..|a|] == a
    ensures s[|a|..] == [x] + s[|a| + 1..]
  {
    assert s[..|a|] == s[..|a| + 1][..|a|];
    assert s[|a|..][0] == s[..|a| + 1][|a|];
  }

  /** A create answer made only of whitespace is a failure: one `geterror` query, nothing enrolled or submitted, `exit(1)`. */
  lemma BlankCreateAborts(service: Service, sourceDirectory: string, plan: int, folders: seq<string>)
    requires forall k :: 0 <= k < |service([CreateCmd(plan)])| ==> IsSpace(service([CreateCmd(plan)])[k])
    ensures ArchiveRun(service, sourceDirectory, plan, folders)
         == ArchiveResult([CreateCmd(plan), GetErrorCmd], Aborted)
  {
    assert [] + [CreateCmd(plan)] == [CreateCmd(plan)];
  }

  /**
   * After a successful create, the requests are: the create, one `adddirectory`
   * per folder in list order, then `submit now` once, last, whatever the
   * enrollments answered.
   */
  lemma ProtocolOrder(service: Service, sourceDirectory: string, plan: int, folders: seq<string>)
    requires Reply(service, [CreateCmd(plan)]) != ""
    ensures var selection := Reply(service, [CreateCmd(plan)]);
            var rs := Requests(ArchiveRun(service, sourceDirectory, plan, folders).trace);
            && rs == [CreateCmd(plan)] + AddCmds(selection, sourceDirectory, folders) + [SubmitCmd(selection)]
            && IsSubmit(rs[|rs| - 1])
            && forall j :: 0 <= j < |rs| - 1 ==> !IsSubmit(rs[j])
  {
    var create := CreateCmd(plan);
    var selection := Reply(service, [create]);
    var t0 := Issue(service, [], create);
    CreatedRunShape(service, sourceDirectory, plan, folders);
    IssueCounts(service, [], create);
    assert Requests(t0) == [create];
    EnrollRequests(service, t0, selection, sourceDirectory, folders, []);
    var e := EnrollAll(service, t0, selection, sourceDirectory, folders, []);
    IssueCounts(service, e.trace, SubmitCmd(selection));
    OnlyLastIsSubmit(create, selection, sourceDirectory, folders);
  }

  /** After a successful create, the run is the enrollment loop followed by one issued `submit now`. */
  lemma CreatedRunShape(service: Service, sourceDirectory: string, plan: int, folders: seq<string>)
    requires Reply(service, [CreateCmd(plan)]) != ""
    ensures var create := CreateCmd(plan);
            var selection := Reply(service, [create]);
            var e := EnrollAll(service, Issue(service, [], create), selection, sourceDirectory, folders, []);
            var submit := SubmitCmd(selection);
            var job := Reply(service, e.trace + [submit]);
            && Issue(service, [], create) == [create]
            && ArchiveRun(service, sourceDirectory, plan, folders)
               == ArchiveResult(Issue(service, e.trace, submit),
                                if job == "" then Aborted else Submitted(job, |folders|, e.enrolled))
  {
    assert [] + [CreateCmd(plan)] == [CreateCmd(plan)];
  }

  lemma OnlyLastIsSubmit(create: Command, selection: string, sourceDirectory: string, folders: seq<string>)
    requires !IsSubmit(create)
    ensures var rs := [create] + AddCmds(selection, sourceDirectory, folders) + [SubmitCmd(selection)];
            IsSubmit(rs[|rs| - 1]) && forall j :: 0 <= j < |rs| - 1 ==> !IsSubmit(rs[j])
  {
    var rs := [create] + AddCmds(selection, sourceDirectory, folders) + [SubmitCmd(selection)];
    forall j | 0 <= j < |rs| - 1 ensures !IsSubmit(rs[j]) {
      if j > 0 {
        assert rs[j] == AddDirectoryCmd(selection, sourceDirectory, folders[j - 1]);
      }
    }
  }

  /** In every run, each failed call is followed by exactly one `geterror` query, and no other query is issued. */
  lemma FailuresAreQueried(service: Service, sourceDirectory: string, plan: int, folders: seq<string>)
    ensures FailuresQueried(service, ArchiveRun(service, sourceDirectory, plan, folders).trace)
  {
    var create := CreateCmd(plan);
    assert [] + [create] == [create];
    IssueKeepsQueried(service, [], create);
    var t0 := Issue(service, [], create);
    var selection := Reply(service, [create]);
    if selection != "" {
      EnrollKeepsQueried(service, t0, selection, sourceDirectory, folders, []);
      var e := EnrollAll(service, t0, selection, sourceDirectory, folders, []);
      IssueKeepsQueried(service, e.trace, SubmitCmd(selection));
    }
  }

  /** The run ends in `exit(1)` exactly when its last command is a `geterror` query. */
  lemma AbortsExactlyAfterQuery(service: Service, sourceDirectory: string, plan: int, folders: seq<string>)
    ensures var r := ArchiveRun(service, sourceDirectory, plan, folders);
            |r.trace| > 0 && (r.outcome.Aborted? <==> r.trace[|r.trace| - 1] == GetErrorCmd)
  {
    var create := CreateCmd(plan);
    assert [] + [create] == [create];
    var selection := Reply(service, [create]);
    if selection != "" {
      CreatedRunShape(service, sourceDirectory, plan, folders);
    }
  }

  /**
   * A submitted job reports `len(folders)`, the number of folders handed in;
   * the folders actually enrolled are a subsequence of those, and the report
   * exceeds their number by exactly the number of `geterror` queries, one per
   * failed enrollment.
   */
  lemma SubmittedReport(service: Service, sourceDirectory: string, plan: int, folders: seq<string>)
    requires ArchiveRun(service, sourceDirectory, plan, folders).outcome.Submitted?
    ensures var r := ArchiveRun(service, sourceDirectory, plan, folders);
            && r.outcome.job != ""
            && r.outcome.reportedCount == |folders|
            && IsSubsequence(r.outcome.enrolled, folders)
            && Queries(r.trace) == r.outcome.reportedCount - |r.outcome.enrolled|
  {
    var create := CreateCmd(plan);
    assert [] + [create] == [create];
    var t0 := Issue(service, [], create);
    var selection := Reply(service, [create]);
    assert selection != "";
    IssueCounts(service, [], create);
    assert Queries(t0) == 0;
    EnrollQueries(service, t0, selection, sourceDirectory, folders, []);
    EnrollSelects(service, t0, selection, sourceDirectory, folders, []);
    var e := EnrollAll(service, t0, selection, sourceDirectory, folders, []);
    assert e.enrolled[0..] == e.enrolled;
    var submit := SubmitCmd(selection);
    IssueCounts(service, e.trace, submit);
    CreatedRunShape(service, sourceDirectory, plan, folders);
  }

  /**
   * Which folders a submitted job holds: the commands the bridge accepted are
   * the create, the `adddirectory` of each enrolled folder in order, and the
   * submit. So a folder is enrolled exactly when its `adddirectory` answer
   * strips to a non-empty handle, and no other folder is.
   */
  lemma SubmittedHoldsAcceptedFolders(service: Service, sourceDirectory: string, plan: int, folders: seq<string>)
    requires ArchiveRun(service, sourceDirectory, plan, folders).outcome.Submitted?
    ensures var r := ArchiveRun(service, sourceDirectory, plan, folders);
            var selection := Reply(service, [CreateCmd(plan)]);
            Accepted(service, r.trace)
            == [CreateCmd(plan)] + AddCmds(selection, sourceDirectory, r.outcome.enrolled) + [SubmitCmd(selection)]
  {
    var create := CreateCmd(plan);
    CreatedRunShape(service, sourceDirectory, plan, folders);
    AcceptedAfterCreate(service, create, Reply(service, [create]), sourceDirectory, folders);
  }

  /** The accepted commands of a run whose create and submit were both answered. */
  lemma AcceptedAfterCreate(service: Service, create: Command, selection: string,
                            sourceDirectory: string, folders: seq<string>)
    requires create != GetErrorCmd && Reply(service, [create]) == selection != ""
    requires var e := EnrollAll(service, [create], selection, sourceDirectory, folders, []);
             Reply(service, e.trace + [SubmitCmd(selection)]) != ""
    ensures var e := EnrollAll(service, [create], selection, sourceDirectory, folders, []);
            Accepted(service, Issue(service, e.trace, SubmitCmd(selection)))
            == [create] + AddCmds(selection, sourceDirectory, e.enrolled) + [SubmitCmd(selection)]
  {
    AcceptedCreate(service, create);
    EnrollAccepted(service, [create], selection, sourceDirectory, folders, []);
    var e := EnrollAll(service, [create], selection, sourceDirectory, folders, []);
    assert e.enrolled[0..] == e.enrolled;
    IssueAccepted(service, e.trace, SubmitCmd(selection));
  }

  /** A create that was answered is the first accepted command. */
  lemma AcceptedCreate(service: Service, create: Command)
    requires create != GetErrorCmd && Reply(service, [create]) != ""
    ensures Accepted(service, [create]) == [create]
  {
    assert [] + [create] == [create];
    IssueAccepted(service, [], create);
  }

  lemma ArchiveRunKeepsProtocol(service: Service, sourceDirectory: string, plan: int, folders: seq<string>)
    ensures var r := ArchiveRun(service, sourceDirectory, plan, folders);
            var selection := Reply(service, [CreateCmd(plan)]);
            && (selection == "" ==> r == ArchiveResult([CreateCmd(plan), GetErrorCmd], Aborted))
            && (selection != "" ==>
                  Requests(r.trace) == [CreateCmd(plan)] + AddCmds(selection, sourceDirectory, folders) + [SubmitCmd(selection)])
            && FailuresQueried(service, r.trace)
            && |r.trace| > 0 && (r.outcome.Aborted? <==> r.trace[|r.trace| - 1] == GetErrorCmd)
            && (r.outcome.Submitted? ==>
                  && r.outcome.reportedCount == |folders|
                  && IsSubsequence(r.outcome.enrolled, folders)
                  && Queries(r.trace) == |folders| - |r.outcome.enrolled|
                  && Accepted(service, r.trace)
                     == [CreateCmd(plan)] + AddCmds(selection, sourceDirectory, r.outcome.enrolled) + [SubmitCmd(selection)])
  {
    var selection := Reply(service, [CreateCmd(plan)]);
    if selection == "" {
      assert [] + [CreateCmd(plan)] == [CreateCmd(plan)];
    } else {
      ProtocolOrder(service, sourceDirectory, plan, folders);
    }
    FailuresAreQueried(service, sourceDirectory, plan, folders);
    AbortsExactlyAfterQuery(service, sourceDirectory, plan, folders);
    if ArchiveRun(service, sourceDirectory, plan, folders).outcome.Submitted? {
      SubmittedReport(service, sourceDirectory, plan, folders);
      SubmittedHoldsAcceptedFolders(service, sourceDirectory, plan, folders);
    }
  }
}
