# P5 project archiver — a verified model

`p5_project_archiver.py` is a batch job that looks at every top-level
project folder under a source directory, decides which folders have
"settled" (no file in them, at any depth, was modified within the last
`settle` days), and hands the settled folders to an Archiware P5 server
through its `nsdchat` command-line bridge: it creates an archive
selection for an archive plan, adds one directory per settled folder, and
submits the selection as a job. In dry-run mode it only decides.

The model has five modules:

- `Text` — Python 2 `str.rstrip()`, `str(int)` and POSIX `os.path.join`.
- `Scanner` — a folder tree (`Dir`: name, files with their modification
  times, sub-folders in listing order), a top-down `os.walk`
  (`Walk`/`WalkEach`), `get_all_subdirs` and `get_all_files` (a method
  with the source's two nested loops, proved equal to an independent tree
  recursion `TreeFiles`).
- `Eligibility` — `check_mtime`, the counting loop of
  `check_folder_is_archivable` (a method), a tree-level reference
  predicate `Settled`, and the order-preserving filter that builds
  `folders_ready`.
- `Orchestrator` — `archive_folders` as a method that records every
  command sent to the bridge in a trace, proved equal to a functional
  description `ArchiveRun`, with the protocol properties proved about
  `ArchiveRun`. The bridge is an oracle `Service`: given the history of
  commands sent so far, it returns the raw standard output of the last
  one.
- `RunControl` — the script's top level (startup checks, the filter loop,
  dry-run gating, exit code) and two worked scenarios.

## Model

| member | source | states |
|---|---|---|
| Text.RStrip | p5_project_archiver.py:100 | the result is the longest prefix of the input that does not end in ASCII whitespace; it is empty exactly when the input is all whitespace |
| Text.IntToStringRoundTrip | p5_project_archiver.py:100 | `str(plan)` in the create command starts with `-` exactly when the plan is negative, and reading the text back as a decimal number gives the plan |
| Text.IntToStringDigits | p5_project_archiver.py:100 | every character of `str(plan)` after the first is a decimal digit |
| Text.NatToString | p5_project_archiver.py:100 | the decimal text of a natural number is non-empty, all digits, and has no leading zero unless it is `0` |
| Text.NatToStringRoundTrip | p5_project_archiver.py:100 | the decimal digits of a natural number read back as that number |
| Text.JoinCases | p5_project_archiver.py:72 | `os.path.join(a, b)`: an absolute `b` is the whole result; otherwise the result is `a`, then one `/` exactly when `a` is non-empty and does not already end in `/`, then `b` |
| Scanner.Walk | p5_project_archiver.py:76 | the first triple `os.walk` yields is the top folder, its immediate sub-folder names in listing order, and its own files |
| Scanner.WalkVisitsEveryFolder | p5_project_archiver.py:70 | the walk yields exactly one triple per folder of the tree |
| Eligibility.CheckMtime | p5_project_archiver.py:53-64 | a file is settled iff `now - mtime >= settle * 86400`; the boundary (mtime exactly at the cutoff) counts as settled |
| Eligibility.SettledStaysSettled | p5_project_archiver.py:59-64 | a folder that is settled at time `now` is still settled at any later time |
| Scanner.GetAllSubdirs | p5_project_archiver.py:75-76 | the first walk step lists exactly the immediate sub-folder names, in listing order |
| Scanner.GetAllFiles | p5_project_archiver.py:68-73 | the nested loops over the walk return the tree's files in walk order, one record per file (count equals the number of files at every depth), and a record is returned iff the tree holds that file at that joined path |
| Scanner.WalkReportsTreeFiles | p5_project_archiver.py:70-72 | concatenating the files of every top-down walk step gives the same list as a direct recursion over the tree |
| Scanner.TreeFilesAreExactlyTheFiles | p5_project_archiver.py:68-73 | a path/mtime record is in the collected list iff some folder at some depth holds that file |
| Eligibility.UnsettledCountCountsOffenders | p5_project_archiver.py:83-88 | the counter equals the number of positions whose file is not settled, and is zero iff every file is settled |
| Eligibility.CheckFolderIsArchivable | p5_project_archiver.py:80-96 | `n` is the number of unsettled files under `source/folder`; the folder is archivable iff `n == 0`, iff every file in its tree is settled |
| Eligibility.NoOffendersIffSettled | p5_project_archiver.py:83-96 | the collected files contain no unsettled file iff the folder tree is settled |
| Eligibility.EmptyFolderIsSettled | p5_project_archiver.py:91-93 | a folder with no files at any depth is archivable |
| Eligibility.KeptIndices | p5_project_archiver.py:144-150 | the kept positions are strictly increasing, in range, and include position `i` iff sub-folder `i` is settled |
| Eligibility.ReadyFoldersAreKeptInOrder | p5_project_archiver.py:144-150 | `folders_ready` has one entry per kept position and its `k`-th entry is the name of the `k`-th settled sub-folder, so it is an order-preserving filter |
| Eligibility.ReadyFoldersSnoc | p5_project_archiver.py:145-148 | one more loop iteration appends the folder's name iff it is settled and otherwise leaves the list unchanged |
| RunControl.CollectReadyFolders | p5_project_archiver.py:141-150 | the filter loop, calling the archivability check on each listed sub-folder, yields exactly the order-preserving filter of settled sub-folders |
| Orchestrator.ArchiveFolders | p5_project_archiver.py:99-118 | the method's trace and outcome equal `ArchiveRun`; a blank create reply gives `[create, geterror]` and an abort; otherwise the non-query commands are create, one adddirectory per folder in order, then submit; each failed reply is followed by exactly one `geterror`; the run aborts iff its last command is `geterror`; a submitted run reports `len(folders)` and enrolls exactly the folders whose adddirectory was answered |
| Orchestrator.BlankCreateAborts | p5_project_archiver.py:100-103 | when the create reply is empty or whitespace only, the trace is exactly create then `geterror` and the run aborts; no adddirectory or submit is sent |
| Orchestrator.ProtocolOrder | p5_project_archiver.py:104-113 | after a successful create, the requests are create, then `ArchiveSelection <sel> adddirectory {src/folder}` for each folder in order, then exactly one `submit now`, which is the last request |
| Orchestrator.EnrollRequests | p5_project_archiver.py:106-112 | the enrollment loop sends one adddirectory per folder, in order, whatever the replies |
| Orchestrator.EnrollSelects | p5_project_archiver.py:106-112 | the folders recorded as enrolled are a subsequence of the folders given, in order |
| Orchestrator.EnrollAccepted | p5_project_archiver.py:106-112 | the commands the enrollment loop adds to the trace that the bridge answered non-blank are exactly the adddirectory commands of the newly enrolled folders, in order: a folder is enrolled iff its adddirectory got a handle |
| Orchestrator.SubmittedHoldsAcceptedFolders | p5_project_archiver.py:100-118 | in a submitted run the answered commands are the create, the adddirectory of each enrolled folder in order, and the submit, so the job holds exactly the folders whose adddirectory succeeded |
| Orchestrator.FailuresAreQueried | p5_project_archiver.py:100-116 | every command whose reply strips to empty is immediately followed by one `geterror`, and every `geterror` follows such a failure |
| Orchestrator.AbortsExactlyAfterQuery | p5_project_archiver.py:100-116 | the run aborts iff its last command is a `geterror` |
| Orchestrator.SubmittedReport | p5_project_archiver.py:106-118 | a submitted run has a non-empty job number, reports `len(folders)`, its enrolled folders are an in-order subsequence of the folders given, and the number of `geterror` queries equals the number of folders not enrolled |
| RunControl.Run | p5_project_archiver.py:124-158 | a failed startup check exits 1 with no commands; otherwise `folders_ready` is the filter of settled sub-folders; dry run or an empty ready list sends no command and exits 0; otherwise the trace is that of `archive_folders` and the exit code is 1 iff it aborts |
| RunControl.ScenarioReadyFolders | p5_project_archiver.py:141-150 | with a 30-day settle time, of folders A (files 40 and 41 days old), B (60 and 5 days old) and C (empty), exactly A and C are ready, in that order |
| RunControl.ScenarioArchivesAAndC | p5_project_archiver.py:99-118 | with a bridge that always answers `7`, archiving A and C sends create, two adddirectory commands and submit, and reports job `7` with 2 folders |
| RunControl.ScenarioSkipsRejectedFolder | p5_project_archiver.py:106-118 | with a bridge that turns down X and accepts everything else, archiving X, Y and Z sends create, add X, `geterror`, add Y, add Z and submit, enrolls Y and Z only, and reports 3 folders |

## Left out

- Command-line parsing and configuration (lines 10-37): the socket name, the `port + 1001` arithmetic and the `nsdchat -s … -c` prefix are not modelled; a trace records only the arguments after the prefix.
- Log messages are not modelled as text; the count `n`, the enrolled list and the outcome stand for what the log lines report.
- Process spawning in `p5_api_call` (lines 40-49) is replaced by the `Service` oracle; its standard error stream is captured by `communicate()` and discarded, and is not modelled.
- `os.stat` failures (line 55) are not modelled: every file in the tree carries a modification time. The source would raise on an unreadable file.
- Time is integer seconds and `now` is a parameter; the source reads a floating-point clock once per file.
- `os.walk` details: symbolic links to directories are not followed, and a directory that cannot be listed yields nothing; the tree model has neither. In the source, an unreadable project folder therefore contributes no files, so `n == 0` and it counts as archivable; an unreadable source root makes the walk at line 76 yield nothing, so `next(...)` raises `StopIteration` and the script stops.
- The Python 3 `bytes` versus `str` behaviour of the subprocess output is not modelled; output is a string under Python 2 rules.
- The startup checks (lines 131-138) are booleans in `Environment`, not filesystem lookups.
- The final "Script complete" log line (line 161) is not modelled.
- The adddirectory argument joins source and folder with a literal `/` (line 107), while the walk uses `os.path.join` (line 84); the model keeps both as written.
- A creation failure sends two commands (create, then `geterror`), and a submitted run reports `len(folders)`, not the number actually enrolled; the enrolled list is kept alongside.
