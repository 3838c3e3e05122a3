/**
 * The decision logic of the PR management agent: which remote branches are
 * pull-request candidates, which files a failed merge left unmerged, which
 * branch is the merge target, and how the outcomes of merge, completion and
 * conflict-branch creation settle the status of each pull request and the
 * two lists the manager keeps.
 *
 * Every git invocation is replaced by its result, given as input: the exit
 * status and, where the source reads it, the captured standard output.
 */
module PrManager {
  import opened Wrappers
  import opened PyStrings
  import opened Lists

  /** What one git invocation reports back. */
  datatype CommandResult = CommandResult(returncode: int, stdout: string)

  /** A git command run with `check=True` exited non-zero: the source raises `CalledProcessError`. */
  datatype GitError = CalledProcessError(command: string, returncode: int)

  /** `stdout.strip().split("\n")`, the way both parsers cut git output into lines. */
  function Lines(stdout: string): (lines: seq<string>)
    ensures |lines| >= 1
  {
    Split(Strip(stdout), "\n")
  }

  // -----------------------------------------------------------------------
  // get_open_prs: remote branches that are pull-request candidates
  // -----------------------------------------------------------------------

  const ProtectedBranches: seq<string> := ["main", "master", "HEAD"]

  /** The branch one line of `git branch -r` output contributes, if any. */
  function RemoteBranchOf(line: string): Option<string> {
    var l := Strip(line);
    if l != "" && Contains(l, "origin/") && !Contains(l, "->") then
      var branch := Replace(l, "origin/", "");
      if branch in ProtectedBranches then None else Some(branch)
    else None
  }

  /** The candidate branches of a whole listing, in listing order. */
  function RemoteBranches(lines: seq<string>): seq<string> {
    FilterMap(RemoteBranchOf, lines)
  }

  /** `get_open_prs`: the loop over `git branch -r` lines. */
  method GetOpenPrs(branchList: CommandResult) returns (branches: seq<string>)
    ensures branchList.returncode != 0 ==> branches == []
    ensures branchList.returncode == 0 ==> branches == RemoteBranches(Lines(branchList.stdout))
  {
    if branchList.returncode != 0 {
      return [];
    }
    branches := CandidateBranches(Lines(branchList.stdout));
  }

  /** The loop of `get_open_prs` over the lines of the listing. */
  method CandidateBranches(lines: seq<string>) returns (branches: seq<string>)
    ensures branches == RemoteBranches(lines)
  {
    branches := [];
    var i := 0;
    while i < |lines|
      invariant 0 <= i <= |lines|
      invariant branches == RemoteBranches(lines[..i])
    {
      FilterMapSnoc(RemoteBranchOf, lines, i);
      var branch := RemoteBranchOf(lines[i]);
      if branch.Some? {
        branches := branches + [branch.value];
      }
      i := i + 1;
    }
    assert lines[..|lines|] == lines;
  }

  /** No candidate is ever `main`, `master` or `HEAD`. */
  lemma RemoteBranchesNeverProtected(lines: seq<string>)
    ensures forall k :: 0 <= k < |RemoteBranches(lines)| ==> RemoteBranches(lines)[k] !in ProtectedBranches
  {
    var r := RemoteBranches(lines);
    forall k | 0 <= k < |r| ensures r[k] !in ProtectedBranches {
      FilterMapMember(RemoteBranchOf, lines, r[k]);
    }
  }

  /**
   * A candidate is exactly what some line contributes: the stripped line,
   * which mentions `origin/` and no `->`, with every `origin/` cut out.
   */
  lemma RemoteBranchesMember(lines: seq<string>, b: string)
    ensures b in RemoteBranches(lines) <==>
      exists k :: 0 <= k < |lines| && RemoteBranchOf(lines[k]) == Some(b)
    ensures b in RemoteBranches(lines) ==>
      exists k :: 0 <= k < |lines| && Contains(Strip(lines[k]), "origin/") && !Contains(Strip(lines[k]), "->")
        && b == Join(Split(Strip(lines[k]), "origin/"), "")
  {
    FilterMapMember(RemoteBranchOf, lines, b);
    if b in RemoteBranches(lines) {
      var k :| 0 <= k < |lines| && RemoteBranchOf(lines[k]) == Some(b);
      ReplaceIsJoinOfSplit(Strip(lines[k]), "origin/", "");
    }
  }

  /** Lines are handled independently and in order. */
  lemma RemoteBranchesAppend(xs: seq<string>, ys: seq<string>)
    ensures RemoteBranches(xs + ys) == RemoteBranches(xs) + RemoteBranches(ys)
  {
    FilterMapAppend(RemoteBranchOf, xs, ys);
  }

  /** An empty line, a line without `origin/`, or a symbolic `->` line contributes nothing. */
  lemma IgnoredLineContributesNothing(xs: seq<string>, line: string, ys: seq<string>)
    requires Strip(line) == "" || !Contains(Strip(line), "origin/") || Contains(Strip(line), "->")
    ensures RemoteBranches(xs + [line] + ys) == RemoteBranches(xs + ys)
  {
    SkippedContributesNothing(RemoteBranchOf, xs, line, ys);
  }

  // -----------------------------------------------------------------------
  // try_merge: the unmerged files of a failed merge
  // -----------------------------------------------------------------------

  /** The porcelain status codes of unmerged paths. */
  const UnmergedCodes: seq<string> := ["UU", "AA", "DD", "AU", "UA", "DU", "UD"]

  predicate IsUnmergedLine(line: string) {
    exists code :: code in UnmergedCodes && StartsWith(line, code)
  }

  /** The path one line of `git status --short` contributes: `line[3:].strip()` for an unmerged line. */
  function UnmergedPathOf(line: string): Option<string> {
    if IsUnmergedLine(line) then Some(Strip(Drop(line, 3))) else None
  }

  function UnmergedFiles(lines: seq<string>): seq<string> {
    FilterMap(UnmergedPathOf, lines)
  }

  /** The loop of `try_merge` over the lines of `git status --short`. */
  method ConflictingFiles(lines: seq<string>) returns (files: seq<string>)
    ensures files == UnmergedFiles(lines)
  {
    files := [];
    var i := 0;
    while i < |lines|
      invariant 0 <= i <= |lines|
      invariant files == UnmergedFiles(lines[..i])
    {
      FilterMapSnoc(UnmergedPathOf, lines, i);
      var line := lines[i];
      if IsUnmergedLine(line) {
        files := files + [Strip(Drop(line, 3))];
      } else {
        assert UnmergedPathOf(line) == None;
      }
      i := i + 1;
    }
    assert lines[..|lines|] == lines;
  }

  /**
   * A status line contributes iff it starts with an unmerged code, and then
   * contributes its path with no surrounding whitespace; lines keep their order.
   */
  lemma UnmergedFilesMember(lines: seq<string>, path: string)
    ensures path in UnmergedFiles(lines) <==>
      exists k :: 0 <= k < |lines| && IsUnmergedLine(lines[k]) && path == Strip(Drop(lines[k], 3))
    ensures path in UnmergedFiles(lines) ==> path == [] || (!IsSpace(path[0]) && !IsSpace(path[|path| - 1]))
  {
    FilterMapMember(UnmergedPathOf, lines, path);
    if path in UnmergedFiles(lines) {
      var k :| 0 <= k < |lines| && UnmergedPathOf(lines[k]) == Some(path);
    }
  }

  lemma UnmergedFilesAppend(xs: seq<string>, ys: seq<string>)
    ensures UnmergedFiles(xs + ys) == UnmergedFiles(xs) + UnmergedFiles(ys)
  {
    FilterMapAppend(UnmergedPathOf, xs, ys);
  }

  /** A line with any other status (` M`, `??`, ...) contributes nothing. */
  lemma MergedLineContributesNothing(xs: seq<string>, line: string, ys: seq<string>)
    requires !IsUnmergedLine(line)
    ensures UnmergedFiles(xs + [line] + ys) == UnmergedFiles(xs + ys)
  {
    SkippedContributesNothing(UnmergedPathOf, xs, line, ys);
  }

  // -----------------------------------------------------------------------
  // Merging one pull request
  // -----------------------------------------------------------------------

  /**
   * The results of the git commands one pull request runs, whichever of them
   * the source gets to. Commands whose result the source ignores (pull,
   * merge --abort, the conflict-state merge, add, the final checkout and the
   * deletion of the source branch) have no field.
   */
  datatype GitSteps = GitSteps(
    checkoutRc: int,          // git checkout <target>
    mergeRc: int,             // git merge --no-commit --no-ff origin/<branch>
    status: CommandResult,    // git status --short (run with check=True)
    commitRc: int,            // git commit -m "Merge branch ..."
    pushRc: int,              // git push origin <target>
    conflictCheckoutRc: int,  // git checkout -b conflicts/<branch> origin/<branch>
    conflictPushRc: int)      // git push origin conflicts/<branch>

  /** `try_merge`'s `(success, conflicting_files)`. */
  datatype MergeResult = MergeResult(success: bool, conflicts: seq<string>)

  /** What `try_merge` returns, or the error it raises. */
  function MergeAttempt(g: GitSteps): (r: Result<MergeResult, GitError>)
    ensures r.Failure? <==> g.checkoutRc == 0 && g.mergeRc != 0 && g.status.returncode != 0
    ensures r.Success? ==> (r.value.success <==> g.checkoutRc == 0 && g.mergeRc == 0)
    ensures r.Success? && r.value.success ==> r.value.conflicts == []
    ensures r.Success? && g.checkoutRc != 0 ==> r.value == MergeResult(false, [])
    ensures r.Success? && g.checkoutRc == 0 && g.mergeRc != 0 ==>
      r.value.conflicts == UnmergedFiles(Lines(g.status.stdout))
  {
    if g.checkoutRc != 0 then Success(MergeResult(false, []))
    else if g.mergeRc == 0 then Success(MergeResult(true, []))
    else if g.status.returncode != 0 then
      Failure(CalledProcessError("git status --short", g.status.returncode))
    else Success(MergeResult(false, UnmergedFiles(Lines(g.status.stdout))))
  }

  /** `try_merge`. */
  method TryMerge(g: GitSteps) returns (r: Result<MergeResult, GitError>)
    ensures r == MergeAttempt(g)
  {
    if g.checkoutRc != 0 {
      return Success(MergeResult(false, []));
    }
    if g.mergeRc == 0 {
      return Success(MergeResult(true, []));
    }
    if g.status.returncode != 0 {
      return Failure(CalledProcessError("git status --short", g.status.returncode));
    }
    var conflicting := ConflictingFiles(Lines(g.status.stdout));
    if conflicting != [] {
      return Success(MergeResult(false, conflicting));
    } else {
      return Success(MergeResult(false, []));
    }
  }

  /** `complete_merge`: the commit and the push both succeed (a failed branch deletion only warns). */
  function CompleteMerge(g: GitSteps): bool {
    g.commitRc == 0 && g.pushRc == 0
  }

  /** The branch that preserves a conflicting pull request for manual resolution. */
  function ConflictBranchName(branch: string): (name: string)
    ensures StartsWith(name, "conflicts/") && name[|"conflicts/"|..] == branch
    ensures |name| == |branch| + 10
  {
    "conflicts/" + branch
  }

  /** Distinct pull-request branches never share a conflict branch. */
  lemma ConflictBranchNameInjective(a: string, b: string)
    requires ConflictBranchName(a) == ConflictBranchName(b)
    ensures a == b
  {
    assert a == ConflictBranchName(a)[10..];
  }

  /** `create_conflict_branch`: the new branch is created and pushed. */
  function CreateConflictBranch(g: GitSteps): bool {
    g.conflictCheckoutRc == 0 && g.conflictPushRc == 0
  }

  datatype Status = Merged | MergedWithWarnings | Conflicts | Failed

  /** The result dictionary `process_pr` returns (and appends, status included). */
  datatype PrRecord = PrRecord(
    branch: string,
    target: string,
    prNumber: Option<int>,
    success: bool,
    conflicts: seq<string>,
    status: Status)

  /** A record's status agrees with its merge result. */
  predicate Consistent(rec: PrRecord) {
    match rec.status
    case Merged => rec.success && rec.conflicts == []
    case MergedWithWarnings => rec.success && rec.conflicts == []
    case Conflicts => !rec.success && rec.conflicts != []
    case Failed => !rec.success
  }

  /** What `process_pr` returns for one pull request, or the error it raises. */
  function PrOutcome(g: GitSteps, branch: string, target: string, prNumber: Option<int>): (r: Result<PrRecord, GitError>)
    ensures r.Failure? <==> MergeAttempt(g).Failure?
    ensures r.Success? ==> r.value.branch == branch && r.value.target == target && r.value.prNumber == prNumber
    ensures r.Success? ==> Consistent(r.value)
    ensures r.Success? ==>
      && MergeAttempt(g).Success?
      && r.value.success == MergeAttempt(g).value.success
      && r.value.conflicts == MergeAttempt(g).value.conflicts
    ensures r.Success? ==> (r.value.status == Merged <==>
      g.checkoutRc == 0 && g.mergeRc == 0 && g.commitRc == 0 && g.pushRc == 0)
    ensures r.Success? ==> (r.value.status == MergedWithWarnings <==>
      g.checkoutRc == 0 && g.mergeRc == 0 && !(g.commitRc == 0 && g.pushRc == 0))
    ensures r.Success? ==> (r.value.status == Conflicts <==>
      g.checkoutRc == 0 && g.mergeRc != 0 && UnmergedFiles(Lines(g.status.stdout)) != []
      && g.conflictCheckoutRc == 0 && g.conflictPushRc == 0)
  {
    match MergeAttempt(g)
    case Failure(e) => Failure(e)
    case Success(m) =>
      var status :=
        if m.success then (if CompleteMerge(g) then Merged else MergedWithWarnings)
        else if m.conflicts != [] then (if CreateConflictBranch(g) then Conflicts else Failed)
        else Failed;
      Success(PrRecord(branch, target, prNumber, m.success, m.conflicts, status))
  }

  /** The record a call appends to the list kept for `status`, if any. */
  function Appended(r: Result<PrRecord, GitError>, status: Status): seq<PrRecord> {
    if r.Success? && r.value.status == status then [r.value] else []
  }

  // -----------------------------------------------------------------------
  // get_default_branch
  // -----------------------------------------------------------------------

  /**
   * `get_default_branch`, given the results of `git symbolic-ref
   * refs/remotes/origin/HEAD` and of `git rev-parse --verify` on
   * `origin/main` and `origin/master`.
   */
  function DefaultBranch(remoteHead: CommandResult, mainRc: int, masterRc: int): (b: string)
    ensures remoteHead.returncode == 0 ==> '/' !in b && EndsWith(Strip(remoteHead.stdout), b)
    ensures remoteHead.returncode == 0 && '/' in Strip(remoteHead.stdout) ==>
      EndsWith(Strip(remoteHead.stdout), "/" + b)
    ensures remoteHead.returncode == 0 && '/' !in Strip(remoteHead.stdout) ==> b == Strip(remoteHead.stdout)
    ensures remoteHead.returncode != 0 ==> b in ["main", "master"]
    ensures remoteHead.returncode != 0 ==> (b == "master" <==> mainRc != 0 && masterRc == 0)
  {
    if remoteHead.returncode == 0 then
      var ref := Strip(remoteHead.stdout);
      AfterLast(ref, "/");
      ContainsChar(Last(Split(ref, "/")), '/');
      ContainsChar(ref, '/');
      Last(Split(ref, "/"))
    else if mainRc == 0 then "main"
    else if masterRc == 0 then "master"
    else "main"
  }

  /** From `refs/remotes/origin/<name>` the default branch is `<name>`. */
  lemma DefaultBranchFromSymbolicRef(remoteHead: CommandResult, mainRc: int, masterRc: int, prefix: string, name: string)
    requires remoteHead.returncode == 0
    requires Strip(remoteHead.stdout) == prefix + "/" + name && '/' !in name
    ensures DefaultBranch(remoteHead, mainRc, masterRc) == name
  {
    SplitAtChar(prefix, '/', name);
    ContainsChar(name, '/');
    SplitNoSep(name, "/");
  }

  // -----------------------------------------------------------------------
  // process_all_prs
  // -----------------------------------------------------------------------

  /**
   * One pull-request dictionary, as decoded from JSON; `None` is a missing
   * key. `headRef` is `pr["head"]["ref"]`, `baseRef` is `pr["base"]["ref"]`.
   */
  datatype PrDict = PrDict(
    number: Option<int>,
    title: Option<string>,
    headRefName: Option<string>,
    branch: Option<string>,
    headRef: Option<string>,
    baseRef: Option<string>)

  /** An entry of the list `process_all_prs` walks: a dictionary or a bare branch name. */
  datatype PrEntry = Record(fields: PrDict) | BranchName(name: string)

  /**
   * The branch `process_all_prs` processes for an entry: `head.ref`, or
   * `branch` when that is missing or empty (Python's `or`); `None` when the
   * name is missing or empty, and the entry is skipped.
   */
  function SelectBranch(pr: PrEntry): (b: Option<string>)
    ensures b.Some? ==> b.value != ""
    ensures pr.BranchName? ==> (b.Some? <==> pr.name != "") && (b.Some? ==> b.value == pr.name)
    ensures pr.Record? && pr.fields.headRef.Some? && pr.fields.headRef.value != "" ==> b == pr.fields.headRef
    ensures pr.Record? && b.Some? && b != pr.fields.headRef ==> b == pr.fields.branch
    ensures pr.Record? && !(pr.fields.headRef.Some? && pr.fields.headRef.value != "") ==>
      b == (if pr.fields.branch.Some? && pr.fields.branch.value != "" then pr.fields.branch else None)
  {
    match pr
    case BranchName(name) => if name != "" then Some(name) else None
    case Record(d) =>
      var chosen := if d.headRef.Some? && d.headRef.value != "" then d.headRef else d.branch;
      if chosen.Some? && chosen.value != "" then chosen else None
  }

  function NumberOf(pr: PrEntry): Option<int> {
    match pr
    case Record(d) => d.number
    case BranchName(_) => None
  }

  /** The branches a list of entries names, in order, skipped entries left out. */
  function SelectedBranches(prs: seq<PrEntry>): seq<string> {
    FilterMap(SelectBranch, prs)
  }

  /** How far the loop of `process_all_prs` got: the records produced and the error that stopped it. */
  datatype Run = Run(records: seq<PrRecord>, error: Option<GitError>)

  /**
   * The first `i` iterations of the loop of `process_all_prs` over `prs`,
   * entry `k` meeting git as `steps[k]`.
   */
  function RunUpTo(prs: seq<PrEntry>, steps: seq<GitSteps>, target: string, i: nat): Run
    requires |steps| == |prs| && i <= |prs|
    decreases i
  {
    if i == 0 then Run([], None)
    else Step(RunUpTo(prs, steps, target, i - 1), prs[i - 1], steps[i - 1], target)
  }

  /** The whole loop of `process_all_prs`; an exception out of `process_pr` ends it. */
  function RunAll(prs: seq<PrEntry>, steps: seq<GitSteps>, target: string): Run
    requires |steps| == |prs|
  {
    RunUpTo(prs, steps, target, |prs|)
  }

  /** One iteration of the loop: nothing more after an error, else the entry's contribution. */
  function Step(prev: Run, pr: PrEntry, g: GitSteps, target: string): Run {
    if prev.error.Some? then prev
    else
      var c := Contribution(pr, g, target);
      Run(prev.records + c.records, c.error)
  }

  /**
   * What one entry contributes: nothing without a branch name, else the
   * record `process_pr` returns or the error it raises.
   */
  function Contribution(pr: PrEntry, g: GitSteps, target: string): (c: Run)
    ensures |c.records| <= 1
    ensures c.error.Some? ==> c.records == []
    ensures SelectBranch(pr).None? ==> c == Run([], None)
  {
    match SelectBranch(pr)
    case None => Run([], None)
    case Some(b) =>
      match PrOutcome(g, b, target, NumberOf(pr))
      case Failure(e) => Run([], Some(e))
      case Success(rec) => Run([rec], None)
  }

  /** The records of `records` with the given status, in order. */
  function WithStatus(records: seq<PrRecord>, status: Status): seq<PrRecord>
    decreases |records|
  {
    if records == [] then []
    else
      var n := |records|;
      WithStatus(records[..n - 1], status)
        + (if records[n - 1].status == status then [records[n - 1]] else [])
  }

  /** Filtering by status keeps order: it distributes over concatenation. */
  lemma {:induction false} WithStatusAppend(xs: seq<PrRecord>, ys: seq<PrRecord>, status: Status)
    ensures WithStatus(xs + ys, status) == WithStatus(xs, status) + WithStatus(ys, status)
    decreases |ys|
  {
    if ys == [] {
      assert xs + ys == xs;
    } else {
      var n := |ys|;
      assert (xs + ys)[..|xs + ys| - 1] == xs + ys[..n - 1];
      WithStatusAppend(xs, ys[..n - 1], status);
    }
  }

  function BranchesOf(records: seq<PrRecord>): seq<string>
    decreases |records|
  {
    if records == [] then [] else BranchesOf(records[..|records| - 1]) + [records[|records| - 1].branch]
  }

  lemma {:induction false} BranchesOfAppend(xs: seq<PrRecord>, ys: seq<PrRecord>)
    ensures BranchesOf(xs + ys) == BranchesOf(xs) + BranchesOf(ys)
    decreases |ys|
  {
    if ys == [] {
      assert xs + ys == xs;
    } else {
      var n := |ys|;
      assert (xs + ys)[..|xs + ys| - 1] == xs + ys[..n - 1];
      BranchesOfAppend(xs, ys[..n - 1]);
    }
  }

  /** An iteration that starts without an error adds the entry's contribution. */
  lemma RunUpToNext(prs: seq<PrEntry>, steps: seq<GitSteps>, target: string, i: nat)
    requires |steps| == |prs| && i < |prs|
    requires RunUpTo(prs, steps, target, i).error.None?
    ensures var c := Contribution(prs[i], steps[i], target);
      RunUpTo(prs, steps, target, i + 1) == Run(RunUpTo(prs, steps, target, i).records + c.records, c.error)
  {
  }

  /** A list extended by the filtered records of one iteration is the list extended by the filtered records so far. */
  lemma FilteredStep(base: seq<PrRecord>, done: seq<PrRecord>, more: seq<PrRecord>, status: Status)
    ensures base + WithStatus(done + more, status) == base + WithStatus(done, status) + WithStatus(more, status)
  {
    WithStatusAppend(done, more, status);
  }

  /** Once the loop has raised, later entries change nothing. */
  lemma {:induction false} RunAllErrorSticks(prs: seq<PrEntry>, steps: seq<GitSteps>, target: string, j: nat, k: nat)
    requires |steps| == |prs| && j <= k <= |prs|
    requires RunUpTo(prs, steps, target, j).error.Some?
    ensures RunUpTo(prs, steps, target, k) == RunUpTo(prs, steps, target, j)
    decreases k
  {
    if k > j {
      RunAllErrorSticks(prs, steps, target, j, k - 1);
    }
  }

  /**
   * Pull requests are processed in input order, entries without a branch
   * name are skipped, and an error leaves the later entries unprocessed:
   * the processed branches are a prefix of the selected ones, all of them
   * when nothing raised.
   */
  lemma RunAllInOrder(prs: seq<PrEntry>, steps: seq<GitSteps>, target: string)
    requires |steps| == |prs|
    ensures var run := RunAll(prs, steps, target);
      && |BranchesOf(run.records)| <= |SelectedBranches(prs)|
      && BranchesOf(run.records) == SelectedBranches(prs)[..|BranchesOf(run.records)|]
      && (run.error.None? ==> BranchesOf(run.records) == SelectedBranches(prs))
  {
    RunUpToInOrder(prs, steps, target, |prs|);
    assert prs[..|prs|] == prs;
  }

  lemma {:induction false} RunUpToInOrder(prs: seq<PrEntry>, steps: seq<GitSteps>, target: string, i: nat)
    requires |steps| == |prs| && i <= |prs|
    ensures PrefixSoFar(BranchesOf(RunUpTo(prs, steps, target, i).records), SelectedBranches(prs[..i]), RunUpTo(prs, steps, target, i).error.None?)
    decreases i
  {
    if i > 0 {
      RunUpToInOrder(prs, steps, target, i - 1);
      FilterMapSnoc(SelectBranch, prs, i - 1);
      StepInOrder(RunUpTo(prs, steps, target, i - 1), prs[i - 1], steps[i - 1], target, SelectedBranches(prs[..i - 1]));
    }
  }

  /** `done` is a prefix of `sel`, and all of it when `complete`. */
  predicate PrefixSoFar(done: seq<string>, sel: seq<string>, complete: bool) {
    && |done| <= |sel|
    && done == sel[..|done|]
    && (complete ==> done == sel)
  }

  /** One iteration keeps the processed branches a prefix of the selected ones. */
  lemma StepInOrder(prev: Run, pr: PrEntry, g: GitSteps, target: string, sel: seq<string>)
    requires PrefixSoFar(BranchesOf(prev.records), sel, prev.error.None?)
    ensures PrefixSoFar(BranchesOf(Step(prev, pr, g, target).records), sel + OptionToSeq(SelectBranch(pr)), Step(prev, pr, g, target).error.None?)
  {
    var extra := OptionToSeq(SelectBranch(pr));
    if prev.error.None? {
      var c := Contribution(pr, g, target);
      ContributionBranches(pr, g, target);
      BranchesOfAppend(prev.records, c.records);
      PrefixGrows(BranchesOf(prev.records), sel, BranchesOf(c.records), extra, c.error.None?);
    } else {
      PrefixGrows(BranchesOf(prev.records), sel, [], extra, false);
      assert BranchesOf(prev.records) + [] == BranchesOf(prev.records);
    }
  }

  /**
   * The inductive step of `RunUpToInOrder` on plain sequences: a prefix
   * `done` of `sel` grows by `more` while `sel` grows by `extra`, where
   * `more` is `extra` if the step completed and empty otherwise.
   */
  lemma PrefixGrows(done: seq<string>, sel: seq<string>, more: seq<string>, extra: seq<string>, completed: bool)
    requires PrefixSoFar(done, sel, completed)
    requires completed ==> more == extra
    requires !completed ==> more == []
    ensures PrefixSoFar(done + more, sel + extra, completed)
  {
    if completed {
      assert (sel + extra)[..|sel + extra|] == sel + extra;
    } else {
      assert done + more == done;
      assert (sel + extra)[..|done|] == sel[..|done|];
    }
  }

  /** The branch an entry's contribution processes is the one the entry selects, unless it raised. */
  lemma ContributionBranches(pr: PrEntry, g: GitSteps, target: string)
    ensures var c := Contribution(pr, g, target);
      c.error.None? ==> BranchesOf(c.records) == OptionToSeq(SelectBranch(pr))
  {
    var c := Contribution(pr, g, target);
    if c.records != [] {
      assert c.records == [c.records[0]];
      assert c.records[..0] == [];
    }
  }

  /** Every record the loop produces targets the default branch and is consistent. */
  lemma RunAllRecords(prs: seq<PrEntry>, steps: seq<GitSteps>, target: string)
    requires |steps| == |prs|
    ensures AllTarget(RunAll(prs, steps, target).records, target)
  {
    RunUpToRecords(prs, steps, target, |prs|);
  }

  lemma {:induction false} RunUpToRecords(prs: seq<PrEntry>, steps: seq<GitSteps>, target: string, i: nat)
    requires |steps| == |prs| && i <= |prs|
    ensures AllTarget(RunUpTo(prs, steps, target, i).records, target)
    decreases i
  {
    if i > 0 {
      RunUpToRecords(prs, steps, target, i - 1);
      StepKeepsTarget(RunUpTo(prs, steps, target, i - 1), prs[i - 1], steps[i - 1], target);
    }
  }

  ghost predicate AllTarget(records: seq<PrRecord>, target: string) {
    forall k :: 0 <= k < |records| ==> records[k].target == target && Consistent(records[k])
  }

  lemma StepKeepsTarget(prev: Run, pr: PrEntry, g: GitSteps, target: string)
    requires AllTarget(prev.records, target)
    ensures AllTarget(Step(prev, pr, g, target).records, target)
  {
    if prev.error.None? {
      var c := Contribution(pr, g, target);
      var rs := prev.records + c.records;
      forall k | 0 <= k < |rs| ensures rs[k].target == target && Consistent(rs[k]) {
        if k >= |prev.records| {
          assert rs[k] == c.records[0];
        }
      }
    }
  }

  /** Every record in `records` has status `status` and agrees with it. */
  ghost predicate AllWithStatus(records: seq<PrRecord>, status: Status) {
    forall k :: 0 <= k < |records| ==> records[k].status == status && Consistent(records[k])
  }

  lemma AllWithStatusSnoc(records: seq<PrRecord>, rec: PrRecord, status: Status)
    requires AllWithStatus(records, status) && rec.status == status && Consistent(rec)
    ensures AllWithStatus(records + [rec], status)
  {
    var rs := records + [rec];
    forall k | 0 <= k < |rs| ensures rs[k].status == status && Consistent(rs[k]) {
      if k < |records| {
        assert rs[k] == records[k];
      }
    }
  }

  /** The remote-side results `process_all_prs` sees before its loop. */
  datatype Remote = Remote(
    fetchRc: int,               // git fetch --all --prune (run with check=True)
    remoteHead: CommandResult,  // git symbolic-ref refs/remotes/origin/HEAD
    mainRc: int,                // git rev-parse --verify origin/main
    masterRc: int)              // git rev-parse --verify origin/master

  /** The manager, with the lists of merged pull requests and of those moved to conflict branches. */
  class PRManager {
    var mergedPrs: seq<PrRecord>
    var conflictPrs: seq<PrRecord>

    /** Every merged record is a clean merge; every conflict record has conflicting files. */
    ghost predicate Valid()
      reads this
    {
      AllWithStatus(mergedPrs, Merged) && AllWithStatus(conflictPrs, Conflicts)
    }

    constructor ()
      ensures Valid() && mergedPrs == [] && conflictPrs == []
    {
      mergedPrs := [];
      conflictPrs := [];
    }

    /** `process_pr`: at most one of the two lists grows, and by exactly the returned record. */
    method ProcessPr(g: GitSteps, branch: string, target: string, prNumber: Option<int>)
      returns (r: Result<PrRecord, GitError>)
      requires Valid()
      modifies this
      ensures Valid()
      ensures r == PrOutcome(g, branch, target, prNumber)
      ensures mergedPrs == old(mergedPrs) + Appended(r, Merged)
      ensures conflictPrs == old(conflictPrs) + Appended(r, Conflicts)
      ensures |mergedPrs| + |conflictPrs| <= old(|mergedPrs|) + old(|conflictPrs|) + 1
    {
      var attempt := TryMerge(g);
      if attempt.Failure? {
        return Failure(attempt.error);
      }
      var success, conflicts := attempt.value.success, attempt.value.conflicts;
      var status: Status;
      if success {
        status := if CompleteMerge(g) then Merged else MergedWithWarnings;
      } else if conflicts != [] {
        status := if CreateConflictBranch(g) then Conflicts else Failed;
      } else {
        status := Failed;
      }
      var rec := PrRecord(branch, target, prNumber, success, conflicts, status);
      assert Consistent(rec);
      r := Success(rec);
      Keep(rec);
    }

    /** The appends of `process_pr`: a clean merge goes to `merged_prs`, a conflict to `conflict_prs`. */
    method Keep(rec: PrRecord)
      requires Valid() && Consistent(rec)
      modifies this
      ensures Valid()
      ensures mergedPrs == old(mergedPrs) + (if rec.status == Merged then [rec] else [])
      ensures conflictPrs == old(conflictPrs) + (if rec.status == Conflicts then [rec] else [])
    {
      if rec.status == Merged {
        AllWithStatusSnoc(mergedPrs, rec, Merged);
        mergedPrs := mergedPrs + [rec];
      } else if rec.status == Conflicts {
        AllWithStatusSnoc(conflictPrs, rec, Conflicts);
        conflictPrs := conflictPrs + [rec];
      }
    }

    /**
     * `process_all_prs`: fetch, choose the target, then process every entry
     * that names a branch, in order, until one raises.
     */
    method ProcessAllPrs(prs: seq<PrEntry>, remote: Remote, steps: seq<GitSteps>) returns (error: Option<GitError>)
      requires Valid() && |steps| == |prs|
      modifies this
      ensures Valid()
      ensures remote.fetchRc != 0 ==>
        && error == Some(CalledProcessError("git fetch --all --prune", remote.fetchRc))
        && mergedPrs == old(mergedPrs) && conflictPrs == old(conflictPrs)
      ensures remote.fetchRc == 0 ==>
        var run := RunAll(prs, steps, DefaultBranch(remote.remoteHead, remote.mainRc, remote.masterRc));
        && error == run.error
        && mergedPrs == old(mergedPrs) + WithStatus(run.records, Merged)
        && conflictPrs == old(conflictPrs) + WithStatus(run.records, Conflicts)
    {
      if remote.fetchRc != 0 {
        return Some(CalledProcessError("git fetch --all --prune", remote.fetchRc));
      }
      var target := DefaultBranch(remote.remoteHead, remote.mainRc, remote.masterRc);
      error := ProcessEach(prs, steps, target);
    }

    /** One iteration of the loop of `process_all_prs`: the entry's branch, if any, is processed. */
    method ProcessEntry(pr: PrEntry, g: GitSteps, target: string) returns (error: Option<GitError>)
      requires Valid()
      modifies this
      ensures Valid()
      ensures error == Contribution(pr, g, target).error
      ensures mergedPrs == old(mergedPrs) + WithStatus(Contribution(pr, g, target).records, Merged)
      ensures conflictPrs == old(conflictPrs) + WithStatus(Contribution(pr, g, target).records, Conflicts)
    {
      var branch := SelectBranch(pr);
      if branch.Some? {
        var r := ProcessPr(g, branch.value, target, NumberOf(pr));
        if r.Failure? {
          return Some(r.error);
        }
        assert Contribution(pr, g, target).records == [r.value];
      }
      return None;
    }

    /**
     * Iteration `i` of the loop of `process_all_prs`, started without an
     * error: the lists grow from their state after `i` iterations to their
     * state after `i + 1`.
     */
    method ProcessIteration(prs: seq<PrEntry>, steps: seq<GitSteps>, target: string, i: nat,
                            ghost mergedBefore: seq<PrRecord>, ghost conflictBefore: seq<PrRecord>)
      returns (error: Option<GitError>)
      requires Valid() && |steps| == |prs| && i < |prs|
      requires RunUpTo(prs, steps, target, i).error.None?
      requires mergedPrs == mergedBefore + WithStatus(RunUpTo(prs, steps, target, i).records, Merged)
      requires conflictPrs == conflictBefore + WithStatus(RunUpTo(prs, steps, target, i).records, Conflicts)
      modifies this
      ensures Valid()
      ensures error == RunUpTo(prs, steps, target, i + 1).error
      ensures mergedPrs == mergedBefore + WithStatus(RunUpTo(prs, steps, target, i + 1).records, Merged)
      ensures conflictPrs == conflictBefore + WithStatus(RunUpTo(prs, steps, target, i + 1).records, Conflicts)
    {
      ghost var before := RunUpTo(prs, steps, target, i);
      ghost var c := Contribution(prs[i], steps[i], target);
      RunUpToNext(prs, steps, target, i);
      FilteredStep(mergedBefore, before.records, c.records, Merged);
      FilteredStep(conflictBefore, before.records, c.records, Conflicts);
      error := ProcessEntry(prs[i], steps[i], target);
    }

    /** The loop of `process_all_prs` over its entries, against a fixed target branch. */
    method ProcessEach(prs: seq<PrEntry>, steps: seq<GitSteps>, target: string) returns (error: Option<GitError>)
      requires Valid() && |steps| == |prs|
      modifies this
      ensures Valid()
      ensures error == RunAll(prs, steps, target).error
      ensures mergedPrs == old(mergedPrs) + WithStatus(RunAll(prs, steps, target).records, Merged)
      ensures conflictPrs == old(conflictPrs) + WithStatus(RunAll(prs, steps, target).records, Conflicts)
    {
      var i := 0;
      while i < |prs|
        invariant 0 <= i <= |prs|
        invariant Valid()
        invariant RunUpTo(prs, steps, target, i).error.None?
        invariant mergedPrs == old(mergedPrs) + WithStatus(RunUpTo(prs, steps, target, i).records, Merged)
        invariant conflictPrs == old(conflictPrs) + WithStatus(RunUpTo(prs, steps, target, i).records, Conflicts)
      {
        var e := ProcessIteration(prs, steps, target, i, old(mergedPrs), old(conflictPrs));
        if e.Some? {
          RunAllErrorSticks(prs, steps, target, i + 1, |prs|);
          return e;
        }
        i := i + 1;
      }
      error := None;
    }
  }
}
