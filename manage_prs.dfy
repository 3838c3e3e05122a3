/**
 * The wrapper script: the owner and name of the GitHub repository read off
 * the `origin` remote URL, and the list of pull requests handed to the
 * manager, built from explicit branch names or from `gh pr list` results,
 * leaving out the branch currently checked out.
 */
module ManagePrs {
  import opened Wrappers
  import opened PyStrings
  import opened Lists
  import opened PrManager

  // -----------------------------------------------------------------------
  // get_default_repo_info
  // -----------------------------------------------------------------------

  /** `(owner, repo)`; the source's `(None, None)` is `None`. */
  datatype RepoId = RepoId(owner: string, repo: string)

  /** The characters `url.rstrip(".git")` strips: a set, not a suffix. */
  const GitSuffixChars: string := ".git"

  /**
   * The `/`-separated parts of the repository path: after the last `:` for
   * an SSH URL (`git@...`), after the last `github.com/` otherwise.
   */
  function PathParts(url: string): (parts: seq<string>)
    ensures |parts| >= 1
    ensures forall k :: 0 <= k < |parts| ==> '/' !in parts[k]
  {
    var tail := if StartsWith(url, "git@") then Last(Split(url, ":")) else Last(Split(url, "github.com/"));
    SplitPiecesFree(tail, "/");
    var parts := Split(tail, "/");
    assert forall k :: 0 <= k < |parts| ==> !Contains(parts[k], "/");
    forall k | 0 <= k < |parts| ensures '/' !in parts[k] {
      ContainsChar(parts[k], '/');
    }
    parts
  }

  function RepoOfParts(parts: seq<string>): Option<RepoId> {
    if |parts| >= 2 then Some(RepoId(parts[0], parts[1])) else None
  }

  /**
   * `get_default_repo_info`, given the result of `git config --get
   * remote.origin.url` (run with check=True, so a failure is caught and
   * yields no repository).
   */
  function RepoInfo(remoteUrl: CommandResult): (r: Option<RepoId>)
    ensures remoteUrl.returncode != 0 ==> r == None
    ensures !Contains(Strip(remoteUrl.stdout), "github.com") ==> r == None
    ensures r.Some? ==> '/' !in r.value.owner && '/' !in r.value.repo
  {
    var url := Strip(remoteUrl.stdout);
    if remoteUrl.returncode == 0 && Contains(url, "github.com") then
      RepoOfParts(PathParts(RStripChars(url, GitSuffixChars)))
    else None
  }

  /** The evidently intended reading of line 65: drop a `.git` suffix, nothing more. */
  function RepoInfoIntended(remoteUrl: CommandResult): (r: Option<RepoId>)
    ensures remoteUrl.returncode != 0 ==> r == None
    ensures !Contains(Strip(remoteUrl.stdout), "github.com") ==> r == None
    ensures r.Some? ==> '/' !in r.value.owner && '/' !in r.value.repo
  {
    var url := Strip(remoteUrl.stdout);
    if remoteUrl.returncode == 0 && Contains(url, "github.com") then
      RepoOfParts(PathParts(RemoveSuffix(url, ".git")))
    else None
  }

  const HttpsPrefix: string := "https://github.com/"
  const SshHost: string := "git@github.com"
  const SshPrefix: string := SshHost + ":"

  /** A GitHub owner name: letters, digits and hyphens, so no `.`, `/` or `:`. */
  predicate IsOwnerName(o: string) {
    forall i :: 0 <= i < |o| ==> o[i] != '.' && o[i] != '/' && o[i] != ':'
  }

  /** A repository name: any text without `/` or `:`. */
  predicate IsRepoName(r: string) {
    forall i :: 0 <= i < |r| ==> r[i] != '/' && r[i] != ':'
  }

  lemma HttpsHasGithub(tail: string)
    ensures Contains(HttpsPrefix + tail, "github.com")
  {
    var s := HttpsPrefix + tail;
    assert s[8..18] == HttpsPrefix[8..18];
    assert OccursAt(s, "github.com", 8);
  }

  lemma SshHasGithub(tail: string)
    ensures Contains(SshPrefix + tail, "github.com")
  {
    var s := SshPrefix + tail;
    assert s[4..14] == SshPrefix[4..14];
    assert OccursAt(s, "github.com", 4);
  }

  lemma SplitOwnerRepo(o: string, r: string)
    requires IsOwnerName(o) && IsRepoName(r)
    ensures Split(o + "/" + r, "/") == [o, r]
  {
    SplitAtChar(o, '/', r);
    ContainsChar(o, '/');
    ContainsChar(r, '/');
    SplitNoSep(o, "/");
    SplitNoSep(r, "/");
  }

  /** `o/r` holds no `github.com/`: that would need a `.` in the owner. */
  lemma NoGithubSlashIn(o: string, r: string)
    requires IsOwnerName(o) && IsRepoName(r)
    ensures !Contains(o + "/" + r, "github.com/")
  {
    var t := o + "/" + r;
    var sep := "github.com/";
    forall i | 0 <= i <= |t| - |sep| ensures !OccursAt(t, sep, i) {
      var w := t[i..i + |sep|];
      if i + 10 < |o| {
        assert w[10] == o[i + 10] != sep[10];
      } else if i + 10 > |o| {
        assert w[10] == r[i + 10 - |o| - 1] != sep[10];
      } else {
        assert w[6] == o[i + 6] != sep[6];
      }
    }
  }

  /** The path parts of `https://github.com/<o>/<r>`. */
  lemma HttpsParts(o: string, r: string)
    requires IsOwnerName(o) && IsRepoName(r)
    ensures PathParts(HttpsPrefix + o + "/" + r) == [o, r]
  {
    var tail := o + "/" + r;
    var url := HttpsPrefix + o + "/" + r;
    assert url == "https://" + "github.com/" + tail;
    assert !StartsWith(url, "git@") by { assert url[0] == 'h'; }
    SplitAfterLead("https://", "github.com/", tail);
    NoGithubSlashIn(o, r);
    SplitNoSep(tail, "github.com/");
    SplitOwnerRepo(o, r);
  }

  /** After the SSH prefix, the text after the last `:` is everything else. */
  lemma SshTail(tail: string)
    requires ':' !in tail
    ensures Last(Split(SshPrefix + tail, ":")) == tail
  {
    assert SshPrefix + tail == SshHost + [':'] + tail;
    assert ':' !in SshHost;
    SplitSoleChar(SshHost, ':', tail);
  }

  /** The path parts of `git@github.com:<o>/<r>`. */
  lemma SshParts(o: string, r: string)
    requires IsOwnerName(o) && IsRepoName(r)
    ensures PathParts(SshPrefix + o + "/" + r) == [o, r]
  {
    var tail := o + "/" + r;
    var url := SshPrefix + o + "/" + r;
    assert url == SshPrefix + tail;
    assert StartsWith(url, "git@") by { assert url[..4] == "git@"; }
    assert ':' !in tail by {
      forall i | 0 <= i < |tail| ensures tail[i] != ':' {
        if i < |o| { assert tail[i] == o[i]; } else if i > |o| { assert tail[i] == r[i - |o| - 1]; }
      }
    }
    SshTail(tail);
    SplitOwnerRepo(o, r);
  }

  /** `rstrip(".git")` on `<prefix>/<r>.git` strips the suffix and every trailing `.`, `g`, `i`, `t` of `r`. */
  lemma StripGitChars(prefix: string, r: string)
    ensures RStripChars(prefix + "/" + r + ".git", GitSuffixChars)
         == prefix + "/" + RStripChars(r, GitSuffixChars)
  {
    var drop := c => c in GitSuffixChars;
    assert prefix + "/" + r + ".git" == (prefix + "/") + r + ".git";
    RTrimDroppedTail((prefix + "/") + r, ".git", drop);
    RTrimKeepsFront(prefix + "/", r, drop);
  }

  lemma StripUrl(url: string)
    requires |url| > 0 && (url[0] == 'h' || url[0] == 'g') && url[|url| - 1] == 't'
    ensures Strip(url) == url
  {
    StripUnchanged(url);
  }

  /**
   * As written, an HTTPS remote `https://github.com/<o>/<r>.git` yields
   * owner `o` and the repository name with every trailing `.`, `g`, `i`, `t`
   * stripped as well.
   */
  lemma RepoInfoHttps(o: string, r: string)
    requires IsOwnerName(o) && IsRepoName(r)
    ensures RepoInfo(CommandResult(0, HttpsPrefix + o + "/" + r + ".git"))
         == Some(RepoId(o, RStripChars(r, GitSuffixChars)))
  {
    var url := HttpsPrefix + o + "/" + r + ".git";
    StripUrl(url);
    assert url == HttpsPrefix + (o + "/" + r + ".git");
    HttpsHasGithub(o + "/" + r + ".git");
    StripGitChars(HttpsPrefix + o, r);
    var r' := RStripChars(r, GitSuffixChars);
    assert IsRepoName(r') by {
      forall i | 0 <= i < |r'| ensures r'[i] != '/' && r'[i] != ':' {
        assert r'[i] == r[i];
      }
    }
    HttpsParts(o, r');
  }

  /** As written, an SSH remote `git@github.com:<o>/<r>.git` is read the same way. */
  lemma RepoInfoSsh(o: string, r: string)
    requires IsOwnerName(o) && IsRepoName(r)
    ensures RepoInfo(CommandResult(0, SshPrefix + o + "/" + r + ".git"))
         == Some(RepoId(o, RStripChars(r, GitSuffixChars)))
  {
    var url := SshPrefix + o + "/" + r + ".git";
    StripUrl(url);
    assert url == SshPrefix + (o + "/" + r + ".git");
    SshHasGithub(o + "/" + r + ".git");
    StripGitChars(SshPrefix + o, r);
    var r' := RStripChars(r, GitSuffixChars);
    assert IsRepoName(r') by {
      forall i | 0 <= i < |r'| ensures r'[i] != '/' && r'[i] != ':' {
        assert r'[i] == r[i];
      }
    }
    SshParts(o, r');
  }

  /** `"iDAWi".rstrip(".git")` is `"iDAW"`: the final `i` is one of the stripped characters. */
  lemma StripOwnRepoName()
    ensures RStripChars("iDAWi", GitSuffixChars) == "iDAW"
  {
    var r := "iDAWi";
    assert r[|r| - 1] in GitSuffixChars;
    assert r[..|r| - 1] == "iDAW";
    assert "iDAW"[3] !in GitSuffixChars;
  }

  /** The repository's own remote, `https://github.com/sburdges-eng/iDAWi.git`, is read as `iDAW`. */
  lemma RepoInfoTruncatesOwnName()
    ensures RepoInfo(CommandResult(0, HttpsPrefix + "sburdges-eng" + "/" + "iDAWi" + ".git"))
         == Some(RepoId("sburdges-eng", "iDAW"))
  {
    assert IsOwnerName("sburdges-eng") && IsRepoName("iDAWi");
    RepoInfoHttps("sburdges-eng", "iDAWi");
    StripOwnRepoName();
  }

  /** With only the `.git` suffix removed, an HTTPS remote round-trips owner and name. */
  lemma RepoInfoIntendedHttps(o: string, r: string)
    requires IsOwnerName(o) && IsRepoName(r)
    ensures RepoInfoIntended(CommandResult(0, HttpsPrefix + o + "/" + r + ".git")) == Some(RepoId(o, r))
  {
    var url := HttpsPrefix + o + "/" + r + ".git";
    StripUrl(url);
    assert url == HttpsPrefix + (o + "/" + r + ".git");
    HttpsHasGithub(o + "/" + r + ".git");
    assert RemoveSuffix(url, ".git") == HttpsPrefix + o + "/" + r;
    HttpsParts(o, r);
  }

  /** With only the `.git` suffix removed, an SSH remote round-trips owner and name. */
  lemma RepoInfoIntendedSsh(o: string, r: string)
    requires IsOwnerName(o) && IsRepoName(r)
    ensures RepoInfoIntended(CommandResult(0, SshPrefix + o + "/" + r + ".git")) == Some(RepoId(o, r))
  {
    var url := SshPrefix + o + "/" + r + ".git";
    StripUrl(url);
    assert url == SshPrefix + (o + "/" + r + ".git");
    SshHasGithub(o + "/" + r + ".git");
    assert RemoveSuffix(url, ".git") == SshPrefix + o + "/" + r;
    SshParts(o, r);
  }

  // -----------------------------------------------------------------------
  // main: the list of pull requests handed to the manager
  // -----------------------------------------------------------------------

  /**
   * The branch to leave out: with `--exclude-current`, the stripped output of
   * `git rev-parse --abbrev-ref HEAD` when that command succeeds.
   */
  function CurrentBranch(excludeCurrent: bool, revParse: CommandResult): (c: Option<string>)
    ensures c.Some? <==> excludeCurrent && revParse.returncode == 0
    ensures c.Some? ==> c.value == Strip(revParse.stdout) && (c.value == [] || !IsSpace(c.value[0]))
  {
    if excludeCurrent && revParse.returncode == 0 then Some(Strip(revParse.stdout)) else None
  }

  /** Python's `current_branch and branch == current_branch`: an empty current branch skips nothing. */
  predicate Skips(current: Option<string>, branch: Option<string>) {
    current.Some? && current.value != "" && branch == Some(current.value)
  }

  /** The entry for a branch named with `--branches`: `{"headRefName": b, "branch": b}`. */
  function BranchRecord(b: string): PrEntry {
    Record(PrDict(None, None, Some(b), Some(b), None, None))
  }

  function BranchEntry(current: Option<string>, b: string): Option<PrEntry> {
    if Skips(current, Some(b)) then None else Some(BranchRecord(b))
  }

  function BranchEntryOf(current: Option<string>): string -> Option<PrEntry> {
    b => BranchEntry(current, b)
  }

  /** The entries built from `--branches`, the current branch left out. */
  function BranchPrs(branches: seq<string>, current: Option<string>): seq<PrEntry> {
    FilterMap(BranchEntryOf(current), branches)
  }

  /** The loop over `args.branches` in `main`. */
  method PrsFromBranches(branches: seq<string>, current: Option<string>) returns (prs: seq<PrEntry>)
    ensures prs == BranchPrs(branches, current)
  {
    prs := [];
    for i := 0 to |branches|
      invariant prs == BranchPrs(branches[..i], current)
    {
      var b := branches[i];
      assert branches[..i + 1][..i] == branches[..i];
      if Skips(current, Some(b)) {
        continue;
      }
      prs := prs + [BranchRecord(b)];
    }
    assert branches[..|branches|] == branches;
  }

  /** An entry is built exactly for each branch that is not the current one. */
  lemma BranchPrsMember(branches: seq<string>, current: Option<string>, e: PrEntry)
    ensures e in BranchPrs(branches, current)
        <==> exists k :: 0 <= k < |branches| && !Skips(current, Some(branches[k])) && e == BranchRecord(branches[k])
  {
    FilterMapMember(BranchEntryOf(current), branches, e);
    var f := BranchEntryOf(current);
    assert forall k :: 0 <= k < |branches| ==>
      (f(branches[k]) == Some(e) <==> !Skips(current, Some(branches[k])) && e == BranchRecord(branches[k]));
  }

  /** Without a current branch every branch gets its entry, in order. */
  lemma BranchPrsKeepAll(branches: seq<string>)
    ensures |BranchPrs(branches, None)| == |branches|
    ensures forall k :: 0 <= k < |branches| ==> BranchPrs(branches, None)[k] == BranchRecord(branches[k])
  {
    var f := BranchEntryOf(None);
    assert forall k :: 0 <= k < |branches| ==> f(branches[k]) == Some(BranchRecord(branches[k]));
    FilterMapTotal(f, branches);
  }

  /** Order is kept: the entries for two runs of branches are concatenated. */
  lemma BranchPrsAppend(xs: seq<string>, ys: seq<string>, current: Option<string>)
    ensures BranchPrs(xs + ys, current) == BranchPrs(xs, current) + BranchPrs(ys, current)
  {
    FilterMapAppend(BranchEntryOf(current), xs, ys);
  }

  /** The manager processes the branch of a `--branches` entry itself, when it is not empty. */
  lemma BranchRecordSelects(b: string)
    ensures SelectBranch(BranchRecord(b)) == if b == "" then None else Some(b)
  {
  }

  /** A pull request as `gh pr list --json number,title,headRefName,baseRefName,state` reports it. */
  datatype GhPr = GhPr(
    number: Option<int>,
    title: Option<string>,
    headRefName: Option<string>,
    baseRefName: Option<string>)

  /**
   * The entry built from a gh result: `branch` and `head.ref` are both
   * `headRefName`, and `base.ref` is `baseRefName` or `main` when absent.
   */
  function GhRecord(p: GhPr): PrEntry {
    Record(PrDict(p.number, p.title, None, p.headRefName, p.headRefName, Some(p.baseRefName.GetOr("main"))))
  }

  function GhEntry(current: Option<string>, p: GhPr): Option<PrEntry> {
    if Skips(current, p.headRefName) then None else Some(GhRecord(p))
  }

  function GhEntryOf(current: Option<string>): GhPr -> Option<PrEntry> {
    p => GhEntry(current, p)
  }

  /** The entries built from the gh results, the current branch's pull request left out. */
  function GhPrs(ghPrs: seq<GhPr>, current: Option<string>): seq<PrEntry> {
    FilterMap(GhEntryOf(current), ghPrs)
  }

  /** The loop over `gh_prs` in `main`. */
  method PrsFromGh(ghPrs: seq<GhPr>, current: Option<string>) returns (prs: seq<PrEntry>)
    ensures prs == GhPrs(ghPrs, current)
  {
    prs := [];
    for i := 0 to |ghPrs|
      invariant prs == GhPrs(ghPrs[..i], current)
    {
      var p := ghPrs[i];
      assert ghPrs[..i + 1][..i] == ghPrs[..i];
      if Skips(current, p.headRefName) {
        continue;
      }
      prs := prs + [GhRecord(p)];
    }
    assert ghPrs[..|ghPrs|] == ghPrs;
  }

  /** The fields of a gh entry, and the branch the manager then processes: `headRefName`. */
  lemma GhRecordFields(p: GhPr)
    ensures GhRecord(p).fields.branch == GhRecord(p).fields.headRef == p.headRefName
    ensures p.baseRefName.None? ==> GhRecord(p).fields.baseRef == Some("main")
    ensures p.baseRefName.Some? ==> GhRecord(p).fields.baseRef == p.baseRefName
    ensures NumberOf(GhRecord(p)) == p.number
    ensures SelectBranch(GhRecord(p)) == if p.headRefName == Some("") then None else p.headRefName
  {
  }

  /** An entry is built exactly for each gh result whose head branch is not the current one. */
  lemma GhPrsMember(ghPrs: seq<GhPr>, current: Option<string>, e: PrEntry)
    ensures e in GhPrs(ghPrs, current)
        <==> exists k :: 0 <= k < |ghPrs| && !Skips(current, ghPrs[k].headRefName) && e == GhRecord(ghPrs[k])
  {
    FilterMapMember(GhEntryOf(current), ghPrs, e);
    var f := GhEntryOf(current);
    assert forall k :: 0 <= k < |ghPrs| ==>
      (f(ghPrs[k]) == Some(e) <==> !Skips(current, ghPrs[k].headRefName) && e == GhRecord(ghPrs[k]));
  }

  /** Without a current branch every gh result gets its entry, in order. */
  lemma GhPrsKeepAll(ghPrs: seq<GhPr>)
    ensures |GhPrs(ghPrs, None)| == |ghPrs|
    ensures forall k :: 0 <= k < |ghPrs| ==> GhPrs(ghPrs, None)[k] == GhRecord(ghPrs[k])
  {
    var f := GhEntryOf(None);
    assert forall k :: 0 <= k < |ghPrs| ==> f(ghPrs[k]) == Some(GhRecord(ghPrs[k]));
    FilterMapTotal(f, ghPrs);
  }

  /** Order is kept for gh results too. */
  lemma GhPrsAppend(xs: seq<GhPr>, ys: seq<GhPr>, current: Option<string>)
    ensures GhPrs(xs + ys, current) == GhPrs(xs, current) + GhPrs(ys, current)
  {
    FilterMapAppend(GhEntryOf(current), xs, ys);
  }

  /** What `main` does once it has its list: exit with a code, or run the manager on the entries. */
  datatype Plan = Exit(code: int) | Process(prs: seq<PrEntry>)

  /**
   * `main` from the branch list on: `--branches` when given (nargs="+", so an
   * empty list means the option was absent), the gh results otherwise (empty
   * when `gh` failed); exit 1 when gh gave nothing, exit 0 when every entry
   * was skipped.
   */
  function PlanOf(branches: seq<string>, ghPrs: seq<GhPr>, current: Option<string>): (plan: Plan)
    ensures plan.Exit? ==> plan.code == 0 || plan.code == 1
    ensures plan == Exit(1) <==> branches == [] && ghPrs == []
    ensures plan.Process? ==> plan.prs != []
    ensures plan.Process? && branches != [] ==> plan.prs == BranchPrs(branches, current)
    ensures plan.Process? && branches == [] ==> plan.prs == GhPrs(ghPrs, current)
    ensures plan == Exit(0) <==>
      !(branches == [] && ghPrs == [])
      && (if branches != [] then BranchPrs(branches, current) else GhPrs(ghPrs, current)) == []
  {
    if branches == [] && ghPrs == [] then Exit(1)
    else
      var prs := if branches != [] then BranchPrs(branches, current) else GhPrs(ghPrs, current);
      if prs == [] then Exit(0) else Process(prs)
  }

  /** `main` after the remote lookup, with the loops of lines 131-163. */
  method BuildPlan(branches: seq<string>, ghPrs: seq<GhPr>, current: Option<string>) returns (plan: Plan)
    ensures plan == PlanOf(branches, ghPrs, current)
  {
    var prs: seq<PrEntry>;
    if branches != [] {
      prs := PrsFromBranches(branches, current);
    } else {
      if ghPrs == [] {
        return Exit(1);
      }
      prs := PrsFromGh(ghPrs, current);
    }
    if prs == [] {
      return Exit(0);
    }
    plan := Process(prs);
  }

  /** The manager is never asked to process the current branch. */
  lemma {:induction false} CurrentNeverProcessed(branches: seq<string>, ghPrs: seq<GhPr>, current: Option<string>)
    requires current.Some? && current.value != ""
    requires PlanOf(branches, ghPrs, current).Process?
    ensures current.value !in SelectedBranches(PlanOf(branches, ghPrs, current).prs)
  {
    var prs := PlanOf(branches, ghPrs, current).prs;
    FilterMapMember(SelectBranch, prs, current.value);
    forall k | 0 <= k < |prs| ensures SelectBranch(prs[k]) != Some(current.value) {
      var e := prs[k];
      assert e in prs;
      if branches != [] {
        BranchPrsMember(branches, current, e);
        var j :| 0 <= j < |branches| && !Skips(current, Some(branches[j])) && e == BranchRecord(branches[j]);
        BranchRecordSelects(branches[j]);
      } else {
        GhPrsMember(ghPrs, current, e);
        var j :| 0 <= j < |ghPrs| && !Skips(current, ghPrs[j].headRefName) && e == GhRecord(ghPrs[j]);
        GhRecordFields(ghPrs[j]);
      }
    }
  }
}
