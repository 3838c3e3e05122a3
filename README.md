# PR management scripts, modelled in Dafny

This project models the pull-request management agent of the iDAWi repository:

- `scripts/pr_manager.py` holds the `PRManager` class. It merges each open pull request into the default branch. A clean merge is committed and pushed, and the source branch is deleted. A merge with conflicts is not merged. Instead the manager pushes the branch state to `conflicts/<branch>` for a human to resolve.
- `scripts/manage_prs.py` is the wrapper. It reads the owner and repository from the `origin` remote URL. It builds the list of pull requests from `--branches` or from `gh pr list`, leaving out the branch currently checked out, and hands that list to the manager.

iDAWi is an audio workstation; these two scripts are the tooling its maintainers use to manage its pull requests, and they are all this model covers.

Every git and gh command becomes an input to the model:

- a `CommandResult`, holding the return code and the standard output;
- or, per pull request, a `GitSteps` value with the results of the commands that pull request runs.

A command run with `check=True` that fails raises `CalledProcessError` in the source. In the model it is a `Failure(CalledProcessError(...))`, and an error raised inside `process_pr` ends the loop of `process_all_prs`.

Files:

- `wrappers.dfy`: `Option` and `Result`.
- `pystrings.dfy`: the Python string operations the scripts rely on, with Python's semantics: `strip`, `split`, `join`, `replace`, `rstrip(chars)` (a set of characters, not a suffix), `removesuffix`, `in` and `startswith`.
- `lists.dfy`: the skip-or-append loop both scripts use (`FilterMap`) and its lemmas.
- `pr_manager.dfy`: the `PRManager` class, with its lists of merged and conflicting pull requests.
- `manage_prs.dfy`: the remote-URL parser and the construction of the pull-request list in `main`.

## Model

| member | source | states |
|---|---|---|
| PyStrings.Strip | scripts/pr_manager.py:115-116 | the result is a slice of the text with only whitespace before and after it, and it neither begins nor ends with whitespace |
| PyStrings.Split | scripts/pr_manager.py:115 | `split` always yields at least one piece |
| PyStrings.SplitJoin | scripts/pr_manager.py:115 | joining the pieces of a split with the separator gives back the original text |
| PyStrings.ReplaceIsJoinOfSplit | scripts/pr_manager.py:118 | `replace(p, q)` equals splitting on `p` and joining with `q`, so every occurrence is replaced |
| PyStrings.RStripChars | scripts/manage_prs.py:65 | `rstrip(chars)` keeps a prefix, the kept part does not end in any of `chars`, and every removed character is one of `chars` |
| PyStrings.RemoveSuffix | scripts/manage_prs.py:65 | the evidently intended suffix removal: a present suffix is cut exactly once, otherwise the text is unchanged |
| PyStrings.AfterLast | scripts/pr_manager.py:76 | `split(sep)[-1]` holds no `sep`, and it is a suffix of the text |
| PrManager.Lines | scripts/pr_manager.py:115 | `stdout.strip().split("\n")` gives at least one line |
| PrManager.GetOpenPrs | scripts/pr_manager.py:110-122 | a failed `git branch -r` gives no branches; otherwise the result is the candidate of each listing line, in listing order |
| PrManager.CandidateBranches | scripts/pr_manager.py:114-122 | the loop over the listing lines builds the candidates of every line, in listing order |
| PrManager.RemoteBranchesNeverProtected | scripts/pr_manager.py:119-120 | no candidate is `main`, `master` or `HEAD` |
| PrManager.RemoteBranchesMember | scripts/pr_manager.py:115-120 | a branch is a candidate exactly when some line contributes it; that line mentions `origin/` and no `->`, and the branch is the stripped line with every `origin/` cut out |
| PrManager.RemoteBranchesAppend | scripts/pr_manager.py:114-120 | lines are handled independently and in order |
| PrManager.IgnoredLineContributesNothing | scripts/pr_manager.py:116-117 | an empty line, a line without `origin/` or a symbolic `->` line can be dropped without changing the result |
| PrManager.ConflictingFiles | scripts/pr_manager.py:160-170 | the loop over `git status --short` collects the path of every unmerged line, in order |
| PrManager.UnmergedFilesMember | scripts/pr_manager.py:163-170 | a path is reported exactly when some status line starts with one of UU, AA, DD, AU, UA, DU, UD and carries that path after column 3 |
| PrManager.UnmergedFilesAppend | scripts/pr_manager.py:163-170 | status lines are handled independently and in order |
| PrManager.UnmergedPathOf | scripts/pr_manager.py:168-170 | a status line contributes `line[3:].strip()` exactly when it starts with an unmerged code |
| PrManager.MergedLineContributesNothing | scripts/pr_manager.py:168 | a status line without an unmerged code contributes no file |
| PrManager.MergeAttempt | scripts/pr_manager.py:137-180 | a failed checkout gives `(False, [])`; success exactly when checkout and merge succeed, with no conflicts then; a failed merge reports the unmerged files; it raises exactly when `git status` fails after a failed merge |
| PrManager.TryMerge | scripts/pr_manager.py:124-180 | `try_merge` returns the `MergeAttempt` result |
| PrManager.CompleteMerge | scripts/pr_manager.py:182-220 | the merge is complete exactly when the commit and the push succeed; a failed branch deletion does not matter |
| PrManager.CreateConflictBranch | scripts/pr_manager.py:222-278 | the conflict branch exists exactly when its checkout and its push succeed |
| PrManager.ConflictBranchName | scripts/pr_manager.py:233 | the conflict branch is `conflicts/` followed by the source branch |
| PrManager.ConflictBranchNameInjective | scripts/pr_manager.py:233 | distinct pull-request branches never share a conflict branch |
| PrManager.PrOutcome | scripts/pr_manager.py:298-334 | the record echoes branch, target and number; its `success` and `conflicts` are those `try_merge` returned, and its status agrees with them; `merged` exactly when merge, commit and push succeed; `merged_with_warnings` exactly when the merge succeeds but the commit or push fails; `conflicts` exactly when there are unmerged files and the conflict branch is created and pushed |
| PrManager.DefaultBranch | scripts/pr_manager.py:73-89 | with a remote HEAD, the `/`-free text after the ref's last `/`, or the whole ref when it has no `/`; otherwise `main` or `master`, and `master` exactly when `origin/main` is missing and `origin/master` exists |
| PrManager.DefaultBranchFromSymbolicRef | scripts/pr_manager.py:73-76 | from `refs/remotes/origin/<name>` the default branch is `<name>` |
| PrManager.SelectBranch | scripts/pr_manager.py:359-368 | `head.ref` when it is set and non-empty, else `branch` when that is set and non-empty; a bare string is its own branch; an empty or missing name is skipped |
| PrManager.Contribution | scripts/pr_manager.py:359-370 | one entry adds at most one record, and none when it raises; an entry without a branch name adds nothing and raises nothing |
| PrManager.ContributionBranches | scripts/pr_manager.py:359-370 | an entry that does not raise processes exactly the branch it selects |
| PrManager.RunAllErrorSticks | scripts/pr_manager.py:358-370 | once `process_pr` raises, no later entry is processed |
| PrManager.RunAllInOrder | scripts/pr_manager.py:358-370 | the processed branches are a prefix of the selected branches in list order, and all of them when nothing raised |
| PrManager.RunAllRecords | scripts/pr_manager.py:355-370 | every record processed in one run names the same target branch |
| PrManager.PRManager.constructor | scripts/pr_manager.py:40-41 | both result lists start empty |
| PrManager.PRManager.ProcessPr | scripts/pr_manager.py:280-337 | `process_pr` returns `PrOutcome`; `merged_prs` grows by the record exactly when its status is `merged`, and `conflict_prs` exactly when it is `conflicts`; the lists hold only consistent records of their status |
| PrManager.PRManager.Keep | scripts/pr_manager.py:309-323 | a `merged` record is appended to `merged_prs`, a `conflicts` record to `conflict_prs`, any other to neither; both lists keep holding only consistent records of their status |
| PrManager.PRManager.ProcessIteration | scripts/pr_manager.py:358-368 | an iteration started without an error takes both lists from their state after `i` entries to their state after `i + 1`, and raises as entry `i` does |
| PrManager.PRManager.ProcessEntry | scripts/pr_manager.py:359-370 | one iteration: each list grows by the entry's records of its status, and the error is the one `process_pr` raised |
| PrManager.PRManager.ProcessEach | scripts/pr_manager.py:358-370 | the loop appends to each list the processed records of that status, in order, and stops at the first error |
| PrManager.PRManager.ProcessAllPrs | scripts/pr_manager.py:339-370 | a failed fetch raises before anything is processed; otherwise every entry is processed against the default branch as `ProcessEach` states |
| ManagePrs.PathParts | scripts/manage_prs.py:67-73 | the path parts hold no `/`, and there is at least one |
| ManagePrs.RepoInfo | scripts/manage_prs.py:46-79 | a failed `git config` or a URL without `github.com` gives no repository; owner and name hold no `/` |
| ManagePrs.HttpsParts | scripts/manage_prs.py:71-73 | the parts of `https://github.com/<o>/<r>` are `[o, r]` |
| ManagePrs.SshParts | scripts/manage_prs.py:67-69 | the parts of `git@github.com:<o>/<r>` are `[o, r]` |
| ManagePrs.StripGitChars | scripts/manage_prs.py:65 | `rstrip(".git")` on `<p>/<r>.git` removes `.git` and every trailing `.`, `g`, `i`, `t` of `r`, and nothing before the `/` |
| ManagePrs.RepoInfoHttps | scripts/manage_prs.py:59-77 | as written, `https://github.com/<o>/<r>.git` gives `o` and `r` stripped of trailing `.`, `g`, `i`, `t` |
| ManagePrs.RepoInfoSsh | scripts/manage_prs.py:59-77 | as written, `git@github.com:<o>/<r>.git` gives the same |
| ManagePrs.StripOwnRepoName | scripts/manage_prs.py:65 | `"iDAWi".rstrip(".git")` is `"iDAW"` |
| ManagePrs.RepoInfoTruncatesOwnName | scripts/manage_prs.py:65 | the repository's own remote `https://github.com/sburdges-eng/iDAWi.git` is read as `("sburdges-eng", "iDAW")` |
| ManagePrs.RepoInfoIntended | scripts/manage_prs.py:59-79 | the corrected parser: same error cases as `RepoInfo`, with only a `.git` suffix removed |
| ManagePrs.RepoInfoIntendedHttps | scripts/manage_prs.py:59-77 | with the correction, an HTTPS remote round-trips to exactly `(o, r)` |
| ManagePrs.RepoInfoIntendedSsh | scripts/manage_prs.py:59-77 | with the correction, an SSH remote round-trips to exactly `(o, r)` |
| ManagePrs.CurrentBranch | scripts/manage_prs.py:116-126 | there is a current branch exactly with `--exclude-current` and a successful `git rev-parse`; it is the stripped output |
| ManagePrs.Skips | scripts/manage_prs.py:133 | an entry is left out exactly when the current branch is non-empty and equal to its branch |
| ManagePrs.PrsFromBranches | scripts/manage_prs.py:131-139 | the loop over `--branches` builds `BranchPrs` |
| ManagePrs.BranchPrsMember | scripts/manage_prs.py:131-139 | an entry is built exactly for each branch that is not the current one, as `{"headRefName": b, "branch": b}` |
| ManagePrs.BranchPrsKeepAll | scripts/manage_prs.py:131-139 | without a current branch, every branch gets its entry at its own position |
| ManagePrs.BranchPrsAppend | scripts/manage_prs.py:131-139 | order is preserved |
| ManagePrs.BranchRecordSelects | scripts/manage_prs.py:136-139 | the manager then processes exactly that branch, unless it is empty |
| ManagePrs.PrsFromGh | scripts/manage_prs.py:152-163 | the loop over the gh results builds `GhPrs` |
| ManagePrs.GhRecord | scripts/manage_prs.py:157-163 | the entry built from a gh result |
| ManagePrs.GhRecordFields | scripts/manage_prs.py:156-163 | `branch` and `head.ref` both equal `headRefName`; `base.ref` is `baseRefName`, or `main` when absent; the manager processes `headRefName` |
| ManagePrs.GhPrsMember | scripts/manage_prs.py:152-163 | an entry is built exactly for each gh result whose head branch is not the current one |
| ManagePrs.GhPrsKeepAll | scripts/manage_prs.py:152-163 | without a current branch, every gh result gets its entry at its own position |
| ManagePrs.GhPrsAppend | scripts/manage_prs.py:152-163 | order is preserved |
| ManagePrs.PlanOf | scripts/manage_prs.py:128-177 | exit 1 exactly when no branches were given and gh returned nothing; exit 0 exactly when input was given but every entry was skipped; otherwise the manager runs on a non-empty list built from `--branches` when given, else from gh |
| ManagePrs.BuildPlan | scripts/manage_prs.py:128-177 | `main` after the remote lookup computes `PlanOf` |
| ManagePrs.CurrentNeverProcessed | scripts/manage_prs.py:129-163 | with a non-empty current branch, the manager never processes that branch |

## Left out

- Running git and gh (`run_git`, `subprocess.run`): every result is an input. So `FileNotFoundError` from a missing binary, and the working-tree effects of each command, are not modelled.
- The git commands whose results the source ignores have no input: `pull`, `merge --abort`, the capture merge in `create_conflict_branch`, `add`, the final `checkout` and the branch deletion. The deletion only prints a warning.
- `create_conflict_branch` writes `MERGE_CONFLICTS.json`. The file write is left out, and so is the exception it can raise.
- `get_github_prs` is left out: it is the gh call plus `json.loads`. Its result is the `ghPrs` input, already decoded, and empty when gh failed. JSON values of unexpected types are not modelled.
- `GhRecord`: a `baseRefName` present with JSON `null` is not distinguished from a missing key. In Python the first gives `None`, not `"main"`.
- `print` output, `print_summary`, the emoji progress messages, and argparse handling are left out. This includes the `--owner` and `--repo` defaults built from `get_default_repo_info`.
- `main` of `pr_manager.py` is left out (JSON input file and argument handling). So is `demo_pr_manager.py`. `test_pr_manager.py` only informs the contract of `DefaultBranch`.
- `repo_path` and `Path.resolve()` are left out, since no modelled result depends on them.
- `PrManager.PRManager.ProcessAllPrs`: the target branch always comes from `get_default_branch`. The source does the same: `base.ref` of an entry is never used as the target.
- `PrManager.GetOpenPrs`: returns branch names. The docstring promises PR dictionaries, but the code returns strings, and the model follows the code.

## Findings

| source | as written | input that shows it | evidently intended | confidence | as-written member | corrected member |
|---|---|---|---|---|---|---|
| scripts/manage_prs.py:65 | `url.rstrip(".git")` removes every trailing `.`, `g`, `i`, `t`, not the `.git` suffix | `https://github.com/sburdges-eng/iDAWi.git` gives `("sburdges-eng", "iDAW")` | remove a `.git` suffix only (`removesuffix`), giving `("sburdges-eng", "iDAWi")` | high; not executed | ManagePrs.RepoInfoTruncatesOwnName | ManagePrs.RepoInfoIntendedHttps |

`ManagePrs.RepoInfo` models line 65 as written. `ManagePrs.RepoInfoIntended` is the corrected parser, and `RepoInfoIntendedHttps` and `RepoInfoIntendedSsh` prove that it round-trips owner and name. The default owner and repository feed only argparse defaults, which are outside the model, so no other member consumes either parser.
