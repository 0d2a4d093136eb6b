# Plastic SCM to Git history migration, modelled in Dafny

Two scripts replay the history of a Plastic SCM repository into a Git repository, one commit per changeset:

- `migrate_plastic_to_git.py` is the full variant. It reads the exported history, sorts the changesets by id and walks them in order. For each changeset it:
  - switches to (or creates) the Git branch named after the Plastic branch;
  - builds a commit message;
  - rebuilds each changed file with `cm cat`;
  - commits with the changeset's date.
- `migrate_simple.py` is the simple variant. It:
  - builds every message while parsing;
  - lets `cm switch` update the workspace;
  - skips a changeset whose switch fails;
  - counts the commits that succeed;
  - prints the branches it saw in sorted order.

The model keeps the scripts' own logic:

- the stable sort by changeset id;
- both message generators;
- the branch-name flattening;
- the branch-tracking state both drivers keep;
- the expansion of file changes into add/update and delete actions, and their effect on the working tree;
- the quoting applied to the commit message before it goes into a shell command line;
- both driver loops.

The outside world enters as parameters:

- the parsed XML elements;
- the destination repository: the tree at the tip of each of its branches, the tree of HEAD, and the working tree (the simple variant needs only the branch names);
- `cm cat` as a function from path and changeset to an optional output;
- the outcome of each `cm switch` and `git commit` as a predicate over the changeset's position in the run;
- the author identity.

Modules:

- `Wrappers`: `Option` and `Result`.
- `Text`: the Python string operations used:
  - `strip`, `lstrip(c)`, one-character `replace` and `", ".join`;
  - decimal rendering of integers;
  - string ordering for `sorted`.
- `Ordering`: `list.sort` / `sorted` with a key, as a stable insertion sort.
- `History`: changes, changesets, the parsed XML element and the per-type tally.
- `Messages`: `generate_commit_message`, and the inline message of the simple variant.
- `Branches`: `lstrip('/').replace('/', '-')`, and the switch-or-create logic of `get_or_create_branch` and the driver loops.
- `Reconcile`: `apply_changeset_files`.
- `Escaping`: the escaping of the message for the `git commit -m "…"` command line, in both variants.
- `PlasticToGit`: `parse_xml_history` and `migrate_history`.
- `SimpleMigration`: `parse_history` and `migrate`.

Loops in the source are methods with loop invariants. Each method is proved equal to a specification function, and the properties are lemmas about those functions:

- `TallyChanges`, `GenerateCommitMessage` and `BuildParts`;
- `CollectActions`, `ApplyActions` and `ApplyChangesetFiles`;
- `ParseXmlHistory`, `MigrateHistory`, `ReplayHistory`, `MigrateChangeset` and `EnterBranch`;
- `ParseHistory`, `ParseChangeset`, `Migrate`, `MigrateAll` and `CommitChangeset`.

Three behaviours of the code are easy to misread:

- Branch flattening strips every leading `/` (`lstrip('/')`), not a single one (`Text.LStripCharFacts`, `Branches.FlattenBranchShape`).
- The full variant's closing summary prints the number of changesets as the number of commits created, whatever the commit results were. `PlasticToGit.ReportedCommits` states when that number is right.
- A fetched file is not its exact content. The captured standard output is stripped of surrounding white space before it is written (`Reconcile.FileAfterWritten`).

## Model

| member | source | states |
|---|---|---|
| Text.StripFacts | migrate_plastic_to_git.py:85 | `strip()` is empty exactly when the comment is blank; a non-empty result neither starts nor ends with white space |
| Text.TrimLeftFacts | migrate_simple.py:36 | the left half of `strip()`: the result is a suffix, everything dropped is white space, and it does not start with white space |
| Text.TrimRightFacts | migrate_simple.py:36 | the right half of `strip()`: the result is a prefix, everything dropped is white space, and it does not end with white space |
| Text.LStripCharFacts | migrate_plastic_to_git.py:111 | `lstrip('/')` drops exactly the leading run of slashes: the result is a suffix, every dropped character is `/`, and the result does not start with `/` |
| Text.ReplaceCharRemoves | migrate_plastic_to_git.py:111 | `replace('/', '-')` leaves no `/` |
| Text.ReplaceCharPointwise | migrate_plastic_to_git.py:111 | a one-character replacement keeps the length and substitutes character by character |
| Text.ReplaceCharAbsent | migrate_plastic_to_git.py:111 | replacing a character that does not occur changes nothing |
| Text.ReplaceCharAppend | migrate_plastic_to_git.py:178 | `replace` distributes over concatenation |
| Text.JoinEmpty | migrate_plastic_to_git.py:106 | joining non-empty parts gives the empty string exactly when there are no parts |
| Text.NatToStringRoundTrip | migrate_plastic_to_git.py:98 | the decimal rendering of a count in an f-string reads back as that count |
| Text.IntToStringRoundTrip | migrate_plastic_to_git.py:94 | the rendering of a (possibly negative) changeset id reads back as the id |
| Text.DigitPrefixOfDigits | migrate_plastic_to_git.py:98 | the rendered count is followed by a non-digit, so its digits are delimited |
| Text.LexLessIrreflexive | migrate_simple.py:111 | the string order `sorted` uses is irreflexive |
| Text.LexLessTransitive | migrate_simple.py:111 | the string order `sorted` uses is transitive |
| Text.LexLessTotal | migrate_simple.py:111 | of two different strings exactly one is less than the other |
| Ordering.SortBySorted | migrate_plastic_to_git.py:80 | after `sort(key=id)` the ids are non-decreasing |
| Ordering.SortByPermutes | migrate_plastic_to_git.py:80 | sorting keeps exactly the same changesets (same multiset) |
| Ordering.SortByStable | migrate_simple.py:58 | the sort is stable: records with equal ids keep their input order |
| Ordering.SortBySortedIdentity | migrate_plastic_to_git.py:80 | a history already in id order is left unchanged |
| History.TallyBound | migrate_plastic_to_git.py:89-91 | each change is counted under at most one of the four recognised types |
| History.CountUnrecognised | migrate_plastic_to_git.py:89-91 | when no change has a recognised type, every recognised type counts zero |
| History.CountAppend | migrate_plastic_to_git.py:90-91 | the count over two concatenated lists is the sum of their counts |
| Messages.TallyChanges | migrate_plastic_to_git.py:89-91 | the `defaultdict` loop maps every type to its number of occurrences, and the dictionary is empty exactly when there are no changes |
| Messages.GenerateCommitMessage | migrate_plastic_to_git.py:83-106 | the method's result is the message the specification function defines (comment, fallback or joined parts) |
| Messages.BuildParts | migrate_plastic_to_git.py:96-104 | the four conditional appends produce the parts for the non-zero counts, in the fixed order Add, Update, Delete, Move |
| Messages.PartsFromEmpty | migrate_plastic_to_git.py:97-104 | no part is built exactly when all four counts are zero; every part built is non-empty |
| Messages.CommitMessageKeepsComment | migrate_plastic_to_git.py:85-86 | a comment that is not blank is the message verbatim, without stripping |
| Messages.CommitMessageFallback | migrate_plastic_to_git.py:93-94 | a blank comment and no changes give `Update (changeset <id>)` |
| Messages.CommitMessageReportsTally | migrate_plastic_to_git.py:96-106 | a blank comment with changes gives a message that decodes back to the per-type counts |
| Messages.CommitMessageUnrecognisedOnly | migrate_plastic_to_git.py:93-106 | a blank comment whose changes all have unrecognised types gives the empty message: the tally dictionary is not empty, yet no part is built |
| Messages.SummaryRoundTrip | migrate_plastic_to_git.py:96-106 | decoding the joined parts recovers the tally |
| Messages.FallbackRoundTrip | migrate_plastic_to_git.py:94 | the fallback message has the fixed prefix and closing parenthesis, and the changeset id can be read back from it |
| Messages.SummaryExample | migrate_plastic_to_git.py:96-106 | three additions and one deletion give `Add 3 file(s), Delete 1 file(s)` |
| Messages.DecodeFromRoundTrip | migrate_plastic_to_git.py:96-106 | decoding the parts from a given type onward recovers the counts from that type onward |
| Messages.SimpleMessageStripsComment | migrate_simple.py:36 | a comment that is not blank reaches the commit stripped, and is non-empty |
| Messages.SimpleMessageBlankComment | migrate_simple.py:43-49 | with a blank comment, the fallback is used exactly when no recognised type is counted; otherwise the message decodes back to the tally |
| Messages.SimpleMessageNonEmpty | migrate_simple.py:49 | the simple variant's message is never empty |
| Messages.VariantsCompared | migrate_simple.py:43-49 | with a blank comment both variants give the same message once a recognised type is present; when only unrecognised types are present the full variant gives `""` and the simple one the fallback |
| Branches.FlattenBranchNoSlash | migrate_plastic_to_git.py:111 | a flattened branch name holds no `/` |
| Branches.FlattenBranchShape | migrate_plastic_to_git.py:202 | the name is the branch path after its leading slashes, with each later `/` turned into `-` and every other character kept |
| Branches.FlattenBranchIdempotent | migrate_simple.py:83 | flattening a flat name changes nothing |
| Branches.FlattenBranchCollision | migrate_plastic_to_git.py:202 | flattening is not injective: `/a-b` and `/a/b` map to the same Git branch |
| Branches.SwitchAllFacts | migrate_plastic_to_git.py:205-208 | after switching through a list of names, the current branch is the last name and `git_branches` is exactly the set of names. The destination gains those names, and a checkout command is run exactly once per run of equal consecutive names |
| Branches.SwitchAllSets | migrate_simple.py:86-93 | the current branch, `git_branches` and the destination's branches after a sequence of switches |
| Branches.SwitchAllOps | migrate_simple.py:86-93 | the branch commands run are the names with equal consecutive runs collapsed |
| Branches.CreatesAtMostOnce | migrate_plastic_to_git.py:113-122 | `git checkout -b` is run at most once per name, and only for a branch the destination did not have at the start |
| Branches.CreatedAreExisting | migrate_plastic_to_git.py:113-122 | every branch a command names exists in the destination afterwards, and no branch is lost |
| Branches.ElementsBound | migrate_plastic_to_git.py:225 | there are no more branches in `git_branches` than changesets |
| Branches.CollapseRunsElements | migrate_plastic_to_git.py:205 | collapsing runs of equal names keeps exactly the names that occur |
| Escaping.EscapeFullIsOnePass | migrate_plastic_to_git.py:178 | the two chained `replace` calls equal one left-to-right pass escaping `"` and `$` (the second pass does not touch the backslashes the first inserted) |
| Escaping.EscapeFullLength | migrate_plastic_to_git.py:178 | the escaped message is one character longer per `"` and per `$` |
| Escaping.EscapeFullRoundTrip | migrate_plastic_to_git.py:178 | unescaping the escaped message gives back the message |
| Escaping.EscapeFullQuotesEscaped | migrate_plastic_to_git.py:178-179 | every `"` in the escaped message is preceded by a backslash |
| Escaping.EscapeSimpleIsOnePass | migrate_simple.py:99 | the two chained `replace` calls equal one pass turning `"` into `\"` and `'` into `'\''` |
| Escaping.EscapeSimpleLength | migrate_simple.py:99 | the escaped message is one character longer per `"` and three longer per `'` |
| Escaping.EscapeSimpleRoundTrip | migrate_simple.py:99 | unescaping the escaped message gives back the message |
| Escaping.EscapeSimpleQuotesEscaped | migrate_simple.py:99-100 | every `"` in the escaped message is preceded by a backslash |
| Reconcile.ExpansionSources | migrate_plastic_to_git.py:131-144 | every action comes from some change: an add-or-update from the destination path of an Added, Changed or Moved change, a delete from the destination path of a Deleted change or the source path of a Moved one |
| Reconcile.ExpansionCovers | migrate_plastic_to_git.py:131-144 | every change of a recognised type is carried out: Added and Changed by an add-or-update of the destination, Deleted by a delete of the destination, Moved by a delete of the source immediately followed by an add-or-update of the destination |
| Reconcile.ExpansionLength | migrate_plastic_to_git.py:131-144 | one action per added, changed or deleted file, two per moved file |
| Reconcile.ExpansionAppend | migrate_plastic_to_git.py:131 | the actions follow the order of the changes |
| Reconcile.CollectActions | migrate_plastic_to_git.py:129-144 | the first loop builds `files_to_process` as the expansion of the changes |
| Reconcile.ApplyActions | migrate_plastic_to_git.py:146-167 | the second loop leaves the tree, warnings and removals the fold of the actions defines |
| Reconcile.ApplyChangesetFiles | migrate_plastic_to_git.py:126-167 | applying a changeset is applying the expansion of its changes, action by action |
| Reconcile.AddPointwise | migrate_plastic_to_git.py:147-161 | an add-or-update sets its own file to the stripped output of a successful fetch, keeps it on a failed fetch, and touches no other file |
| Reconcile.DeletePointwise | migrate_plastic_to_git.py:163-167 | a delete removes its own file and touches no other file |
| Reconcile.ApplyActionPointwise | migrate_plastic_to_git.py:146-167 | the effect of one action on any one file is the per-file step |
| Reconcile.ApplyAllPointwise | migrate_plastic_to_git.py:146-167 | each file after the loop is obtained by running the per-file step over the actions |
| Reconcile.FileAfterUntouched | migrate_plastic_to_git.py:146-167 | a file no action names is left as it was |
| Reconcile.StripTrimmed | migrate_plastic_to_git.py:32 | captured output has no white space at either end |
| Reconcile.FileAfterWritten | migrate_plastic_to_git.py:150-159 | every file the changeset writes holds text with no surrounding white space |
| Reconcile.MoveRenames | migrate_plastic_to_git.py:139-144 | a move between two different files removes the source and gives the destination the fetched revision, or leaves it as it was when the fetch fails; it records at most the source as removed and at most the destination as a warning |
| Reconcile.ApplyAllReports | migrate_plastic_to_git.py:160-167 | a warning is printed for exactly the files whose fetch failed, in order; `git rm` runs at most once per delete action |
| Reconcile.ApplyAllAppend | migrate_plastic_to_git.py:146 | applying two lists of actions is applying the first, then the second |
| Reconcile.DeletesOnlyShrink | migrate_plastic_to_git.py:163-167 | deletes only remove files and never change the content of those that remain |
| PlasticToGit.ParseXmlHistory | migrate_plastic_to_git.py:45-81 | the parse loop returns the records sorted by id, or `MalformedHistory` when an element has no changes list |
| PlasticToGit.RecordsSpec | migrate_plastic_to_git.py:51-77 | records are built exactly when every element has a changes list, one per element in order, with a missing comment read as `""` |
| PlasticToGit.RecordsStopAtFirstFailure | migrate_plastic_to_git.py:60 | one malformed element makes the whole parse fail |
| PlasticToGit.ParsedHistorySorted | migrate_plastic_to_git.py:50-81 | the parse fails exactly when some element lacks its changes. When it succeeds, the history is sorted by id, is a permutation of the records, and keeps equal ids in input order |
| PlasticToGit.MigrateHistory | migrate_plastic_to_git.py:184-221 | the driver's result is the run the specification defines: a parse error, `EmptyHistory` for a history with no changesets, or the replay of the sorted history |
| PlasticToGit.ReplayHistory | migrate_plastic_to_git.py:196-220 | the loop leaves the state of replaying every changeset in order |
| PlasticToGit.MigrateChangeset | migrate_plastic_to_git.py:197-220 | one iteration switches the branch, applies the files to the working tree it then has, and, when the commit succeeds, records a commit of that tree and moves the branch tip and HEAD to it, as the step function defines |
| PlasticToGit.EnterBranch | migrate_plastic_to_git.py:108-123 | when the branch is not current: an existing branch is checked out, so HEAD and the working tree become its tip; a new branch is created at HEAD and the working tree is kept |
| PlasticToGit.ReplayBranches | migrate_plastic_to_git.py:201-208 | the branch state after a run is the result of switching through the flattened branch names of all changesets |
| PlasticToGit.MigrationBranches | migrate_plastic_to_git.py:190-225 | after a run the current branch is the last changeset's, `git_branches` holds exactly the branches met, and no more than the number of changesets. A branch command is run per change of branch |
| PlasticToGit.CommitOfReplays | migrate_plastic_to_git.py:177-179 | a commit carries the changeset's id, flattened branch, date and author, and an argument that unescapes to the generated message |
| PlasticToGit.StepCommits | migrate_plastic_to_git.py:216-220 | one iteration appends exactly one commit when the commit succeeds, none otherwise, and keeps the earlier commits |
| PlasticToGit.ReplayCommits | migrate_plastic_to_git.py:210-220 | the commits of a run correspond one by one, in order, to the changesets whose commit succeeded |
| PlasticToGit.CommittedSorted | migrate_plastic_to_git.py:196-220 | the committed changesets come from the history and stay in id order |
| PlasticToGit.CommittedAll | migrate_plastic_to_git.py:217-220 | every changeset is committed exactly when every commit succeeds |
| PlasticToGit.EmptyMessagesNeverCommitted | migrate_plastic_to_git.py:179-182 | when `git commit` refuses an empty `-m` (no `--allow-empty-message`), no changeset whose message is empty is committed, and every commit's argument unescapes to a non-empty message |
| PlasticToGit.CommittedNonEmpty | migrate_plastic_to_git.py:217 | under the same refusal, every committed changeset has a non-empty message |
| PlasticToGit.ReportedCommits | migrate_plastic_to_git.py:224 | the printed number of commits, the number of changesets, is at least the commits made, and equals it exactly when every commit succeeded |
| PlasticToGit.ReplayTips | migrate_plastic_to_git.py:108-123 | throughout a run the branches with a tip are the known ones, the current branch's tip is HEAD, a branch committed to has its last commit's tree as tip, and a destination branch not yet committed to keeps its original tip |
| PlasticToGit.SwitchRestoresTip | migrate_plastic_to_git.py:115-122 | checking out a known branch that is not current puts its last commit's tree, or its original tip, in the working tree and HEAD; `checkout -b` keeps the working tree and starts the new branch at HEAD |
| PlasticToGit.ReplayRestoresTip | migrate_plastic_to_git.py:205-214 | a changeset on a branch that is not current has its files applied to the tree of that branch's last commit, or to its tip in the destination when the run has not committed to it |
| PlasticToGit.ExpansionPaths | migrate_plastic_to_git.py:131-144 | a path that no change names, as destination or as the source of a move, is named by no action |
| PlasticToGit.ReplayFrame | migrate_plastic_to_git.py:205-217 | a file that no changeset mentions, and that has one content in the destination's working tree, HEAD and branch tips, keeps that content in the working tree, HEAD, every tip and every commit of the run |
| SimpleMigration.ParseChangeset | migrate_simple.py:33-56 | one element gives the record with the stripped comment or the generated message, and a missing changes list counts no changes |
| SimpleMigration.ParseHistory | migrate_simple.py:29-58 | the parse loop returns the records sorted by id |
| SimpleMigration.SimpleHistorySorted | migrate_simple.py:58 | the parsed history is sorted by id, a stable permutation of the records, and every message in it is non-empty |
| SimpleMigration.Migrate | migrate_simple.py:60-107 | the driver's result is the replay of the parsed history |
| SimpleMigration.MigrateAll | migrate_simple.py:72-107 | the loop skips a changeset whose switch fails and otherwise switches the branch and commits, as the step function defines |
| SimpleMigration.CommitChangeset | migrate_simple.py:82-107 | after a successful switch, one iteration switches the Git branch and commits, incrementing `success_count` on success |
| SimpleMigration.SimpleStepEffect | migrate_simple.py:75-107 | a failed switch only records the skip. Otherwise the branch is switched, and on a successful commit one commit is added and `success_count` grows by one |
| SimpleMigration.SimpleReplayBranches | migrate_simple.py:83-93 | the branch state after a run is the result of switching through the branches of the changesets whose switch succeeded |
| SimpleMigration.SimpleReplayCommits | migrate_simple.py:70-107 | `success_count` equals the number of commits and of changesets whose switch and commit both succeeded. The commits are those changesets' commits in order, and the skipped ids are those whose switch failed |
| SimpleMigration.SimpleCommitMessage | migrate_simple.py:99-100 | a commit carries the changeset's id, flattened branch and date, and an argument that unescapes to the changeset's message |
| SimpleMigration.SuccessCountBound | migrate_simple.py:110 | `success_count` is at most the number of changesets, with equality exactly when every switch and commit succeeded |
| SimpleMigration.LeastExists | migrate_simple.py:111 | a non-empty set of branch names has a least name in string order |
| SimpleMigration.SortedNames | migrate_simple.py:111 | `sorted(git_branches)` has the set's size, the set's members, in strictly increasing string order |
| SimpleMigration.SimpleBranchLine | migrate_simple.py:111 | the printed branch list holds exactly the branches of the changesets that were switched to, in strictly increasing order |

## Left out

- Running commands: `subprocess`, the shell, `2>nul`, the timeout of `run_cmd`, and the exception handler that turns a failure into exit code 1. Each external command is a parameter: `cm cat` a fetch function, and `cm switch` and `git commit` predicates over the changeset's position.
- How a shell reads the escaped message. The model proves what the escaping does to the text (a one-pass substitution that can be undone, with every `"` preceded by a backslash). It does not model shell parsing: backslashes already in the message are not escaped, and the simple variant's `'\''` targets single quotes inside a double-quoted argument.
- Windows `cmd.exe` quoting, which differs from a POSIX shell, for the same reason.
- XML parsing. The model starts from the parsed elements. A missing `Changes` list is modelled, since the full variant fails on it and the simple variant reads it as empty. A missing or non-numeric `ChangesetId`, and other missing child elements, are not modelled, since they raise in the XML and integer libraries.
- The file system beyond file contents: `os.makedirs`, directories, and the `WORK_DIR` prefix. The working tree is a map from `path.lstrip('/')` to content.
- Byte content: `content.encode('utf-8', errors='ignore')` is not modelled. File contents are the captured text, stripped.
- The result of `git rev-parse`, `git checkout -b` and `git checkout`. Branch existence is the set of branches the destination had at the start plus those created since, and the checkout commands are assumed to succeed, because the source ignores their exit codes.
- PlasticToGit.SwitchTo: a checkout of an existing branch replaces the working tree by the branch's tip even when the tree has changes no commit recorded (after a failed commit, or from the start). Git would carry such changes over or refuse the checkout, and the source ignores which.
- Untracked and ignored files: the working tree is the tracked content only; `git checkout` leaves untracked files alone, and the model does not tell them apart.
- A destination without any commit: HEAD is taken to be a commit with a tree, which a newly created branch starts from.
- Git internals: the staged index, commit parents and object storage. `git add -A` is modelled by its effect: a commit records the whole working tree, and that tree becomes the tip of the current branch and HEAD.
- Reconcile.ApplyAction: the paths passed to `git rm` are recorded, but not their effect on the index.
- Reconcile.ApplyAction: a Deleted or Moved change that names a directory makes `os.remove` raise (the path exists but is no file). Nothing catches it before `main`, which prints the error and exits with status 1, so the rest of the history is not migrated. The model has no directories: it treats such a path as a missing file and carries on with the run.
- PlasticToGit.RecordCommit: the commit outcome is a free oracle, so the model can commit a changeset with the empty message (only unrecognised change types). Git refuses an empty `-m` without `--allow-empty-message`, so that commit fails in practice and its file changes go into the next commit. `PlasticToGit.EmptyMessagesNeverCommitted` states the consequence under an oracle that reflects the refusal.
- Printing: progress lines, banners and `git branch -a`. The printed values that carry meaning are modelled: the commit count (`PlasticToGit.ReportedCommits`), `success_count`, and the sorted branch line.
- Author identity and date: the identity is a parameter, not the hard-coded e-mail and name, and the date is passed through as text.
- `main`: the check that the history file exists, and the exit codes.
- Branch injectivity: `Branches.FlattenBranchCollision` shows that two Plastic branches can share a Git name; the model, like the source, then treats them as one branch.
- SimpleMigration.SortedNames: a ghost function, since it picks the least name by choice. It specifies `sorted` on a set rather than implementing it.
