/**
 * The full migration driver (`parse_xml_history` and `migrate_history`):
 * read the changeset records, sort them by id, then for each changeset in
 * turn switch to its flattened Git branch, synthesise its message, bring the
 * working tree in line with its changes and commit. The outcome of each
 * `git commit` is an oracle indexed by the changeset's position in the run.
 */
module PlasticToGit {
  import opened Wrappers
  import opened Text
  import opened Ordering
  import opened History
  import opened Messages
  import opened Branches
  import opened Reconcile
  import opened Escaping

  // ----- Reading the history -----

  /** The dictionary `parse_xml_history` builds from one `<Changeset>`; a comment without text becomes "". */
  function ToChangeset(e: ChangesetElement, changes: seq<FileChange>): Changeset {
    Changeset(e.id, e.branch, e.comment.GetOr(""), e.owner, e.date, changes)
  }

  /** The records in document order, or None as soon as one element has no `<Changes>`. */
  function Records(elements: seq<ChangesetElement>): Option<seq<Changeset>>
    decreases |elements|
  {
    if elements == [] then Some([])
    else
      var e := elements[|elements| - 1];
      match Records(elements[..|elements| - 1])
      case None => None
      case Some(rs) => if e.changes.None? then None else Some(rs + [ToChangeset(e, e.changes.value)])
  }

  /** What `parse_xml_history` returns: the records sorted by id, or the error it raises. */
  function ParsedHistory(elements: seq<ChangesetElement>): Result<seq<Changeset>, MigrationError> {
    match Records(elements)
    case None => Err(MalformedHistory)
    case Some(rs) => Ok(SortBy(rs, IdOf))
  }

  /** `parse_xml_history()` over the already read `<Changeset>` elements. */
  method ParseXmlHistory(elements: seq<ChangesetElement>) returns (r: Result<seq<Changeset>, MigrationError>)
    ensures r == ParsedHistory(elements)
  {
    var changesets: seq<Changeset> := [];
    var i := 0;
    while i < |elements|
      invariant 0 <= i <= |elements|
      invariant Records(elements[..i]) == Some(changesets)
    {
      var e := elements[i];
      assert elements[..i + 1][..i] == elements[..i];
      if e.changes.None? {
        RecordsStopAtFirstFailure(elements, i + 1);
        return Err(MalformedHistory);
      }
      changesets := changesets + [ToChangeset(e, e.changes.value)];
      i := i + 1;
    }
    assert elements[..|elements|] == elements;
    r := Ok(SortBy(changesets, IdOf));
  }

  lemma {:induction false} RecordsStopAtFirstFailure(elements: seq<ChangesetElement>, n: nat)
    requires n <= |elements| && Records(elements[..n]).None?
    ensures Records(elements).None?
    decreases |elements|
  {
    if n < |elements| {
      var prefix := elements[..|elements| - 1];
      assert prefix[..n] == elements[..n];
      RecordsStopAtFirstFailure(prefix, n);
    } else {
      assert elements[..n] == elements;
    }
  }

  /**
   * Reading succeeds exactly when every element has a `<Changes>` child, and
   * then yields one record per element, in document order.
   */
  lemma {:induction false} RecordsSpec(elements: seq<ChangesetElement>)
    ensures Records(elements).Some? <==> forall i :: 0 <= i < |elements| ==> elements[i].changes.Some?
    ensures Records(elements).Some? ==>
      && |Records(elements).value| == |elements|
      && forall i :: 0 <= i < |elements| ==>
           Records(elements).value[i] == ToChangeset(elements[i], elements[i].changes.value)
    decreases |elements|
  {
    if elements != [] {
      var prefix := elements[..|elements| - 1];
      RecordsSpec(prefix);
      if Records(prefix).Some? && elements[|elements| - 1].changes.Some? {
        assert forall i :: 0 <= i < |prefix| ==> prefix[i] == elements[i];
      } else if Records(prefix).None? {
        var i :| 0 <= i < |prefix| && prefix[i].changes.None?;
        assert elements[i].changes.None?;
      }
    }
  }

  /**
   * The history is rejected exactly when some element lacks `<Changes>`;
   * otherwise the records come out in ascending id order, as a permutation
   * of the elements, with records of equal id in document order.
   */
  lemma ParsedHistorySorted(elements: seq<ChangesetElement>)
    ensures ParsedHistory(elements).Err? <==> exists i :: 0 <= i < |elements| && elements[i].changes.None?
    ensures ParsedHistory(elements).Err? ==> ParsedHistory(elements).error == MalformedHistory
    ensures ParsedHistory(elements).Ok? ==>
      var rs := Records(elements).value;
      var sorted := ParsedHistory(elements).value;
      && |sorted| == |elements|
      && SortedBy(sorted, IdOf)
      && multiset(sorted) == multiset(rs)
      && forall k :: WithKey(sorted, IdOf, k) == WithKey(rs, IdOf, k)
  {
    RecordsSpec(elements);
    if Records(elements).Some? {
      var rs := Records(elements).value;
      SortBySorted(rs, IdOf);
      SortByPermutes(rs, IdOf);
      forall k ensures WithKey(SortBy(rs, IdOf), IdOf, k) == WithKey(rs, IdOf, k) {
        SortByStable(rs, IdOf, k);
      }
    }
  }

  // ----- Replaying the history -----

  /**
   * A `git commit --allow-empty` that succeeded: the changeset it replays, the
   * branch it is on, its author and date, the text between the quotes of its
   * `-m` argument, and the working tree it records (`git add -A` stages it all).
   */
  datatype Commit = Commit(changeset: int, branch: string, author: Identity, date: string, argument: string, files: Tree)

  /**
   * The outside world: `cm cat`, whether the commit of the changeset at a
   * given position of the run succeeds, and the author identity.
   */
  datatype Env = Env(fetch: Fetch, commitOk: nat -> bool, author: Identity)

  /**
   * The destination repository before the run: the tree at the tip of each of
   * its branches, the tree of the commit HEAD points to, and the working tree.
   */
  datatype Destination = Destination(tips: map<string, Tree>, head: Tree, tree: Tree)

  /**
   * The state of a run: branch tracking, the tree at the tip of each branch,
   * the tree of HEAD, the working tree, the commits made and the extraction
   * warnings printed.
   */
  datatype Run = Run(branches: BranchState, tips: map<string, Tree>, head: Tree, tree: Tree, commits: seq<Commit>, warnings: seq<Path>)

  function Start(dest: Destination): Run {
    Run(InitialBranches(dest.tips.Keys), dest.tips, dest.head, dest.tree, [], [])
  }

  /** The tree at the tip of `name`, or `default` for a name without a tip. */
  function Tip(tips: map<string, Tree>, name: string, default: Tree): Tree {
    if name in tips then tips[name] else default
  }

  /**
   * `get_or_create_branch` with the bookkeeping of the loop around it. Nothing
   * happens when `name` is current. `git checkout` of an existing branch moves
   * HEAD and the working tree to the branch's tip; `git checkout -b` makes a
   * new branch at HEAD and keeps the working tree.
   */
  function SwitchTo(run: Run, name: string): Run {
    if run.branches.current == Some(name) then run
    else if name in run.branches.existing then
      var tip := Tip(run.tips, name, run.head);
      run.(branches := SwitchBranch(run.branches, name), head := tip, tree := tip)
    else
      run.(branches := SwitchBranch(run.branches, name), tips := run.tips[name := run.head])
  }

  /** `apply_changeset_files` on the working tree of the run. */
  function ApplyFiles(run: Run, cs: Changeset, env: Env): Run {
    var applied := ApplyAll(Applied(run.tree, [], []), Expansion(cs.changes), cs.id, env.fetch);
    run.(tree := applied.tree, warnings := run.warnings + applied.warnings)
  }

  /** The commit `create_git_commit` makes for `cs` over the working tree `files`. */
  function CommitOf(cs: Changeset, env: Env, files: Tree): Commit {
    Commit(cs.id, FlattenBranch(cs.branch), env.author, cs.date, EscapeFull(CommitMessage(cs)), files)
  }

  /**
   * `create_git_commit` for the changeset at position `i`: when the commit
   * succeeds, the working tree becomes the tip of the current branch and HEAD.
   */
  function RecordCommit(run: Run, cs: Changeset, i: nat, env: Env): Run {
    if env.commitOk(i) then
      run.(head := run.tree, tips := run.tips[FlattenBranch(cs.branch) := run.tree],
           commits := run.commits + [CommitOf(cs, env, run.tree)])
    else run
  }

  /** One iteration of the loop of `migrate_history`, for the changeset at position `i`. */
  function Step(run: Run, cs: Changeset, i: nat, env: Env): Run {
    RecordCommit(ApplyFiles(SwitchTo(run, FlattenBranch(cs.branch)), cs, env), cs, i, env)
  }

  /** The state after the loop has processed `changesets`, position by position. */
  function Replay(init: Run, changesets: seq<Changeset>, env: Env): Run
    decreases |changesets|
  {
    if changesets == [] then init
    else Step(Replay(init, changesets[..|changesets| - 1], env), changesets[|changesets| - 1], |changesets| - 1, env)
  }

  /**
   * `migrate_history()`: the error `parse_xml_history` raises, the IndexError
   * of `changesets[0]` on an empty history, or the final state of the run.
   */
  function Migration(elements: seq<ChangesetElement>, dest: Destination, env: Env): Result<Run, MigrationError> {
    match ParsedHistory(elements)
    case Err(e) => Err(e)
    case Ok(changesets) => if changesets == [] then Err(EmptyHistory) else Ok(Replay(Start(dest), changesets, env))
  }

  /** `migrate_history()` against the destination repository `dest`. */
  method MigrateHistory(elements: seq<ChangesetElement>, dest: Destination, env: Env)
    returns (r: Result<Run, MigrationError>)
    ensures r == Migration(elements, dest, env)
  {
    var parsed := ParseXmlHistory(elements);
    if parsed.Err? {
      return Err(parsed.error);
    }
    var changesets := parsed.value;
    if |changesets| == 0 {
      return Err(EmptyHistory);
    }

    var run := ReplayHistory(changesets, dest, env);
    r := Ok(run);
  }

  /** The loop of `migrate_history` over the sorted changesets. */
  method ReplayHistory(changesets: seq<Changeset>, dest: Destination, env: Env) returns (run: Run)
    ensures run == Replay(Start(dest), changesets, env)
  {
    run := Start(dest);
    var i := 0;
    while i < |changesets|
      invariant 0 <= i <= |changesets|
      invariant run == Replay(Start(dest), changesets[..i], env)
    {
      assert changesets[..i + 1][..i] == changesets[..i];
      run := MigrateChangeset(run, changesets[i], i, env);
      i := i + 1;
    }
    assert changesets[..|changesets|] == changesets;
  }

  /** `if git_branch != current_branch:` and the call of `get_or_create_branch` under it. */
  method EnterBranch(run: Run, gitBranch: string) returns (next: Run)
    ensures next == SwitchTo(run, gitBranch)
  {
    next := run;
    if run.branches.current != Some(gitBranch) {
      var ops, tips, head, tree := run.branches.ops, run.tips, run.head, run.tree;
      if gitBranch in run.branches.existing {
        // `git checkout`: HEAD and the working tree move to the branch's tip
        ops := ops + [Checkout(gitBranch)];
        head := Tip(tips, gitBranch, head);
        tree := head;
      } else {
        // `git checkout -b`: a new branch at HEAD, the working tree kept
        ops := ops + [Create(gitBranch)];
        tips := tips[gitBranch := head];
      }
      var branches := BranchState(Some(gitBranch), run.branches.seen + {gitBranch}, run.branches.existing + {gitBranch}, ops);
      next := run.(branches := branches, tips := tips, head := head, tree := tree);
    }
  }

  /** The body of the loop of `migrate_history` for the changeset `cs` at position `i`. */
  method MigrateChangeset(run: Run, cs: Changeset, i: nat, env: Env) returns (next: Run)
    ensures next == Step(run, cs, i, env)
  {
    var gitBranch := FlattenBranch(cs.branch);
    // get_or_create_branch flattens the name it is given once more; the name
    // is already flat and flattening is idempotent (FlattenBranchIdempotent),
    // so that second flattening is left out
    next := EnterBranch(run, gitBranch);
    var message := GenerateCommitMessage(cs);
    var applied := ApplyChangesetFiles(next.tree, cs.changes, cs.id, env.fetch);
    next := next.(tree := applied.tree, warnings := next.warnings + applied.warnings);
    if env.commitOk(i) {
      // `git add -A` and the commit: the branch and HEAD move to the working tree
      var commit := Commit(cs.id, gitBranch, env.author, cs.date, EscapeFull(message), next.tree);
      next := next.(head := next.tree, tips := next.tips[gitBranch := next.tree], commits := next.commits + [commit]);
    }
  }

  // ----- What a run does -----

  /** The Git branch names of the changesets, in run order. */
  function Names(changesets: seq<Changeset>): seq<string> {
    seq(|changesets|, i requires 0 <= i < |changesets| => FlattenBranch(changesets[i].branch))
  }

  /** A step changes the branch state as `SwitchBranch` does, whatever the commit does. */
  lemma StepBranches(run: Run, cs: Changeset, i: nat, env: Env)
    ensures Step(run, cs, i, env).branches == SwitchBranch(run.branches, FlattenBranch(cs.branch))
  {
  }

  /** The branch state of a run is the switch through the flattened branch names of its changesets. */
  lemma {:induction false} ReplayBranches(dest: Destination, changesets: seq<Changeset>, env: Env)
    ensures Replay(Start(dest), changesets, env).branches == SwitchAll(InitialBranches(dest.tips.Keys), Names(changesets))
    decreases |changesets|
  {
    if changesets != [] {
      var n := |changesets| - 1;
      var prefix := changesets[..n];
      ReplayBranches(dest, prefix, env);
      StepBranches(Replay(Start(dest), prefix, env), changesets[n], n, env);
      assert Names(changesets)[..n] == Names(prefix);
    }
  }

  /**
   * After a run, the current branch is that of the last changeset,
   * `git_branches` holds exactly the flattened names met, a branch command is
   * run exactly when the name changes from one changeset to the next, and the
   * summary's count of branches is at most the number of changesets.
   */
  lemma MigrationBranches(dest: Destination, changesets: seq<Changeset>, env: Env)
    requires changesets != []
    ensures var st := Replay(Start(dest), changesets, env).branches;
      && st.current == Some(FlattenBranch(changesets[|changesets| - 1].branch))
      && st.seen == Elements(Names(changesets))
      && OpNames(st.ops) == CollapseRuns(Names(changesets))
      && |st.seen| <= |changesets|
  {
    ReplayBranches(dest, changesets, env);
    SwitchAllFacts(dest.tips.Keys, Names(changesets));
    ElementsBound(Names(changesets));
  }

  /** The changesets whose commit succeeds, in run order. */
  function Committed(changesets: seq<Changeset>, env: Env): seq<Changeset>
    decreases |changesets|
  {
    if changesets == [] then []
    else
      var n := |changesets| - 1;
      Committed(changesets[..n], env) + (if env.commitOk(n) then [changesets[n]] else [])
  }

  /** The commit a changeset is replayed as, when its commit succeeds. */
  predicate Replays(c: Commit, cs: Changeset, env: Env) {
    && c.changeset == cs.id
    && c.branch == FlattenBranch(cs.branch)
    && c.author == env.author
    && c.date == cs.date
    && UnescapeFull(c.argument) == CommitMessage(cs)
  }

  /**
   * One commit per changeset whose commit succeeds, in run order, each on the
   * changeset's flattened branch, with its date, and with an argument from
   * which the synthesised message can be read back.
   */
  lemma {:induction false} ReplayCommits(dest: Destination, changesets: seq<Changeset>, env: Env)
    ensures var commits := Replay(Start(dest), changesets, env).commits;
      && |commits| == |Committed(changesets, env)|
      && forall j :: 0 <= j < |commits| ==> Replays(commits[j], Committed(changesets, env)[j], env)
    decreases |changesets|
  {
    if changesets != [] {
      var n := |changesets| - 1;
      var prev := Replay(Start(dest), changesets[..n], env);
      var before := prev.commits;
      var after := Replay(Start(dest), changesets, env).commits;
      var done := Committed(changesets, env);
      ReplayCommits(dest, changesets[..n], env);
      StepCommits(prev, changesets[n], n, env);
      if env.commitOk(n) {
        var files :| after[|after| - 1] == CommitOf(changesets[n], env, files);
        CommitOfReplays(changesets[n], env, files);
      }
      assert after == Step(prev, changesets[n], n, env).commits;
      assert done[..|before|] == Committed(changesets[..n], env);
      forall j | 0 <= j < |after| ensures Replays(after[j], done[j], env) {
        if j < |before| {
          assert after[j] == before[j] && done[j] == Committed(changesets[..n], env)[j];
        }
      }
    }
  }

  /** A step adds the changeset's commit when, and only when, that commit succeeds. */
  lemma StepCommits(run: Run, cs: Changeset, i: nat, env: Env)
    ensures var c := Step(run, cs, i, env).commits;
      && |c| == |run.commits| + (if env.commitOk(i) then 1 else 0)
      && c[..|run.commits|] == run.commits
      && (env.commitOk(i) ==> exists files :: c[|c| - 1] == CommitOf(cs, env, files))
  {
    var applied := ApplyFiles(SwitchTo(run, FlattenBranch(cs.branch)), cs, env);
    var c := Step(run, cs, i, env).commits;
    assert applied.commits == run.commits;
    assert c == if env.commitOk(i) then run.commits + [CommitOf(cs, env, applied.tree)] else run.commits;
  }

  /** The commit of a changeset is on its branch, with its date, and its message can be read back. */
  lemma CommitOfReplays(cs: Changeset, env: Env, files: Tree)
    ensures Replays(CommitOf(cs, env, files), cs, env)
  {
    EscapeFullRoundTrip(CommitMessage(cs));
  }

  /** Committing a sorted history yields commits in ascending changeset id order. */
  lemma {:induction false} CommittedSorted(changesets: seq<Changeset>, env: Env)
    requires SortedBy(changesets, IdOf)
    ensures SortedBy(Committed(changesets, env), IdOf)
    ensures forall j :: 0 <= j < |Committed(changesets, env)| ==> Committed(changesets, env)[j] in changesets
    ensures |Committed(changesets, env)| <= |changesets|
    decreases |changesets|
  {
    if changesets != [] {
      var n := |changesets| - 1;
      var prefix := changesets[..n];
      assert SortedBy(prefix, IdOf);
      CommittedSorted(prefix, env);
      var c := Committed(prefix, env);
      forall j | 0 <= j < |c| ensures c[j] in changesets && IdOf(c[j]) <= IdOf(changesets[n]) {
        var k :| 0 <= k < |prefix| && prefix[k] == c[j];
        assert changesets[k] == c[j];
      }
    }
  }

  /** Every commit succeeds exactly when every changeset's commit succeeds. */
  lemma {:induction false} CommittedAll(changesets: seq<Changeset>, env: Env)
    ensures |Committed(changesets, env)| <= |changesets|
    ensures |Committed(changesets, env)| == |changesets| <==> forall i :: 0 <= i < |changesets| ==> env.commitOk(i)
    decreases |changesets|
  {
    if changesets != [] {
      CommittedAll(changesets[..|changesets| - 1], env);
    }
  }

  /**
   * The closing summary's "commits created" figure (`len(changesets)`)
   * equals the number of commits made exactly when no commit fails; it never
   * undercounts.
   */
  lemma ReportedCommits(elements: seq<ChangesetElement>, dest: Destination, env: Env)
    requires Migration(elements, dest, env).Ok?
    ensures var changesets := ParsedHistory(elements).value;
      var run := Migration(elements, dest, env).value;
      && |run.commits| <= |changesets|
      && (|run.commits| == |changesets| <==> forall i :: 0 <= i < |changesets| ==> env.commitOk(i))
  {
    var changesets := ParsedHistory(elements).value;
    ReplayCommits(dest, changesets, env);
    CommittedAll(changesets, env);
  }

  /**
   * `git commit` refuses an empty `-m` argument without `--allow-empty-message`.
   * When the commit oracle reflects that, no commit of a run carries an empty
   * message: the changesets whose message is "" (only unrecognised change
   * types) are never committed.
   */
  lemma EmptyMessagesNeverCommitted(dest: Destination, changesets: seq<Changeset>, env: Env)
    requires forall i :: 0 <= i < |changesets| && CommitMessage(changesets[i]) == "" ==> !env.commitOk(i)
    ensures forall j :: 0 <= j < |Committed(changesets, env)| ==> CommitMessage(Committed(changesets, env)[j]) != ""
    ensures var commits := Replay(Start(dest), changesets, env).commits;
      forall j :: 0 <= j < |commits| ==> UnescapeFull(commits[j].argument) != ""
  {
    CommittedNonEmpty(changesets, env);
    ReplayCommits(dest, changesets, env);
  }

  lemma {:induction false} CommittedNonEmpty(changesets: seq<Changeset>, env: Env)
    requires forall i :: 0 <= i < |changesets| && CommitMessage(changesets[i]) == "" ==> !env.commitOk(i)
    ensures forall j :: 0 <= j < |Committed(changesets, env)| ==> CommitMessage(Committed(changesets, env)[j]) != ""
    decreases |changesets|
  {
    if changesets != [] {
      var n := |changesets| - 1;
      var prefix := changesets[..n];
      assert forall i :: 0 <= i < |prefix| ==> prefix[i] == changesets[i];
      CommittedNonEmpty(prefix, env);
    }
  }

  // ----- Branch tips -----

  /** The last of `commits` made on the branch `b`, if any. */
  function LastOn(commits: seq<Commit>, b: string): Option<Commit>
    decreases |commits|
  {
    if commits == [] then None
    else if commits[|commits| - 1].branch == b then Some(commits[|commits| - 1])
    else LastOn(commits[..|commits| - 1], b)
  }

  /**
   * How the tips of a run relate to its commits and to the destination: the
   * branches with a tip are the known ones; the current branch's tip is HEAD;
   * a branch with a commit of the run has that commit's tree as its tip; and
   * a branch of the destination without one keeps its original tip.
   */
  ghost predicate TipsConsistent(dest: Destination, run: Run) {
    && run.tips.Keys == run.branches.existing
    && dest.tips.Keys <= run.tips.Keys
    && (run.branches.current.Some? ==>
          run.branches.current.value in run.tips && run.tips[run.branches.current.value] == run.head)
    && (forall b :: LastOn(run.commits, b).Some? ==> b in run.tips && run.tips[b] == LastOn(run.commits, b).value.files)
    && (forall b :: b in dest.tips && LastOn(run.commits, b).None? ==> run.tips[b] == dest.tips[b])
  }

  lemma StartTips(dest: Destination)
    ensures TipsConsistent(dest, Start(dest))
  {
  }

  lemma SwitchKeepsTips(dest: Destination, run: Run, name: string)
    requires TipsConsistent(dest, run)
    ensures TipsConsistent(dest, SwitchTo(run, name))
    ensures SwitchTo(run, name).branches.current == Some(name)
  {
    if run.branches.current != Some(name) && name !in run.branches.existing {
      var next := SwitchTo(run, name);
      assert next.commits == run.commits;
      forall b | LastOn(next.commits, b).Some?
        ensures b in next.tips && next.tips[b] == LastOn(next.commits, b).value.files
      {
        assert b != name;
      }
    }
  }

  lemma ApplyKeepsTips(dest: Destination, run: Run, cs: Changeset, env: Env)
    requires TipsConsistent(dest, run)
    ensures TipsConsistent(dest, ApplyFiles(run, cs, env))
    ensures ApplyFiles(run, cs, env).branches == run.branches
  {
  }

  lemma RecordKeepsTips(dest: Destination, run: Run, cs: Changeset, i: nat, env: Env)
    requires TipsConsistent(dest, run)
    requires run.branches.current == Some(FlattenBranch(cs.branch))
    ensures TipsConsistent(dest, RecordCommit(run, cs, i, env))
  {
    if env.commitOk(i) {
      var name := FlattenBranch(cs.branch);
      var next := RecordCommit(run, cs, i, env);
      var c := CommitOf(cs, env, run.tree);
      assert next.commits == run.commits + [c];
      assert next.commits[..|run.commits|] == run.commits;
      assert LastOn(next.commits, name) == Some(c);
      forall b | b != name
        ensures LastOn(next.commits, b) == LastOn(run.commits, b)
      {
      }
    }
  }

  /** The tips of a run stay consistent with its commits and its destination from start to end. */
  lemma {:induction false} ReplayTips(dest: Destination, changesets: seq<Changeset>, env: Env)
    ensures TipsConsistent(dest, Replay(Start(dest), changesets, env))
    decreases |changesets|
  {
    if changesets == [] {
      StartTips(dest);
    } else {
      var n := |changesets| - 1;
      var cs := changesets[n];
      var before := Replay(Start(dest), changesets[..n], env);
      ReplayTips(dest, changesets[..n], env);
      var switched := SwitchTo(before, FlattenBranch(cs.branch));
      SwitchKeepsTips(dest, before, FlattenBranch(cs.branch));
      ApplyKeepsTips(dest, switched, cs, env);
      RecordKeepsTips(dest, ApplyFiles(switched, cs, env), cs, n, env);
    }
  }

  /**
   * Checking out a known branch that is not current restores its last
   * commit's tree, or, for a branch of the destination not yet committed to,
   * the destination's tip; a new branch keeps the working tree.
   */
  lemma SwitchRestoresTip(dest: Destination, run: Run, name: string)
    requires TipsConsistent(dest, run)
    ensures var next := SwitchTo(run, name);
      && (run.branches.current != Some(name) && name in run.branches.existing && LastOn(run.commits, name).Some? ==>
            next.tree == next.head == LastOn(run.commits, name).value.files)
      && (run.branches.current != Some(name) && name in dest.tips && LastOn(run.commits, name).None? ==>
            next.tree == next.head == dest.tips[name])
      && (name !in run.branches.existing ==> next.tree == run.tree && next.tips[name] == run.head)
  {
  }

  /**
   * The working tree a changeset's files are applied to: after a switch to an
   * earlier branch, the tree of that branch's last commit, or its tip in the
   * destination when the run has not committed to it.
   */
  lemma ReplayRestoresTip(dest: Destination, changesets: seq<Changeset>, env: Env, n: nat)
    requires n < |changesets|
    ensures var before := Replay(Start(dest), changesets[..n], env);
      var name := FlattenBranch(changesets[n].branch);
      var last := LastOn(before.commits, name);
      var next := SwitchTo(before, name);
      && (before.branches.current != Some(name) && last.Some? ==> next.tree == last.value.files)
      && (before.branches.current != Some(name) && name in dest.tips && last.None? ==> next.tree == dest.tips[name])
  {
    var before := Replay(Start(dest), changesets[..n], env);
    ReplayTips(dest, changesets[..n], env);
    SwitchRestoresTip(dest, before, FlattenBranch(changesets[n].branch));
  }

  // ----- Files no changeset names -----

  /** Whether some change of `changes` names the file `k`: as destination, or as the source of a move. */
  predicate Mentions(changes: seq<FileChange>, k: Path) {
    exists j :: 0 <= j < |changes| &&
      ((changes[j].kind == MOVED && LocalPath(changes[j].srcPath) == k) || LocalPath(changes[j].dstPath) == k)
  }

  /** Every action of an expansion acts on the source or the destination of one of the changes. */
  lemma {:induction false} ExpansionPaths(changes: seq<FileChange>, k: Path)
    requires !Mentions(changes, k)
    ensures forall i :: 0 <= i < |Expansion(changes)| ==> LocalPath(Expansion(changes)[i].path) != k
    decreases |changes|
  {
    if changes != [] {
      var prefix := changes[..|changes| - 1];
      assert !Mentions(prefix, k) by {
        forall j | 0 <= j < |prefix|
          ensures (prefix[j].kind == MOVED ==> LocalPath(prefix[j].srcPath) != k) && LocalPath(prefix[j].dstPath) != k
        {
          assert prefix[j] == changes[j];
        }
      }
      ExpansionPaths(prefix, k);
      var last := changes[|changes| - 1];
      assert (last.kind == MOVED ==> LocalPath(last.srcPath) != k) && LocalPath(last.dstPath) != k;
      var tail := ExpandChange(last);
      assert forall i :: 0 <= i < |tail| ==> LocalPath(tail[i].path) != k;
    }
  }

  /** The file `k` has the content `v` in the working tree, in HEAD, at every tip and in every commit of `run`. */
  predicate AgreesOn(run: Run, k: Path, v: Option<string>) {
    && Lookup(run.tree, k) == v
    && Lookup(run.head, k) == v
    && (forall b :: b in run.tips ==> Lookup(run.tips[b], k) == v)
    && (forall j :: 0 <= j < |run.commits| ==> Lookup(run.commits[j].files, k) == v)
  }

  lemma SwitchFrame(run: Run, name: string, k: Path, v: Option<string>)
    requires AgreesOn(run, k, v)
    ensures AgreesOn(SwitchTo(run, name), k, v)
  {
  }

  lemma ApplyFrame(run: Run, cs: Changeset, env: Env, k: Path, v: Option<string>)
    requires AgreesOn(run, k, v) && !Mentions(cs.changes, k)
    ensures AgreesOn(ApplyFiles(run, cs, env), k, v)
  {
    var actions := Expansion(cs.changes);
    ExpansionPaths(cs.changes, k);
    ApplyAllPointwise(Applied(run.tree, [], []), actions, cs.id, env.fetch, k);
    FileAfterUntouched(Lookup(run.tree, k), actions, k, cs.id, env.fetch);
  }

  lemma RecordFrame(run: Run, cs: Changeset, i: nat, env: Env, k: Path, v: Option<string>)
    requires AgreesOn(run, k, v)
    ensures AgreesOn(RecordCommit(run, cs, i, env), k, v)
  {
  }

  /**
   * A file that no changeset of the run names, and that has one content in
   * the destination's working tree, HEAD and every tip, keeps that content in
   * the working tree, HEAD, every tip and every commit through the whole run.
   */
  lemma {:induction false} ReplayFrame(dest: Destination, changesets: seq<Changeset>, env: Env, k: Path)
    requires forall i :: 0 <= i < |changesets| ==> !Mentions(changesets[i].changes, k)
    requires Lookup(dest.head, k) == Lookup(dest.tree, k)
    requires forall b :: b in dest.tips ==> Lookup(dest.tips[b], k) == Lookup(dest.tree, k)
    ensures AgreesOn(Replay(Start(dest), changesets, env), k, Lookup(dest.tree, k))
    decreases |changesets|
  {
    if changesets != [] {
      var n := |changesets| - 1;
      var cs := changesets[n];
      var v := Lookup(dest.tree, k);
      var before := Replay(Start(dest), changesets[..n], env);
      ReplayFrame(dest, changesets[..n], env, k);
      var switched := SwitchTo(before, FlattenBranch(cs.branch));
      SwitchFrame(before, FlattenBranch(cs.branch), k, v);
      ApplyFrame(switched, cs, env, k, v);
      RecordFrame(ApplyFiles(switched, cs, env), cs, n, env, k, v);
    }
  }
}
