/**
 * The simple migration driver (`parse_history` and `migrate`). Each changeset
 * record already carries its final message; the workspace is brought to the
 * changeset's revision by `cm switch`, and a changeset whose switch fails is
 * skipped. The outcomes of `cm switch` and of `git commit` are oracles
 * indexed by the changeset's position in the run.
 */
module SimpleMigration {
  import opened Wrappers
  import opened Text
  import opened Ordering
  import opened History
  import opened Messages
  import opened Branches
  import opened Escaping

  // ----- Reading the history -----

  /** The dictionary `parse_history` builds: the message is stored under 'comment'. */
  datatype SimpleChangeset = SimpleChangeset(id: int, branch: string, comment: string, date: string)

  function SimpleIdOf(cs: SimpleChangeset): int {
    cs.id
  }

  /**
   * The record of one element: a missing `<Changes>` counts as no change,
   * and the message is the one SimpleMessage describes.
   */
  function Record(e: ChangesetElement): SimpleChangeset {
    SimpleChangeset(e.id, e.branch, SimpleMessage(e.comment.GetOr(""), e.changes.GetOr([]), e.id), e.date)
  }

  function RecordsOf(elements: seq<ChangesetElement>): seq<SimpleChangeset> {
    seq(|elements|, i requires 0 <= i < |elements| => Record(elements[i]))
  }

  /** What `parse_history` returns: the records sorted by id. */
  function SimpleHistory(elements: seq<ChangesetElement>): seq<SimpleChangeset> {
    SortBy(RecordsOf(elements), SimpleIdOf)
  }

  /** `parse_history()` over the already read `<Changeset>` elements. */
  method ParseHistory(elements: seq<ChangesetElement>) returns (changesets: seq<SimpleChangeset>)
    ensures changesets == SimpleHistory(elements)
  {
    var records: seq<SimpleChangeset> := [];
    for i := 0 to |elements|
      invariant records == RecordsOf(elements[..i])
    {
      var record := ParseChangeset(elements[i]);
      records := records + [record];
      assert records == RecordsOf(elements[..i + 1]);
    }
    assert elements[..|elements|] == elements;
    changesets := SortBy(records, SimpleIdOf);
  }

  /** The body of the loop of `parse_history` for one element. */
  method ParseChangeset(e: ChangesetElement) returns (record: SimpleChangeset)
    ensures record == Record(e)
  {
    var comment := Strip(e.comment.GetOr(""));
    var changeTypes := TallyChanges(e.changes.GetOr([]));
    if comment == "" {
      var counts := Tally(CountIn(changeTypes, ADDED), CountIn(changeTypes, CHANGED),
                          CountIn(changeTypes, DELETED), CountIn(changeTypes, MOVED));
      assert counts == TallyOf(e.changes.GetOr([]));
      var parts := BuildParts(counts);
      comment := if parts != [] then Join(", ", parts) else Fallback(e.id);
    }
    record := SimpleChangeset(e.id, e.branch, comment, e.date);
  }

  /**
   * Reading never fails. The records come out in ascending id order, as a
   * permutation of one record per element, with records of equal id in
   * document order, and each carries a non-empty message.
   */
  lemma SimpleHistorySorted(elements: seq<ChangesetElement>)
    ensures var sorted := SimpleHistory(elements);
      && |sorted| == |elements|
      && SortedBy(sorted, SimpleIdOf)
      && multiset(sorted) == multiset(RecordsOf(elements))
      && (forall k :: WithKey(sorted, SimpleIdOf, k) == WithKey(RecordsOf(elements), SimpleIdOf, k))
      && (forall i :: 0 <= i < |sorted| ==> sorted[i].comment != [])
  {
    var rs := RecordsOf(elements);
    var sorted := SimpleHistory(elements);
    SortBySorted(rs, SimpleIdOf);
    SortByPermutes(rs, SimpleIdOf);
    forall k ensures WithKey(sorted, SimpleIdOf, k) == WithKey(rs, SimpleIdOf, k) {
      SortByStable(rs, SimpleIdOf, k);
    }
    forall i | 0 <= i < |sorted| ensures sorted[i].comment != [] {
      assert sorted[i] in multiset(rs);
      var j :| 0 <= j < |rs| && rs[j] == sorted[i];
      var e := elements[j];
      SimpleMessageNonEmpty(e.comment.GetOr(""), e.changes.GetOr([]), e.id);
    }
  }

  // ----- Replaying the history -----

  /**
   * The outside world: whether `cm switch` to, and the commit of, the
   * changeset at a given position succeed, and the author identity.
   */
  datatype SimpleEnv = SimpleEnv(switchOk: nat -> bool, commitOk: nat -> bool, author: Identity)

  /** A `git commit --allow-empty` that succeeded, with the text between the quotes of its `-m` argument. */
  datatype SimpleCommit = SimpleCommit(changeset: int, branch: string, author: Identity, date: string, argument: string)

  /**
   * The state of a run: branch tracking, the commits made, `success_count`,
   * and the ids reported with "switch failed".
   */
  datatype SimpleRun = SimpleRun(branches: BranchState, commits: seq<SimpleCommit>, successCount: nat, skipped: seq<int>)

  function SimpleStart(existing: set<string>): SimpleRun {
    SimpleRun(InitialBranches(existing), [], 0, [])
  }

  /** The commit the run makes for `cs`. */
  function SimpleCommitOf(cs: SimpleChangeset, env: SimpleEnv): SimpleCommit {
    SimpleCommit(cs.id, FlattenBranch(cs.branch), env.author, cs.date, EscapeSimple(cs.comment))
  }

  /**
   * One iteration of the loop of `migrate` for the changeset at position `i`:
   * a failed switch skips the rest of the iteration.
   */
  function SimpleStep(run: SimpleRun, cs: SimpleChangeset, i: nat, env: SimpleEnv): SimpleRun {
    if !env.switchOk(i) then run.(skipped := run.skipped + [cs.id])
    else
      var branches := SwitchBranch(run.branches, FlattenBranch(cs.branch));
      if env.commitOk(i) then SimpleRun(branches, run.commits + [SimpleCommitOf(cs, env)], run.successCount + 1, run.skipped)
      else run.(branches := branches)
  }

  function SimpleReplay(init: SimpleRun, changesets: seq<SimpleChangeset>, env: SimpleEnv): SimpleRun
    decreases |changesets|
  {
    if changesets == [] then init
    else SimpleStep(SimpleReplay(init, changesets[..|changesets| - 1], env), changesets[|changesets| - 1], |changesets| - 1, env)
  }

  /** `migrate()` against a destination repository that has the branches `existing`. */
  function SimpleMigrationRun(elements: seq<ChangesetElement>, existing: set<string>, env: SimpleEnv): SimpleRun {
    SimpleReplay(SimpleStart(existing), SimpleHistory(elements), env)
  }

  method Migrate(elements: seq<ChangesetElement>, existing: set<string>, env: SimpleEnv) returns (run: SimpleRun)
    ensures run == SimpleMigrationRun(elements, existing, env)
  {
    var changesets := ParseHistory(elements);
    run := MigrateAll(changesets, existing, env);
  }

  /** The loop of `migrate` over the sorted changesets. */
  method MigrateAll(changesets: seq<SimpleChangeset>, existing: set<string>, env: SimpleEnv) returns (run: SimpleRun)
    ensures run == SimpleReplay(SimpleStart(existing), changesets, env)
  {
    run := SimpleStart(existing);
    for i := 0 to |changesets|
      invariant run == SimpleReplay(SimpleStart(existing), changesets[..i], env)
    {
      assert changesets[..i + 1][..i] == changesets[..i];
      var cs := changesets[i];
      if !env.switchOk(i) {
        // "X switch failed"
        run := run.(skipped := run.skipped + [cs.id]);
        continue;
      }
      run := CommitChangeset(run, cs, i, env);
    }
    assert changesets[..|changesets|] == changesets;
  }

  /** The rest of an iteration once `cm switch` succeeded: branch, `git add -A`, commit. */
  method CommitChangeset(run: SimpleRun, cs: SimpleChangeset, i: nat, env: SimpleEnv) returns (next: SimpleRun)
    requires env.switchOk(i)
    ensures next == SimpleStep(run, cs, i, env)
  {
    var currentBranch, gitBranches, known, ops := run.branches.current, run.branches.seen, run.branches.existing, run.branches.ops;
    var gitBranch := FlattenBranch(cs.branch);
    if currentBranch != Some(gitBranch) {
      if gitBranch in known {
        ops := ops + [Checkout(gitBranch)];
      } else {
        ops := ops + [Create(gitBranch)];
      }
      known := known + {gitBranch};
      currentBranch := Some(gitBranch);
      gitBranches := gitBranches + {gitBranch};
    }
    var message := EscapeSimple(cs.comment);
    var commits, successCount := run.commits, run.successCount;
    if env.commitOk(i) {
      commits := commits + [SimpleCommit(cs.id, gitBranch, env.author, cs.date, message)];
      successCount := successCount + 1;
    }
    next := SimpleRun(BranchState(currentBranch, gitBranches, known, ops), commits, successCount, run.skipped);
  }

  // ----- What a run does -----

  /** The changesets whose switch succeeds, in run order. */
  function Switched(changesets: seq<SimpleChangeset>, env: SimpleEnv): seq<SimpleChangeset>
    decreases |changesets|
  {
    if changesets == [] then []
    else
      var n := |changesets| - 1;
      Switched(changesets[..n], env) + (if env.switchOk(n) then [changesets[n]] else [])
  }

  /** The changesets whose switch and commit both succeed, in run order. */
  function Succeeded(changesets: seq<SimpleChangeset>, env: SimpleEnv): seq<SimpleChangeset>
    decreases |changesets|
  {
    if changesets == [] then []
    else
      var n := |changesets| - 1;
      Succeeded(changesets[..n], env) + (if env.switchOk(n) && env.commitOk(n) then [changesets[n]] else [])
  }

  /** The ids of the changesets whose switch fails, in run order. */
  function FailedSwitches(changesets: seq<SimpleChangeset>, env: SimpleEnv): seq<int>
    decreases |changesets|
  {
    if changesets == [] then []
    else
      var n := |changesets| - 1;
      FailedSwitches(changesets[..n], env) + (if env.switchOk(n) then [] else [changesets[n].id])
  }

  function SimpleNames(changesets: seq<SimpleChangeset>): seq<string> {
    seq(|changesets|, i requires 0 <= i < |changesets| => FlattenBranch(changesets[i].branch))
  }

  /** A skipped changeset leaves the branch state alone: the branches follow the switched changesets only. */
  lemma {:induction false} SimpleReplayBranches(existing: set<string>, changesets: seq<SimpleChangeset>, env: SimpleEnv)
    ensures SimpleReplay(SimpleStart(existing), changesets, env).branches
      == SwitchAll(InitialBranches(existing), SimpleNames(Switched(changesets, env)))
    decreases |changesets|
  {
    if changesets != [] {
      var n := |changesets| - 1;
      SimpleReplayBranches(existing, changesets[..n], env);
      var before := Switched(changesets[..n], env);
      SimpleStepEffect(SimpleReplay(SimpleStart(existing), changesets[..n], env), changesets[n], n, env);
      if env.switchOk(n) {
        assert Switched(changesets, env) == before + [changesets[n]];
        var names := SimpleNames(before + [changesets[n]]);
        assert names[..|names| - 1] == SimpleNames(before);
        assert names[|names| - 1] == FlattenBranch(changesets[n].branch);
        assert SwitchAll(InitialBranches(existing), names)
          == SwitchBranch(SwitchAll(InitialBranches(existing), SimpleNames(before)), FlattenBranch(changesets[n].branch));
      } else {
        assert Switched(changesets, env) == before;
      }
    }
  }

  /** What one iteration changes: nothing but the skipped list on a failed switch. */
  lemma SimpleStepEffect(run: SimpleRun, cs: SimpleChangeset, i: nat, env: SimpleEnv)
    ensures var next := SimpleStep(run, cs, i, env);
      && next.branches == (if env.switchOk(i) then SwitchBranch(run.branches, FlattenBranch(cs.branch)) else run.branches)
      && next.commits == run.commits + (if env.switchOk(i) && env.commitOk(i) then [SimpleCommitOf(cs, env)] else [])
      && next.successCount == run.successCount + (if env.switchOk(i) && env.commitOk(i) then 1 else 0)
      && next.skipped == run.skipped + (if env.switchOk(i) then [] else [cs.id])
  {
  }

  /**
   * `success_count` is the number of commits made, one per changeset whose
   * switch and commit both succeed, in run order, each on the changeset's
   * flattened branch with its date and an argument from which its message
   * reads back; the switch failures are reported in run order.
   */
  lemma {:induction false} SimpleReplayCommits(existing: set<string>, changesets: seq<SimpleChangeset>, env: SimpleEnv)
    ensures var run := SimpleReplay(SimpleStart(existing), changesets, env);
      && run.successCount == |run.commits| == |Succeeded(changesets, env)|
      && run.skipped == FailedSwitches(changesets, env)
      && forall j :: 0 <= j < |run.commits| ==> run.commits[j] == SimpleCommitOf(Succeeded(changesets, env)[j], env)
    decreases |changesets|
  {
    if changesets != [] {
      var n := |changesets| - 1;
      SimpleReplayCommits(existing, changesets[..n], env);
      var prev := SimpleReplay(SimpleStart(existing), changesets[..n], env);
      SimpleStepEffect(prev, changesets[n], n, env);
      var done := Succeeded(changesets, env);
      assert done[..|prev.commits|] == Succeeded(changesets[..n], env);
    }
  }

  /** The message of a commit reads back from its escaped argument. */
  lemma SimpleCommitMessage(cs: SimpleChangeset, env: SimpleEnv)
    ensures var c := SimpleCommitOf(cs, env);
      c.changeset == cs.id && c.branch == FlattenBranch(cs.branch) && c.date == cs.date
      && UnescapeSimple(c.argument) == cs.comment
  {
    EscapeSimpleRoundTrip(cs.comment);
  }

  /**
   * The closing `success_count/len(changesets)`: at most the number of
   * changesets, and equal to it exactly when every switch and every commit
   * succeeds.
   */
  lemma {:induction false} SuccessCountBound(changesets: seq<SimpleChangeset>, env: SimpleEnv)
    ensures |Succeeded(changesets, env)| <= |changesets|
    ensures |Succeeded(changesets, env)| == |changesets| <==>
      forall i :: 0 <= i < |changesets| ==> env.switchOk(i) && env.commitOk(i)
    decreases |changesets|
  {
    if changesets != [] {
      SuccessCountBound(changesets[..|changesets| - 1], env);
    }
  }

  // ----- The branch line of the summary -----

  predicate IsLeast(m: string, s: set<string>) {
    m in s && forall x :: x in s && x != m ==> LexLess(m, x)
  }

  lemma {:induction false} LeastExists(s: set<string>) returns (m: string)
    requires s != {}
    ensures IsLeast(m, s)
    decreases |s|
  {
    var y :| y in s;
    if s == {y} {
      m := y;
    } else {
      var rest := LeastExists(s - {y});
      LexLessTotal(y, rest);
      if LexLess(y, rest) {
        m := y;
        forall x | x in s && x != y ensures LexLess(y, x) {
          if x != rest {
            LexLessTransitive(y, rest, x);
          }
        }
      } else {
        m := rest;
      }
    }
  }

  lemma HasLeast(s: set<string>)
    requires s != {}
    ensures exists m :: IsLeast(m, s)
  {
    var m := LeastExists(s);
  }

  /** `sorted(git_branches)`: the names in ascending order, each once. */
  ghost function SortedNames(s: set<string>): (r: seq<string>)
    ensures |r| == |s|
    ensures forall x :: x in r <==> x in s
    ensures forall i, j :: 0 <= i < j < |r| ==> LexLess(r[i], r[j])
    decreases |s|
  {
    if s == {} then []
    else
      HasLeast(s);
      var m :| IsLeast(m, s);
      [m] + SortedNames(s - {m})
  }

  /**
   * The branch line lists every flattened branch name of a switched
   * changeset, each once, in ascending order, and nothing else.
   */
  lemma SimpleBranchLine(existing: set<string>, changesets: seq<SimpleChangeset>, env: SimpleEnv)
    ensures var names := SortedNames(SimpleReplay(SimpleStart(existing), changesets, env).branches.seen);
      && (forall x :: x in names <==> x in SimpleNames(Switched(changesets, env)))
      && (forall i, j :: 0 <= i < j < |names| ==> LexLess(names[i], names[j]))
  {
    SimpleReplayBranches(existing, changesets, env);
    SwitchAllFacts(existing, SimpleNames(Switched(changesets, env)));
  }
}
