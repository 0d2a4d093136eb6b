/**
 * Mapping a Plastic SCM branch path to a flat Git branch name, and the
 * branch-tracking state both drivers keep: the branch currently checked out,
 * the set of branch names seen (`git_branches`), and the branch operations run
 * against the destination repository.
 */
module Branches {
  import opened Wrappers
  import opened Text

  /** `branch.lstrip('/').replace('/', '-')` */
  function FlattenBranch(branch: string): string {
    ReplaceChar(LStripChar(branch, '/'), '/', "-")
  }

  /** A flattened name holds no slash. */
  lemma FlattenBranchNoSlash(branch: string)
    ensures forall k :: 0 <= k < |FlattenBranch(branch)| ==> FlattenBranch(branch)[k] != '/'
  {
    ReplaceCharRemoves(LStripChar(branch, '/'), '/', "-");
  }

  /**
   * The flattened name is the branch path after its leading slashes, with
   * every other slash turned into a dash, character by character.
   */
  lemma FlattenBranchShape(branch: string)
    ensures var stripped := LStripChar(branch, '/'); var name := FlattenBranch(branch);
      && |stripped| <= |branch| && branch == branch[..|branch| - |stripped|] + stripped
      && (forall k :: 0 <= k < |branch| - |stripped| ==> branch[k] == '/')
      && (stripped != [] ==> stripped[0] != '/')
      && |name| == |stripped|
      && (forall k :: 0 <= k < |name| ==> name[k] == if stripped[k] == '/' then '-' else stripped[k])
  {
    LStripCharFacts(branch, '/');
    ReplaceCharPointwise(LStripChar(branch, '/'), '/', '-');
  }

  /** Flattening a flat name changes nothing. */
  lemma FlattenBranchIdempotent(branch: string)
    ensures FlattenBranch(FlattenBranch(branch)) == FlattenBranch(branch)
  {
    var name := FlattenBranch(branch);
    FlattenBranchNoSlash(branch);
    assert LStripChar(name, '/') == name by {
      if name != [] {
        assert name[0] != '/';
      }
    }
    ReplaceCharAbsent(name, '/', "-");
  }

  /** Flattening is not injective: two distinct branch paths share a Git branch name. */
  lemma FlattenBranchCollision()
    ensures "/a-b" != "/a/b"
    ensures FlattenBranch("/a-b") == FlattenBranch("/a/b") == "a-b"
  {
    assert "/a-b"[1..] == "a-b";
    assert "/a/b"[1..] == "a/b";
    ReplaceCharAbsent("a-b", '/', "-");
    ReplaceCharPointwise("a/b", '/', '-');
  }

  // ----- Branch tracking -----

  /** `git checkout -b name` or `git checkout name`. */
  datatype BranchOp = Create(name: string) | Checkout(name: string)

  /**
   * `current` is `current_branch` (None before the first changeset), `seen`
   * is `git_branches`, `existing` the branches the destination repository
   * has, and `ops` the branch commands run so far.
   */
  datatype BranchState = BranchState(
    current: Option<string>, seen: set<string>, existing: set<string>, ops: seq<BranchOp>)

  /** The state at the start of a run, against a destination that has the branches `existing`. */
  function InitialBranches(existing: set<string>): BranchState {
    BranchState(None, {}, existing, [])
  }

  /**
   * `if git_branch != current_branch:` check whether the branch exists
   * (`git rev-parse --verify`), create it or check it out, then record it as
   * current and add it to `git_branches`. Nothing happens when it is already
   * current.
   */
  function SwitchBranch(st: BranchState, name: string): (r: BranchState)
    ensures r.current == Some(name)
    ensures |r.ops| == |st.ops| + (if st.current == Some(name) then 0 else 1)
    ensures st.seen <= r.seen && st.existing <= r.existing && r.ops[..|st.ops|] == st.ops
  {
    if st.current == Some(name) then st
    else
      var op := if name in st.existing then Checkout(name) else Create(name);
      BranchState(Some(name), st.seen + {name}, st.existing + {name}, st.ops + [op])
  }

  /** The branch state after the drivers have switched to each name of `names` in turn. */
  function SwitchAll(st: BranchState, names: seq<string>): BranchState
    decreases |names|
  {
    if names == [] then st else SwitchBranch(SwitchAll(st, names[..|names| - 1]), names[|names| - 1])
  }

  /** `names` with every run of equal consecutive names reduced to one. */
  function CollapseRuns(names: seq<string>): (r: seq<string>)
    ensures |r| <= |names|
    ensures names != [] ==> r != [] && r[|r| - 1] == names[|names| - 1]
    ensures forall i :: 0 <= i < |r| - 1 ==> r[i] != r[i + 1]
  {
    if names == [] then []
    else
      var r := CollapseRuns(names[..|names| - 1]);
      if r != [] && r[|r| - 1] == names[|names| - 1] then r else r + [names[|names| - 1]]
  }

  function OpNames(ops: seq<BranchOp>): seq<string> {
    seq(|ops|, i requires 0 <= i < |ops| => ops[i].name)
  }

  function Elements(names: seq<string>): set<string> {
    set i | 0 <= i < |names| :: names[i]
  }

  /**
   * After switching through `names` from the initial state: the current
   * branch is the last name; `git_branches` is exactly the set of names seen;
   * a branch command is run exactly when the name differs from the previous
   * one; each command creates a branch the destination does not have yet or
   * checks out one it has.
   */
  lemma SwitchAllFacts(existing: set<string>, names: seq<string>)
    ensures var st := SwitchAll(InitialBranches(existing), names);
      && st.current == (if names == [] then None else Some(names[|names| - 1]))
      && st.seen == Elements(names)
      && st.existing == existing + Elements(names)
      && OpNames(st.ops) == CollapseRuns(names)
  {
    SwitchAllSets(existing, names);
    SwitchAllOps(existing, names);
  }

  lemma {:induction false} SwitchAllSets(existing: set<string>, names: seq<string>)
    ensures var st := SwitchAll(InitialBranches(existing), names);
      && st.current == (if names == [] then None else Some(names[|names| - 1]))
      && st.seen == Elements(names)
      && st.existing == existing + Elements(names)
  {
    if names != [] {
      var prefix := names[..|names| - 1];
      var last := names[|names| - 1];
      SwitchAllSets(existing, prefix);
      assert names == prefix + [last];
      ElementsAppend(prefix, last);
    }
  }

  lemma {:induction false} SwitchAllOps(existing: set<string>, names: seq<string>)
    ensures OpNames(SwitchAll(InitialBranches(existing), names).ops) == CollapseRuns(names)
  {
    if names != [] {
      var prefix := names[..|names| - 1];
      var last := names[|names| - 1];
      SwitchAllOps(existing, prefix);
      SwitchAllSets(existing, prefix);
      var st := SwitchAll(InitialBranches(existing), prefix);
      var st' := SwitchBranch(st, last);
      assert SwitchAll(InitialBranches(existing), names) == st';
      if st.current != Some(last) {
        assert OpNames(st'.ops) == OpNames(st.ops) + [last];
      }
    }
  }

  /**
   * A branch is created at most once in a run, and only when the destination
   * did not have it at the start.
   */
  lemma {:induction false} CreatesAtMostOnce(existing: set<string>, names: seq<string>)
    ensures var st := SwitchAll(InitialBranches(existing), names);
      forall i, j :: 0 <= i < j < |st.ops| && st.ops[i].Create? && st.ops[j].Create? ==> st.ops[i].name != st.ops[j].name
    ensures var st := SwitchAll(InitialBranches(existing), names);
      forall i :: 0 <= i < |st.ops| && st.ops[i].Create? ==> st.ops[i].name !in existing
  {
    if names != [] {
      var prefix := names[..|names| - 1];
      CreatesAtMostOnce(existing, prefix);
      CreatedAreExisting(existing, prefix);
    }
  }

  /** Every branch named by a command of the run is a branch of the destination afterwards. */
  lemma {:induction false} CreatedAreExisting(existing: set<string>, names: seq<string>)
    ensures var st := SwitchAll(InitialBranches(existing), names);
      existing <= st.existing && forall i :: 0 <= i < |st.ops| ==> st.ops[i].name in st.existing
  {
    if names != [] {
      CreatedAreExisting(existing, names[..|names| - 1]);
    }
  }

  lemma ElementsAppend(names: seq<string>, x: string)
    ensures Elements(names + [x]) == Elements(names) + {x}
  {
    var s := names + [x];
    forall y | y in Elements(s) ensures y in Elements(names) + {x} {
      var i :| 0 <= i < |s| && s[i] == y;
      if i < |names| {
        assert names[i] == y;
      }
    }
    forall y | y in Elements(names) ensures y in Elements(s) {
      var i :| 0 <= i < |names| && names[i] == y;
      assert s[i] == y;
    }
    assert s[|names|] == x;
  }

  /** There are no more distinct names than names. */
  lemma {:induction false} ElementsBound(names: seq<string>)
    ensures |Elements(names)| <= |names|
  {
    if names != [] {
      var prefix := names[..|names| - 1];
      ElementsBound(prefix);
      assert names == prefix + [names[|names| - 1]];
      ElementsAppend(prefix, names[|names| - 1]);
    }
  }

  /** Collapsing runs keeps exactly the names that occur. */
  lemma {:induction false} CollapseRunsElements(names: seq<string>)
    ensures Elements(CollapseRuns(names)) == Elements(names)
  {
    if names != [] {
      var prefix := names[..|names| - 1];
      CollapseRunsElements(prefix);
      var last := names[|names| - 1];
      assert names == prefix + [last];
      ElementsAppend(prefix, last);
      var r := CollapseRuns(prefix);
      ElementsAppend(r, last);
      if r != [] && r[|r| - 1] == last {
        assert last in Elements(r);
      }
    }
  }
}
