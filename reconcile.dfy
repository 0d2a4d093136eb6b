/**
 * Bringing the working tree in line with one changeset (`apply_changeset_files`).
 * The change list is first expanded into a list of actions (a move is a
 * delete of the source followed by an add of the destination), then the
 * actions are applied in order. The working tree is a map from the path
 * under the repository root (leading slashes stripped) to the file's text;
 * the revision contents come from an oracle standing for `cm cat`.
 */
module Reconcile {
  import opened Wrappers
  import opened Text
  import opened History

  /** `('add_or_update', path, cs_id)` or `('delete', path, cs_id)`. */
  datatype Action = AddOrUpdate(path: Path) | Delete(path: Path)

  /** The actions one change contributes to `files_to_process`; unrecognised types contribute none. */
  function ExpandChange(c: FileChange): seq<Action> {
    if c.kind == ADDED || c.kind == CHANGED then [AddOrUpdate(c.dstPath)]
    else if c.kind == DELETED then [Delete(c.dstPath)]
    else if c.kind == MOVED then [Delete(c.srcPath), AddOrUpdate(c.dstPath)]
    else []
  }

  /** `files_to_process` after the first loop has seen every change of `changes`. */
  function Expansion(changes: seq<FileChange>): seq<Action>
    decreases |changes|
  {
    if changes == [] then []
    else Expansion(changes[..|changes| - 1]) + ExpandChange(changes[|changes| - 1])
  }

  /** One action per added, changed or deleted file, two per moved file. */
  lemma {:induction false} ExpansionLength(changes: seq<FileChange>)
    ensures |Expansion(changes)| ==
      Count(changes, ADDED) + Count(changes, CHANGED) + Count(changes, DELETED) + 2 * Count(changes, MOVED)
  {
    if changes != [] {
      ExpansionLength(changes[..|changes| - 1]);
    }
  }

  /** Expanding a list is expanding its parts: the actions keep the order of the changes. */
  lemma {:induction false} ExpansionAppend(a: seq<FileChange>, b: seq<FileChange>)
    ensures Expansion(a + b) == Expansion(a) + Expansion(b)
  {
    if b == [] {
      assert a + b == a;
    } else {
      assert (a + b)[..|a + b| - 1] == a + b[..|b| - 1];
      ExpansionAppend(a, b[..|b| - 1]);
    }
  }

  /** Whether the change `c` calls for the action `a`. */
  predicate Produces(c: FileChange, a: Action) {
    match a
    case AddOrUpdate(p) => (c.kind == ADDED || c.kind == CHANGED || c.kind == MOVED) && p == c.dstPath
    case Delete(p) => (c.kind == DELETED && p == c.dstPath) || (c.kind == MOVED && p == c.srcPath)
  }

  /**
   * Every action is called for by one of the changes: a delete by a deleted
   * file or the source of a move, an add-or-update by the destination of an
   * added, changed or moved file.
   */
  lemma {:induction false} ExpansionSources(changes: seq<FileChange>)
    ensures forall i :: 0 <= i < |Expansion(changes)| ==>
      exists j :: 0 <= j < |changes| && Produces(changes[j], Expansion(changes)[i])
  {
    if changes != [] {
      var n := |changes| - 1;
      var prefix := changes[..n];
      ExpansionSources(prefix);
      var e, ep, tail := Expansion(changes), Expansion(prefix), ExpandChange(changes[n]);
      assert e == ep + tail;
      forall i | 0 <= i < |e|
        ensures exists j :: 0 <= j < |changes| && Produces(changes[j], e[i])
      {
        if i < |ep| {
          var j :| 0 <= j < |prefix| && Produces(prefix[j], ep[i]);
          assert changes[j] == prefix[j] && e[i] == ep[i];
          assert 0 <= j < |changes| && Produces(changes[j], e[i]);
        } else {
          assert e[i] == tail[i - |ep|];
          assert 0 <= n < |changes| && Produces(changes[n], e[i]);
        }
      }
    } else {
      assert Expansion(changes) == [];
    }
  }

  /**
   * The change `c` is carried out at position `i` of the actions `e`: the
   * action there is called for by `c`, and for a move it is the delete of the
   * source, immediately followed by the add of the destination.
   */
  predicate CarriedAt(e: seq<Action>, c: FileChange, i: int) {
    && 0 <= i < |e|
    && Produces(c, e[i])
    && (c.kind == MOVED ==> i + 1 < |e| && e[i] == Delete(c.srcPath) && e[i + 1] == AddOrUpdate(c.dstPath))
  }

  /** The change `c` is carried out somewhere in the actions `e`. */
  predicate Covered(e: seq<Action>, c: FileChange) {
    exists i :: 0 <= i < |e| && CarriedAt(e, c, i)
  }

  /** Every change of a recognised type is carried out somewhere in the expansion. */
  lemma {:induction false} ExpansionCovers(changes: seq<FileChange>)
    ensures forall j :: 0 <= j < |changes| && IsRecognised(changes[j].kind) ==> Covered(Expansion(changes), changes[j])
  {
    if changes != [] {
      var n := |changes| - 1;
      var prefix := changes[..n];
      ExpansionCovers(prefix);
      var e, ep, tail := Expansion(changes), Expansion(prefix), ExpandChange(changes[n]);
      assert e == ep + tail;
      forall j | 0 <= j < |changes| && IsRecognised(changes[j].kind)
        ensures Covered(e, changes[j])
      {
        if j < n {
          assert changes[j] == prefix[j];
          assert Covered(ep, prefix[j]);
          var i :| 0 <= i < |ep| && CarriedAt(ep, prefix[j], i);
          assert e[i] == ep[i];
          if prefix[j].kind == MOVED {
            assert e[i + 1] == ep[i + 1];
          }
          assert CarriedAt(e, changes[j], i);
        } else {
          assert j == n && |tail| >= 1 && |e| == |ep| + |tail|;
          var i := |ep|;
          assert e[i] == tail[0];
          if changes[j].kind == MOVED {
            assert e[i + 1] == tail[1];
          }
          assert CarriedAt(e, changes[j], i);
        }
      }
    }
  }

  // ----- The working tree -----

  /** A file of the working tree, keyed by `path.lstrip('/')`. */
  type Tree = map<Path, string>

  function LocalPath(p: Path): Path {
    LStripChar(p, '/')
  }

  /**
   * `cm cat "path" --rev="cs:N"`: the command's standard output, or None when
   * it exits with a non-zero code.
   */
  type Fetch = (Path, int) -> Option<string>

  /**
   * The working tree, the paths reported with "Could not extract", and the
   * paths passed to `git rm`.
   */
  datatype Applied = Applied(tree: Tree, warnings: seq<Path>, removed: seq<Path>)

  /**
   * One action. A fetched file is written with the captured output stripped
   * of surrounding whitespace (`run_command` returns `stdout.strip()`); a
   * failed fetch only adds a warning; a delete of a file that is not there
   * does nothing.
   */
  function ApplyAction(st: Applied, a: Action, csId: int, fetch: Fetch): Applied {
    match a
    case AddOrUpdate(p) =>
      (match fetch(p, csId)
       case Some(out) => st.(tree := st.tree[LocalPath(p) := Strip(out)])
       case None => st.(warnings := st.warnings + [p]))
    case Delete(p) =>
      if LocalPath(p) in st.tree then st.(tree := st.tree - {LocalPath(p)}, removed := st.removed + [p])
      else st
  }

  /** The state after the second loop has applied every action of `actions`. */
  function ApplyAll(st: Applied, actions: seq<Action>, csId: int, fetch: Fetch): Applied
    decreases |actions|
  {
    if actions == [] then st
    else ApplyAction(ApplyAll(st, actions[..|actions| - 1], csId, fetch), actions[|actions| - 1], csId, fetch)
  }

  /** `apply_changeset_files(cs, changeset_id)` on the working tree `tree`. */
  method ApplyChangesetFiles(tree: Tree, changes: seq<FileChange>, csId: int, fetch: Fetch)
    returns (r: Applied)
    ensures r == ApplyAll(Applied(tree, [], []), Expansion(changes), csId, fetch)
  {
    var filesToProcess := CollectActions(changes);
    r := ApplyActions(tree, filesToProcess, csId, fetch);
  }

  /** The first loop of `apply_changeset_files`, which fills `files_to_process`. */
  method CollectActions(changes: seq<FileChange>) returns (filesToProcess: seq<Action>)
    ensures filesToProcess == Expansion(changes)
  {
    filesToProcess := [];
    for i := 0 to |changes|
      invariant filesToProcess == Expansion(changes[..i])
    {
      var change := changes[i];
      if change.kind == ADDED || change.kind == CHANGED {
        filesToProcess := filesToProcess + [AddOrUpdate(change.dstPath)];
      } else if change.kind == DELETED {
        filesToProcess := filesToProcess + [Delete(change.dstPath)];
      } else if change.kind == MOVED {
        // a move deletes the old path, then adds the new one
        filesToProcess := filesToProcess + [Delete(change.srcPath)];
        filesToProcess := filesToProcess + [AddOrUpdate(change.dstPath)];
      }
      assert changes[..i + 1][..i] == changes[..i];
      assert filesToProcess == Expansion(changes[..i]) + ExpandChange(change);
    }
    assert changes[..|changes|] == changes;
  }

  /** The second loop of `apply_changeset_files`, over `files_to_process`. */
  method ApplyActions(tree: Tree, actions: seq<Action>, csId: int, fetch: Fetch) returns (r: Applied)
    ensures r == ApplyAll(Applied(tree, [], []), actions, csId, fetch)
  {
    r := Applied(tree, [], []);
    for j := 0 to |actions|
      invariant r == ApplyAll(Applied(tree, [], []), actions[..j], csId, fetch)
    {
      assert actions[..j + 1][..j] == actions[..j];
      match actions[j] {
        case AddOrUpdate(p) =>
          var content := fetch(p, csId);
          if content.Some? {
            r := r.(tree := r.tree[LocalPath(p) := Strip(content.value)]);
          } else {
            // "Warning: Could not extract"
            r := r.(warnings := r.warnings + [p]);
          }
        case Delete(p) =>
          var full := LocalPath(p);
          if full in r.tree {
            // os.remove, then `git rm`
            r := r.(tree := r.tree - {full}, removed := r.removed + [p]);
          }
      }
    }
    assert actions[..|actions|] == actions;
  }

  // ----- What applying the actions does, file by file -----

  function Lookup(tree: Tree, k: Path): Option<string> {
    if k in tree then Some(tree[k]) else None
  }

  /**
   * The content of the single file `k` after `actions`, followed on its own:
   * the last action on `k` decides, a failed fetch and an action on another
   * file leave it as it was.
   */
  function FileAfter(v: Option<string>, actions: seq<Action>, k: Path, csId: int, fetch: Fetch): Option<string>
    decreases |actions|
  {
    if actions == [] then v
    else FileStep(FileAfter(v, actions[..|actions| - 1], k, csId, fetch), actions[|actions| - 1], k, csId, fetch)
  }

  function FileStep(v: Option<string>, a: Action, k: Path, csId: int, fetch: Fetch): Option<string> {
    if LocalPath(a.path) != k then v
    else if a.Delete? then None
    else if fetch(a.path, csId).Some? then Some(Strip(fetch(a.path, csId).value))
    else v
  }

  lemma ApplyActionPointwise(st: Applied, a: Action, csId: int, fetch: Fetch, k: Path)
    ensures Lookup(ApplyAction(st, a, csId, fetch).tree, k) == FileStep(Lookup(st.tree, k), a, k, csId, fetch)
  {
    if a.AddOrUpdate? {
      AddPointwise(st, a.path, csId, fetch, k);
    } else {
      DeletePointwise(st, a.path, csId, fetch, k);
    }
  }

  lemma AddPointwise(st: Applied, p: Path, csId: int, fetch: Fetch, k: Path)
    ensures Lookup(ApplyAction(st, AddOrUpdate(p), csId, fetch).tree, k) ==
      if LocalPath(p) == k && fetch(p, csId).Some? then Some(Strip(fetch(p, csId).value)) else Lookup(st.tree, k)
  {
  }

  lemma DeletePointwise(st: Applied, p: Path, csId: int, fetch: Fetch, k: Path)
    ensures Lookup(ApplyAction(st, Delete(p), csId, fetch).tree, k) ==
      if LocalPath(p) == k then None else Lookup(st.tree, k)
  {
  }

  /** Applying the actions to the whole tree is applying them to each file separately. */
  lemma {:induction false} ApplyAllPointwise(st: Applied, actions: seq<Action>, csId: int, fetch: Fetch, k: Path)
    ensures Lookup(ApplyAll(st, actions, csId, fetch).tree, k) == FileAfter(Lookup(st.tree, k), actions, k, csId, fetch)
  {
    if actions != [] {
      ApplyAllPointwise(st, actions[..|actions| - 1], csId, fetch, k);
      ApplyActionPointwise(ApplyAll(st, actions[..|actions| - 1], csId, fetch), actions[|actions| - 1], csId, fetch, k);
    }
  }

  /** A file no action names keeps its content: nothing outside the changeset is touched. */
  lemma {:induction false} FileAfterUntouched(v: Option<string>, actions: seq<Action>, k: Path, csId: int, fetch: Fetch)
    requires forall i :: 0 <= i < |actions| ==> LocalPath(actions[i].path) != k
    ensures FileAfter(v, actions, k, csId, fetch) == v
  {
    if actions != [] {
      FileAfterUntouched(v, actions[..|actions| - 1], k, csId, fetch);
    }
  }

  /** Text with no white space at either end. */
  predicate Trimmed(w: string) {
    w == [] || (!IsSpace(w[0]) && !IsSpace(w[|w| - 1]))
  }

  lemma StripTrimmed(s: string)
    ensures Trimmed(Strip(s))
  {
    StripFacts(s);
  }

  /** Every file the changeset writes holds text without surrounding whitespace. */
  lemma {:induction false} FileAfterWritten(v: Option<string>, actions: seq<Action>, k: Path, csId: int, fetch: Fetch)
    requires FileAfter(v, actions, k, csId, fetch) != v
    requires FileAfter(v, actions, k, csId, fetch).Some?
    ensures Trimmed(FileAfter(v, actions, k, csId, fetch).value)
  {
    var before := FileAfter(v, actions[..|actions| - 1], k, csId, fetch);
    var a := actions[|actions| - 1];
    if FileStep(before, a, k, csId, fetch) == before {
      FileAfterWritten(v, actions[..|actions| - 1], k, csId, fetch);
    } else {
      assert FileStep(before, a, k, csId, fetch) == Some(Strip(fetch(a.path, csId).value));
      StripTrimmed(fetch(a.path, csId).value);
    }
  }

  /**
   * A move of `src` to `dst` (two different files) removes `src` from the
   * tree and leaves `dst` with the fetched revision, or as it was when the
   * fetch fails.
   */
  lemma MoveRenames(tree: Tree, c: FileChange, csId: int, fetch: Fetch)
    requires c.kind == MOVED && LocalPath(c.srcPath) != LocalPath(c.dstPath)
    ensures var after := ApplyAll(Applied(tree, [], []), Expansion([c]), csId, fetch);
      && LocalPath(c.srcPath) !in after.tree
      && Lookup(after.tree, LocalPath(c.dstPath)) ==
         (match fetch(c.dstPath, csId) case Some(out) => Some(Strip(out)) case None => Lookup(tree, LocalPath(c.dstPath)))
      && after.removed == (if LocalPath(c.srcPath) in tree then [c.srcPath] else [])
      && after.warnings == (if fetch(c.dstPath, csId).None? then [c.dstPath] else [])
  {
    var init := Applied(tree, [], []);
    var actions := Expansion([c]);
    assert [c][..0] == [] && [c][0] == c;
    assert actions == Expansion([]) + ExpandChange(c);
    assert actions == [Delete(c.srcPath), AddOrUpdate(c.dstPath)];
    assert actions[..1][..0] == [];
    var s1 := ApplyAction(init, Delete(c.srcPath), csId, fetch);
    assert ApplyAll(init, actions[..1], csId, fetch) == s1;
    var after := ApplyAction(s1, AddOrUpdate(c.dstPath), csId, fetch);
    assert ApplyAll(init, actions, csId, fetch) == after;
    var src, dst := LocalPath(c.srcPath), LocalPath(c.dstPath);
    DeletePointwise(init, c.srcPath, csId, fetch, src);
    DeletePointwise(init, c.srcPath, csId, fetch, dst);
    AddPointwise(s1, c.dstPath, csId, fetch, src);
    AddPointwise(s1, c.dstPath, csId, fetch, dst);
    assert Lookup(after.tree, src) == None;
  }

  /** The paths of the add-or-update actions whose fetch fails, in order. */
  function FailedFetches(actions: seq<Action>, csId: int, fetch: Fetch): seq<Path>
    decreases |actions|
  {
    if actions == [] then []
    else
      var a := actions[|actions| - 1];
      FailedFetches(actions[..|actions| - 1], csId, fetch) + (if a.AddOrUpdate? && fetch(a.path, csId).None? then [a.path] else [])
  }

  /**
   * A warning is printed for exactly the files whose revision could not be
   * extracted; `git rm` is run at most once per delete action.
   */
  lemma {:induction false} ApplyAllReports(st: Applied, actions: seq<Action>, csId: int, fetch: Fetch)
    ensures var r := ApplyAll(st, actions, csId, fetch);
      && r.warnings == st.warnings + FailedFetches(actions, csId, fetch)
      && |st.removed| <= |r.removed| <= |st.removed| + DeleteCount(actions)
      && r.removed[..|st.removed|] == st.removed
  {
    if actions != [] {
      ApplyAllReports(st, actions[..|actions| - 1], csId, fetch);
    }
  }

  function DeleteCount(actions: seq<Action>): nat
    decreases |actions|
  {
    if actions == [] then 0
    else DeleteCount(actions[..|actions| - 1]) + (if actions[|actions| - 1].Delete? then 1 else 0)
  }

  /** Applying two lists of actions in turn is applying their concatenation. */
  lemma {:induction false} ApplyAllAppend(st: Applied, a: seq<Action>, b: seq<Action>, csId: int, fetch: Fetch)
    ensures ApplyAll(st, a + b, csId, fetch) == ApplyAll(ApplyAll(st, a, csId, fetch), b, csId, fetch)
  {
    if b == [] {
      assert a + b == a;
    } else {
      assert (a + b)[..|a + b| - 1] == a + b[..|b| - 1];
      ApplyAllAppend(st, a, b[..|b| - 1], csId, fetch);
    }
  }

  /** Deletes only remove: a changeset made only of deletions never creates a file. */
  lemma {:induction false} DeletesOnlyShrink(st: Applied, actions: seq<Action>, csId: int, fetch: Fetch)
    requires forall i :: 0 <= i < |actions| ==> actions[i].Delete?
    ensures ApplyAll(st, actions, csId, fetch).tree.Keys <= st.tree.Keys
    ensures forall k :: k in ApplyAll(st, actions, csId, fetch).tree ==> ApplyAll(st, actions, csId, fetch).tree[k] == st.tree[k]
  {
    if actions != [] {
      DeletesOnlyShrink(st, actions[..|actions| - 1], csId, fetch);
    }
  }
}
