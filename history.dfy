/**
 * The changeset records both migration scripts read from the exported Plastic
 * SCM history, and the per-type tally of a change list.
 */
module History {
  import opened Wrappers

  /** A repository path as Plastic SCM writes it (`SrcCmPath`, `DstCmPath`). */
  type Path = string

  /** The change types the scripts recognise; any other `Type` text is kept as it is and ignored. */
  const ADDED: string := "Added"
  const CHANGED: string := "Changed"
  const DELETED: string := "Deleted"
  const MOVED: string := "Moved"

  predicate IsRecognised(kind: string) {
    kind == ADDED || kind == CHANGED || kind == DELETED || kind == MOVED
  }

  /** One `<Item>` of a changeset's `<Changes>`. */
  datatype FileChange = FileChange(kind: string, srcPath: Path, dstPath: Path)

  /**
   * One `<Changeset>` element with the texts of its children already read.
   * `comment` is None when the `<Comment>` element has no text; `changes` is
   * None when the changeset has no `<Changes>` element.
   */
  datatype ChangesetElement = ChangesetElement(
    id: int, branch: string, comment: Option<string>, owner: string, date: string,
    changes: Option<seq<FileChange>>)

  /** A changeset record of the full variant (the dictionary built by `parse_xml_history`). */
  datatype Changeset = Changeset(
    id: int, branch: string, comment: string, owner: string, date: string, changes: seq<FileChange>)

  function IdOf(cs: Changeset): int {
    cs.id
  }

  datatype MigrationError =
    | MalformedHistory  // a `<Changeset>` without `<Changes>`: `None.findall` raises
    | EmptyHistory      // no changeset at all: `changesets[0]` raises IndexError

  /** Number of changes of type `kind`: the value `defaultdict(int)` holds for that key after the tally loop. */
  function Count(changes: seq<FileChange>, kind: string): (n: nat)
    ensures n <= |changes|
  {
    if changes == [] then 0
    else Count(changes[..|changes| - 1], kind) + (if changes[|changes| - 1].kind == kind then 1 else 0)
  }

  lemma {:induction false} CountAppend(a: seq<FileChange>, b: seq<FileChange>, kind: string)
    ensures Count(a + b, kind) == Count(a, kind) + Count(b, kind)
  {
    if b != [] {
      assert (a + b)[..|a + b| - 1] == a + b[..|b| - 1];
      CountAppend(a, b[..|b| - 1], kind);
    } else {
      assert a + b == a;
    }
  }

  /** A change list none of whose types is recognised has a zero count for every recognised type. */
  lemma {:induction false} CountUnrecognised(changes: seq<FileChange>, kind: string)
    requires IsRecognised(kind)
    requires forall i :: 0 <= i < |changes| ==> !IsRecognised(changes[i].kind)
    ensures Count(changes, kind) == 0
  {
    if changes != [] {
      CountUnrecognised(changes[..|changes| - 1], kind);
    }
  }

  /** The `user.email` and `user.name` every commit is made with. */
  datatype Identity = Identity(email: string, name: string)

  /** The counts of the four recognised types. */
  datatype Tally = Tally(added: nat, changed: nat, deleted: nat, moved: nat)

  function TallyOf(changes: seq<FileChange>): Tally {
    Tally(Count(changes, ADDED), Count(changes, CHANGED), Count(changes, DELETED), Count(changes, MOVED))
  }

  /** Each change is counted under at most one recognised type. */
  lemma {:induction false} TallyBound(changes: seq<FileChange>)
    ensures var t := TallyOf(changes); t.added + t.changed + t.deleted + t.moved <= |changes|
  {
    if changes != [] {
      TallyBound(changes[..|changes| - 1]);
    }
  }
}
