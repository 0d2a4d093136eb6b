/**
 * Commit-message synthesis. A changeset whose comment is blank gets a message
 * built from the tally of its change types, in the fixed order Add, Update
 * (for Changed), Delete, Move, e.g. "Add 3 file(s), Delete 1 file(s)", or the
 * fallback "Update (changeset <id>)". The two scripts differ at the edges: the
 * full variant keeps the comment unstripped and returns "" when only
 * unrecognised types are present; the simple variant strips the comment and
 * falls back whenever no part is produced.
 */
module Messages {
  import opened Wrappers
  import opened Text
  import opened History

  /** The verbs of the message parts, in their fixed order. */
  const VERBS: seq<string> := ["Add", "Update", "Delete", "Move"]

  const FILES_SUFFIX: string := " file(s)"

  const FALLBACK_PREFIX: string := "Update (changeset "

  /** The count the part at position `v` of VERBS reports. */
  function CountAt(t: Tally, v: nat): nat
    requires v < 4
  {
    match v
    case 0 => t.added
    case 1 => t.changed
    case 2 => t.deleted
    case 3 => t.moved
  }

  /** `t` with the count at position `v` set to `n`. */
  function SetAt(t: Tally, v: nat, n: nat): Tally
    requires v < 4
  {
    match v
    case 0 => t.(added := n)
    case 1 => t.(changed := n)
    case 2 => t.(deleted := n)
    case 3 => t.(moved := n)
  }

  /** `f"{verb} {n} file(s)"` */
  function Part(verb: string, n: nat): string {
    verb + " " + NatToString(n) + FILES_SUFFIX
  }

  /** The parts for the verbs from position `v` on, one per nonzero count. */
  function PartsFrom(t: Tally, v: nat): seq<string>
    requires v <= 4
    decreases 4 - v
  {
    if v == 4 then []
    else (if CountAt(t, v) > 0 then [Part(VERBS[v], CountAt(t, v))] else []) + PartsFrom(t, v + 1)
  }

  /** `", ".join(parts)` for the parts of a tally. */
  function Summary(t: Tally): string {
    Join(", ", PartsFrom(t, 0))
  }

  /** `f"Update (changeset {id})"` */
  function Fallback(id: int): string {
    FALLBACK_PREFIX + IntToString(id) + ")"
  }

  /** `generate_commit_message` of the full variant. */
  function CommitMessage(cs: Changeset): string {
    if Strip(cs.comment) != "" then cs.comment
    else if cs.changes == [] then Fallback(cs.id)
    else Summary(TallyOf(cs.changes))
  }

  /**
   * The message the simple variant stores in a record's `comment`: the
   * stripped comment, or the tally message, or the fallback when the tally
   * yields no part.
   */
  function SimpleMessage(comment: string, changes: seq<FileChange>, id: int): string {
    var stripped := Strip(comment);
    if stripped != "" then stripped
    else if PartsFrom(TallyOf(changes), 0) == [] then Fallback(id)
    else Summary(TallyOf(changes))
  }

  /** Value of the `defaultdict(int)` tally at `kind`. */
  function CountIn(tally: map<string, nat>, kind: string): nat {
    if kind in tally then tally[kind] else 0
  }

  /**
   * The tally loop both scripts run: `change_types[type] += 1` over a
   * `defaultdict(int)` for each change in turn.
   */
  method TallyChanges(changes: seq<FileChange>) returns (tally: map<string, nat>)
    ensures forall kind :: CountIn(tally, kind) == Count(changes, kind)
    ensures tally == map[] <==> changes == []
  {
    tally := map[];
    var i := 0;
    while i < |changes|
      invariant 0 <= i <= |changes|
      invariant forall kind :: CountIn(tally, kind) == Count(changes[..i], kind)
      invariant tally == map[] <==> i == 0
    {
      var kind := changes[i].kind;
      var prefix := changes[..i + 1];
      assert prefix[..i] == changes[..i] && prefix[i] == changes[i];
      var next := tally[kind := CountIn(tally, kind) + 1];
      forall k ensures CountIn(next, k) == Count(prefix, k) {
        assert Count(prefix, k) == Count(changes[..i], k) + (if kind == k then 1 else 0);
      }
      tally := next;
      i := i + 1;
    }
    assert changes[..i] == changes;
  }

  /**
   * `generate_commit_message`: returns the comment when it is not blank,
   * otherwise tallies the change types into a dictionary and builds the
   * parts from it.
   */
  method GenerateCommitMessage(cs: Changeset) returns (msg: string)
    ensures msg == CommitMessage(cs)
  {
    if Strip(cs.comment) != "" {
      return cs.comment;
    }
    var tally := TallyChanges(cs.changes);
    if tally == map[] {
      return Fallback(cs.id);
    }
    var counts := Tally(CountIn(tally, ADDED), CountIn(tally, CHANGED), CountIn(tally, DELETED), CountIn(tally, MOVED));
    assert counts == TallyOf(cs.changes);
    var parts := BuildParts(counts);
    msg := Join(", ", parts);
  }

  /** The four `if change_types[...]: parts.append(...)` steps of the tally message. */
  method BuildParts(t: Tally) returns (parts: seq<string>)
    ensures parts == PartsFrom(t, 0)
  {
    ghost var A: seq<string> := if t.added > 0 then [Part("Add", t.added)] else [];
    ghost var C: seq<string> := if t.changed > 0 then [Part("Update", t.changed)] else [];
    ghost var D: seq<string> := if t.deleted > 0 then [Part("Delete", t.deleted)] else [];
    ghost var M: seq<string> := if t.moved > 0 then [Part("Move", t.moved)] else [];
    parts := [];
    if t.added > 0 {
      parts := parts + [Part("Add", t.added)];
    }
    assert parts == A;
    if t.changed > 0 {
      parts := parts + [Part("Update", t.changed)];
    }
    assert parts == A + C;
    if t.deleted > 0 {
      parts := parts + [Part("Delete", t.deleted)];
    }
    assert parts == A + C + D;
    if t.moved > 0 {
      parts := parts + [Part("Move", t.moved)];
    }
    assert parts == A + C + D + M;
    PartsFromUnfolded(t);
  }

  /** The four steps of PartsFrom written out. */
  lemma PartsFromUnfolded(t: Tally)
    ensures PartsFrom(t, 0)
      == (if t.added > 0 then [Part("Add", t.added)] else [])
       + (if t.changed > 0 then [Part("Update", t.changed)] else [])
       + (if t.deleted > 0 then [Part("Delete", t.deleted)] else [])
       + (if t.moved > 0 then [Part("Move", t.moved)] else [])
  {
    assert PartsFrom(t, 4) == [];
  }

  // ----- Reading a summary back -----

  /** The tally `t` with the counts of the verbs before position `v` set to zero. */
  function From(t: Tally, v: nat): Tally {
    Tally(if v <= 0 then t.added else 0, if v <= 1 then t.changed else 0,
          if v <= 2 then t.deleted else 0, if v <= 3 then t.moved else 0)
  }

  /**
   * Reads a message built by Summary back into the counts it reports. The
   * verbs must appear in their fixed order, each at most once.
   */
  function DecodeSummary(s: string): Option<Tally> {
    DecodeFrom(s, 0)
  }

  function DecodeFrom(s: string, v: nat): Option<Tally>
    requires v <= 4
    decreases 4 - v
  {
    if s == [] then Some(Tally(0, 0, 0, 0))
    else if v == 4 then None
    else
      var head := VERBS[v] + " ";
      if |s| < |head| || s[..|head|] != head then DecodeFrom(s, v + 1)
      else
        var rest := s[|head|..];
        var n := DigitPrefix(rest);
        var after := rest[n..];
        if n == 0 || |after| < |FILES_SUFFIX| || after[..|FILES_SUFFIX|] != FILES_SUFFIX then None
        else
          var count := DigitsValue(rest[..n]);
          var tail := after[|FILES_SUFFIX|..];
          if tail == [] then Some(SetAt(Tally(0, 0, 0, 0), v, count))
          else if |tail| < 2 || tail[..2] != ", " then None
          else
            match DecodeFrom(tail[2..], v + 1)
            case Some(t) => Some(SetAt(t, v, count))
            case None => None
  }

  lemma {:induction false} PartsFromEmpty(t: Tally, v: nat)
    requires v <= 4
    decreases 4 - v
    ensures PartsFrom(t, v) == [] <==> From(t, v) == Tally(0, 0, 0, 0)
    ensures forall k :: 0 <= k < |PartsFrom(t, v)| ==> PartsFrom(t, v)[k] != []
  {
    if v < 4 {
      PartsFromEmpty(t, v + 1);
    }
  }

  /** A nonempty list of parts from position `v` starts with the initial of a verb at `v` or later. */
  lemma {:induction false} PartsFromHead(t: Tally, v: nat) returns (w: nat)
    requires v <= 4 && PartsFrom(t, v) != []
    decreases 4 - v
    ensures v <= w < 4 && PartsFrom(t, v)[0] == Part(VERBS[w], CountAt(t, w))
  {
    if CountAt(t, v) > 0 {
      w := v;
    } else {
      w := PartsFromHead(t, v + 1);
    }
  }

  /** A string that does not start with the verb at `v` is read from the next verb on. */
  lemma DecodeFromSkip(s: string, v: nat)
    requires v < 4 && s != [] && s[0] != VERBS[v][0]
    ensures DecodeFrom(s, v) == DecodeFrom(s, v + 1)
  {
    var head := VERBS[v] + " ";
    if |s| >= |head| {
      assert s[..|head|][0] != head[0];
    }
  }

  /** A part for the verb at `v` followed by `tail` is read as its count, then `tail` is read on. */
  lemma DecodeFromPart(v: nat, n: nat, tail: string)
    requires v < 4 && n > 0
    requires tail == [] || (|tail| >= 2 && tail[..2] == ", ")
    ensures DecodeFrom(Part(VERBS[v], n) + tail, v)
      == if tail == [] then Some(SetAt(Tally(0, 0, 0, 0), v, n))
         else match DecodeFrom(tail[2..], v + 1)
              case Some(t) => Some(SetAt(t, v, n))
              case None => None
  {
    var head := VERBS[v] + " ";
    var digits := NatToString(n);
    PartLayout(v, n, tail);
    DigitsLayout(n, FILES_SUFFIX + tail);
    SuffixLayout(tail);
    var s := Part(VERBS[v], n) + tail;
    var rest := s[|head|..];
    assert rest == digits + (FILES_SUFFIX + tail);
    assert DigitPrefix(rest) == |digits|;
  }

  lemma PartLayout(v: nat, n: nat, tail: string)
    requires v < 4
    ensures var head := VERBS[v] + " "; var s := Part(VERBS[v], n) + tail;
      |s| >= |head| && s[..|head|] == head && s[|head|..] == NatToString(n) + (FILES_SUFFIX + tail)
  {
    var head := VERBS[v] + " ";
    var s := Part(VERBS[v], n) + tail;
    assert s == head + (NatToString(n) + (FILES_SUFFIX + tail));
  }

  lemma DigitsLayout(n: nat, x: string)
    requires x != [] ==> !IsDigit(x[0])
    ensures var d := NatToString(n); var rest := d + x;
      DigitPrefix(rest) == |d| > 0 && rest[..|d|] == d && DigitsValue(d) == n && rest[|d|..] == x
  {
    var d := NatToString(n);
    DigitPrefixOfDigits(d, x);
    NatToStringRoundTrip(n);
    assert (d + x)[..|d|] == d && (d + x)[|d|..] == x;
  }

  lemma SuffixLayout(tail: string)
    ensures var a := FILES_SUFFIX + tail;
      |a| >= |FILES_SUFFIX| && a[..|FILES_SUFFIX|] == FILES_SUFFIX && a[|FILES_SUFFIX|..] == tail
  {
    var a := FILES_SUFFIX + tail;
    assert a[..|FILES_SUFFIX|] == FILES_SUFFIX && a[|FILES_SUFFIX|..] == tail;
  }

  lemma DecodeRoundTripAbsent(t: Tally, v: nat)
    requires v < 4 && CountAt(t, v) == 0
    requires DecodeFrom(Join(", ", PartsFrom(t, v + 1)), v + 1) == Some(From(t, v + 1))
    ensures DecodeFrom(Join(", ", PartsFrom(t, v)), v) == Some(From(t, v))
  {
    var rest := PartsFrom(t, v + 1);
    assert PartsFrom(t, v) == rest;
    var s := Join(", ", rest);
    PartsFromEmpty(t, v + 1);
    JoinEmpty(", ", rest);
    if s != [] {
      var w := PartsFromHead(t, v + 1);
      assert s[0] == rest[0][0] == VERBS[w][0];
      DecodeFromSkip(s, v);
    }
  }

  lemma JoinCons(sep: string, p: string, rest: seq<string>)
    ensures Join(sep, [p] + rest) == p + (if rest == [] then "" else sep + Join(sep, rest))
  {
    assert ([p] + rest)[0] == p && ([p] + rest)[1..] == rest;
  }

  lemma DecodeRoundTripPresent(t: Tally, v: nat)
    requires v < 4 && CountAt(t, v) > 0
    requires DecodeFrom(Join(", ", PartsFrom(t, v + 1)), v + 1) == Some(From(t, v + 1))
    ensures DecodeFrom(Join(", ", PartsFrom(t, v)), v) == Some(From(t, v))
  {
    var rest := PartsFrom(t, v + 1);
    PartsFromEmpty(t, v + 1);
    JoinEmpty(", ", rest);
    var n := CountAt(t, v);
    var tail := if rest == [] then "" else ", " + Join(", ", rest);
    assert PartsFrom(t, v) == [Part(VERBS[v], n)] + rest;
    JoinCons(", ", Part(VERBS[v], n), rest);
    if rest != [] {
      assert tail[2..] == Join(", ", rest);
    }
    DecodeFromPart(v, n, tail);
  }

  lemma {:induction false} DecodeFromRoundTrip(t: Tally, v: nat)
    requires v <= 4
    decreases 4 - v
    ensures DecodeFrom(Join(", ", PartsFrom(t, v)), v) == Some(From(t, v))
  {
    if v < 4 {
      DecodeFromRoundTrip(t, v + 1);
      if CountAt(t, v) == 0 {
        DecodeRoundTripAbsent(t, v);
      } else {
        DecodeRoundTripPresent(t, v);
      }
    }
  }

  /** The counts in a summary message can be read back exactly, so it reports every type's count, in the fixed order. */
  lemma SummaryRoundTrip(t: Tally)
    ensures DecodeSummary(Summary(t)) == Some(t)
  {
    DecodeFromRoundTrip(t, 0);
  }

  /** The fallback message names the changeset: its id can be read back from it. */
  lemma FallbackRoundTrip(id: int)
    ensures var m := Fallback(id);
      && |m| > |FALLBACK_PREFIX| + 1 && m[..|FALLBACK_PREFIX|] == FALLBACK_PREFIX && m[|m| - 1] == ')'
      && ParseInt(m[|FALLBACK_PREFIX|..|m| - 1]) == Some(id)
  {
    var m := Fallback(id);
    assert m[|FALLBACK_PREFIX|..|m| - 1] == IntToString(id);
    IntToStringRoundTrip(id);
  }

  // ----- Properties of the full variant's message -----

  /** A comment that is not blank is the message, verbatim and unstripped. */
  lemma CommitMessageKeepsComment(cs: Changeset)
    requires !IsBlank(cs.comment)
    ensures CommitMessage(cs) == cs.comment
  {
    StripFacts(cs.comment);
  }

  /** A blank comment with no changes gives exactly the fallback naming the changeset. */
  lemma CommitMessageFallback(cs: Changeset)
    requires IsBlank(cs.comment) && cs.changes == []
    ensures CommitMessage(cs) == "Update (changeset " + IntToString(cs.id) + ")"
  {
    StripFacts(cs.comment);
  }

  /** A blank comment with changes gives a message that reads back as the tally of the change types. */
  lemma CommitMessageReportsTally(cs: Changeset)
    requires IsBlank(cs.comment) && cs.changes != []
    ensures DecodeSummary(CommitMessage(cs)) == Some(TallyOf(cs.changes))
  {
    StripFacts(cs.comment);
    SummaryRoundTrip(TallyOf(cs.changes));
  }

  /**
   * A blank comment whose changes are all of unrecognised types gives the
   * empty message: the tally dictionary is not empty, but no part is built.
   */
  lemma CommitMessageUnrecognisedOnly(cs: Changeset)
    requires IsBlank(cs.comment) && cs.changes != []
    requires forall i :: 0 <= i < |cs.changes| ==> !IsRecognised(cs.changes[i].kind)
    ensures CommitMessage(cs) == ""
  {
    StripFacts(cs.comment);
    CountUnrecognised(cs.changes, ADDED);
    CountUnrecognised(cs.changes, CHANGED);
    CountUnrecognised(cs.changes, DELETED);
    CountUnrecognised(cs.changes, MOVED);
    PartsFromUnfolded(TallyOf(cs.changes));
  }

  /** The worked example of a tally message: three additions and one deletion. */
  lemma SummaryExample()
    ensures Summary(Tally(3, 0, 1, 0)) == "Add 3 file(s), Delete 1 file(s)"
  {
    ExampleParts();
    var parts := ["Add 3 file(s)", "Delete 1 file(s)"];
    assert parts[1..] == ["Delete 1 file(s)"];
    assert Join(", ", parts) == parts[0] + ", " + parts[1];
  }

  lemma ExampleParts()
    ensures PartsFrom(Tally(3, 0, 1, 0), 0) == ["Add 3 file(s)", "Delete 1 file(s)"]
  {
    PartsFromUnfolded(Tally(3, 0, 1, 0));
    assert NatToString(3) == "3" && NatToString(1) == "1";
    assert Part("Add", 3) == "Add 3 file(s)";
    assert Part("Delete", 1) == "Delete 1 file(s)";
  }

  // ----- Properties of the simple variant's message -----

  /** A comment that is not blank reaches the commit stripped. */
  lemma SimpleMessageStripsComment(comment: string, changes: seq<FileChange>, id: int)
    requires !IsBlank(comment)
    ensures SimpleMessage(comment, changes, id) == Strip(comment)
    ensures SimpleMessage(comment, changes, id) != [] && !IsSpace(SimpleMessage(comment, changes, id)[0])
  {
    StripFacts(comment);
  }

  /**
   * With a blank comment, the fallback is used exactly when no recognised
   * type is present; otherwise the message reads back as the tally.
   */
  lemma SimpleMessageBlankComment(comment: string, changes: seq<FileChange>, id: int)
    requires IsBlank(comment)
    ensures TallyOf(changes) == Tally(0, 0, 0, 0) ==> SimpleMessage(comment, changes, id) == Fallback(id)
    ensures TallyOf(changes) != Tally(0, 0, 0, 0) ==>
      DecodeSummary(SimpleMessage(comment, changes, id)) == Some(TallyOf(changes))
  {
    StripFacts(comment);
    PartsFromEmpty(TallyOf(changes), 0);
    SummaryRoundTrip(TallyOf(changes));
  }

  /** The simple variant's message is never empty. */
  lemma SimpleMessageNonEmpty(comment: string, changes: seq<FileChange>, id: int)
    ensures SimpleMessage(comment, changes, id) != []
  {
    PartsFromEmpty(TallyOf(changes), 0);
    JoinEmpty(", ", PartsFrom(TallyOf(changes), 0));
  }

  /**
   * The two variants agree on a blank comment as soon as one recognised type
   * is present, and differ when only unrecognised types are.
   */
  lemma VariantsCompared(cs: Changeset)
    requires IsBlank(cs.comment)
    ensures TallyOf(cs.changes) != Tally(0, 0, 0, 0) ==>
      CommitMessage(cs) == SimpleMessage(cs.comment, cs.changes, cs.id)
    ensures cs.changes != [] && TallyOf(cs.changes) == Tally(0, 0, 0, 0) ==>
      CommitMessage(cs) == "" && SimpleMessage(cs.comment, cs.changes, cs.id) == Fallback(cs.id)
  {
    StripFacts(cs.comment);
    PartsFromEmpty(TallyOf(cs.changes), 0);
    PartsFromUnfolded(TallyOf(cs.changes));
    if cs.changes == [] {
      assert TallyOf(cs.changes) == Tally(0, 0, 0, 0);
    }
  }
}
