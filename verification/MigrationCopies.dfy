/** What a pass over the old copies (item 5) makes of the legacy directory, and
    what its report says. */
module MigrationCopies {
  import opened Common
  import opened MigrationDisk

  /** A pass's report. */
  datatype Copies = Copies(restricted: seq<Name>, removed: seq<Name>, notReached: seq<Entry>, directoryRemoved: bool)

  /** How the pass left a copy: out of reach, restricted, or deleted. */
  datatype Reached = NotReached(restricted: bool) | KeptRestricted | Deleted | CutShort

  /** A copy's security after item 5. */
  predicate IsRestrictedCopy(files: map<Name, File>, n: Name) {
    n in files && files[n].security == CopySecurity(n)
  }

  /** What a report says of the copy `n` that was there is what became of it. */
  predicate Tells(report: Copies, choice: Choice, was: map<Name, File>, files: map<Name, File>, n: Name) {
    && (n in report.removed <==> n in was && n !in files)
    && (n in report.removed ==> choice.Remove?) && (n in files ==> n in was)
    && (n in files && Entry.Copy(n) !in report.notReached ==> choice.Keep? && IsRestrictedCopy(files, n))
    && (Entry.Copy(n) in report.notReached ==> n in files)
  }

  /** The pass has not come to `n`. */
  predicate Untouched(report: Copies, was: map<Name, File>, files: map<Name, File>, n: Name) {
    && (n in files <==> n in was)
    && n !in report.removed && Entry.Copy(n) !in report.notReached
  }

  /** The pass told of every copy and missed none. */
  lemma FullPass(report: Copies, choice: Choice, was: map<Name, File>, files: map<Name, File>)
    requires forall n :: Tells(report, choice, was, files, n)
    requires report.notReached == []
    ensures choice.Remove? ==> files == map[]
    ensures choice.Keep? ==> files.Keys == was.Keys && forall n | n in files :: IsRestrictedCopy(files, n)
  {
    assert forall n | n in files :: Tells(report, choice, was, files, n);
    assert forall n | n in was :: Tells(report, choice, was, files, n);
  }

  /** The state once the pass has come to the copy `n`. */
  function AfterCopy(s: State, n: Name, reached: Reached): State
    requires s.legacy.Some? && n in s.legacy.value.files
  {
    var d := s.legacy.value;
    match reached
    case Deleted => s.(legacy := Some(d.(files := d.files - {n})))
    case KeptRestricted => s.(legacy := Some(d.(files := Restricted(d.files, n, CopySecurity(n)))))
    case NotReached(true) => s.(legacy := Some(d.(files := Restricted(d.files, n, CopySecurity(n)))))
    case _ => s
  }

  /** The states differ in the copies alone. */
  predicate OnlyCopiesDiffer(s: State, t: State) {
    && s.legacy.Some? && t.legacy.Some?
    && t == s.(legacy := Some(s.legacy.value.(files := t.legacy.value.files)))
  }

  lemma AfterCopyFacts(s: State, n: Name, reached: Reached)
    requires s.legacy.Some? && n in s.legacy.value.files
    ensures var t := AfterCopy(s, n, reached);
            && OnlyCopiesDiffer(s, t)
            && SameExcept(t.legacy.value.files, s.legacy.value.files, n)
            && (n !in t.legacy.value.files <==> reached.Deleted?)
            && (reached.KeptRestricted? ==> IsRestrictedCopy(t.legacy.value.files, n))
  {
  }

  lemma RestrictThenRemove(s: State, n: Name)
    requires s.legacy.Some? && n in s.legacy.value.files
    ensures var t := AfterCopy(s, n, KeptRestricted);
            && OnlyCopiesDiffer(s, t) && IsRestrictedCopy(t.legacy.value.files, n)
            && AfterCopy(t, n, Deleted) == AfterCopy(s, n, Deleted)
  {
    var t := AfterCopy(s, n, KeptRestricted);
    assert t.legacy.value.files - {n} == s.legacy.value.files - {n};
  }

  predicate SameExcept(files: map<Name, File>, was: map<Name, File>, n: Name) {
    forall m | m != n :: (m in files <==> m in was) && (m in files ==> files[m] == was[m])
  }

  /** The report with one more copy in it. */
  function Noted(report: Copies, n: Name, reached: Reached): Copies {
    report.(
      restricted := if reached.KeptRestricted? || reached.Deleted? || (reached.NotReached? && reached.restricted)
                    then report.restricted + [n] else report.restricted,
      removed := if reached.Deleted? then report.removed + [n] else report.removed,
      notReached := if reached.NotReached? then report.notReached + [Entry.Copy(n)] else report.notReached)
  }

  /** The sorted order of the legacy directory's names. */
  const COPY_ORDER: seq<Name> := [Config, Temporary, Cert, Identity, Key, Anchor]

  function Rank(n: Name): (i: nat)
    ensures i < |COPY_ORDER| && COPY_ORDER[i] == n
  {
    match n case Config => 0 case Temporary => 1 case Cert => 2 case Identity => 3 case Key => 4 case Anchor => 5
  }

  /** The pass over the first `i` of the copies' names. */
  predicate PassedBy(report: Copies, choice: Choice, was: map<Name, File>, files: map<Name, File>, i: nat) {
    forall n ::
      if Rank(n) < i then Tells(report, choice, was, files, n) else Untouched(report, was, files, n)
  }

  lemma NotingOne(report: Copies, i: nat, reached: Reached, choice: Choice,
                  was: map<Name, File>, before: map<Name, File>, files: map<Name, File>)
    requires i < |COPY_ORDER| && COPY_ORDER[i] in before && !reached.CutShort?
    requires PassedBy(report, choice, was, before, i)
    requires SameExcept(files, before, COPY_ORDER[i])
    requires COPY_ORDER[i] !in files <==> reached.Deleted?
    requires reached.Deleted? ==> choice.Remove?
    requires reached.KeptRestricted? ==> choice.Keep? && IsRestrictedCopy(files, COPY_ORDER[i])
    ensures PassedBy(Noted(report, COPY_ORDER[i], reached), choice, was, files, i + 1)
  {
    var name := COPY_ORDER[i];
    assert Rank(name) == i;
    forall n
      ensures if Rank(n) < i + 1 then Tells(Noted(report, name, reached), choice, was, files, n)
              else Untouched(Noted(report, name, reached), was, files, n)
    {
      assert if Rank(n) < i then Tells(report, choice, was, before, n) else Untouched(report, was, before, n);
      if n != name {
        assert Rank(n) != i;
      }
    }
  }

  lemma PassedByAbsent(report: Copies, i: nat, choice: Choice, was: map<Name, File>, files: map<Name, File>)
    requires i < |COPY_ORDER| && COPY_ORDER[i] !in files
    requires PassedBy(report, choice, was, files, i)
    ensures PassedBy(report, choice, was, files, i + 1)
  {
    assert Rank(COPY_ORDER[i]) == i;
    forall n
      ensures if Rank(n) < i + 1 then Tells(report, choice, was, files, n) else Untouched(report, was, files, n)
    {
      assert if Rank(n) < i then Tells(report, choice, was, files, n) else Untouched(report, was, files, n);
    }
  }

  lemma PassedByAll(report: Copies, choice: Choice, was: map<Name, File>, files: map<Name, File>)
    requires PassedBy(report, choice, was, files, |COPY_ORDER|)
    ensures forall n :: Tells(report, choice, was, files, n)
  {
  }

  /** The last step of a pass can only add the directory to what was not reached. */
  lemma TellsStill(report: Copies, last: Copies, choice: Choice, was: map<Name, File>, files: map<Name, File>)
    requires forall n :: Tells(report, choice, was, files, n)
    requires last.removed == report.removed
    requires last.notReached == report.notReached || last.notReached == report.notReached + [LegacyDirectory]
    ensures forall n :: Tells(last, choice, was, files, n)
  {
    forall n ensures Tells(last, choice, was, files, n) {
      assert Tells(report, choice, was, files, n);
    }
  }

  /** What a whole pass over the copies does: its report tells of each copy, and
      says that the legacy directory is gone exactly when it is, empty. */
  ghost predicate IsPass(s: State, t: State, report: Copies) {
    && After(s) && After(t) && s.legacy.Some?
    && (report.directoryRemoved <==> t.legacy.None?)
    && (var left := if t.legacy.Some? then t.legacy.value.files else map[];
        forall n :: Tells(report, s.dataRoot.value.record.record.choice, s.legacy.value.files, left, n))
  }

  /** Item 5's condition to touch an object. */
  predicate IsCheckedCopy(f: File, n: Name, record: Record) {
    f.plain && n in record.files && record.files[n] == f.id
  }
}
