/** What holds after every allowed sequence of changes, from any console host. */
module MigrationSafety {
  import opened Common
  import opened MigrationDisk

  // ------------------------------------------------- the invariant is kept

  lemma RecordOfSame(r: Record, files: map<Name, File>, original: map<Name, File>)
    requires PartOf(files, original) && files.Keys == original.Keys
    ensures IsRecordOf(r, files) <==> IsRecordOf(r, original)
  {
    assert Ids(files) == Ids(original);
    forall n | n in files ensures files[n].content == original[n].content {
      assert SameFile(files[n], original[n]);
    }
  }

  lemma RestrictedPart(files: map<Name, File>, original: map<Name, File>, n: Name, security: FileSecurity)
    requires PartOf(files, original) && n in files
    ensures PartOf(Restricted(files, n, security), original)
    ensures Restricted(files, n, security).Keys == files.Keys
  {
    var g := Restricted(files, n, security);
    forall m | m in g ensures SameFile(g[m], original[m]) {
      assert SameFile(files[m], original[m]);
    }
  }

  lemma FirstRenameKept(s: State, origin: ConsoleHost)
    requires Inv(s, origin) && BeforeInv(s, origin.dataRoot.value) && Enabled(s, FirstRename)
    ensures Inv(Apply(s, FirstRename), origin)
  {
  }

  /** Something in the staging directory changes, or its record. */
  predicate ChangesStaged(e: Event) {
    || e.ShrinkStaging? || e.ClearStaged? || e.LeaveRewrite?
    || e.TearRecord? || e.PutRecord? || e.ReplaceRecord?
    || e.StageFile? || e.StageIdentityDir? || e.StageIdentityFile?
  }

  lemma StagedKept(s: State, e: Event, o: Dir)
    requires BeforeInv(s, o) && IsConsole(o) && ChangesStaged(e) && Enabled(s, e)
    ensures BeforeInv(Apply(s, e), o)
    ensures Apply(s, e) == s.(staging := Apply(s, e).staging)
  {
    match e
    case PutRecord(r) => RecordOfSame(r, s.dataRoot.value.files, o.files);
    case ReplaceRecord(r) => RecordOfSame(r, s.dataRoot.value.files, o.files);
    case _ =>
  }

  lemma OthersKept(s: State, e: Event, o: Dir)
    requires BeforeInv(s, o) && IsConsole(o) && !ChangesStaged(e) && !e.FirstRename? && Enabled(s, e)
    ensures BeforeInv(Apply(s, e), o)
    ensures Apply(s, e).productStray == s.productStray && (Closable(s.product) ==> Closable(Apply(s, e).product))
  {
    if e.RestrictFile? {
      RestrictedPart(s.dataRoot.value.files, o.files, e.name, Shared);
    }
  }

  /** The console installation stays in place but for the first rename. */
  lemma StaysBefore(s: State, e: Event, o: Dir)
    requires BeforeInv(s, o) && IsConsole(o) && !e.FirstRename? && Enabled(s, e)
    ensures BeforeInv(Apply(s, e), o)
    ensures Apply(s, e).productStray == s.productStray && (Closable(s.product) ==> Closable(Apply(s, e).product))
  {
    if ChangesStaged(e) {
      StagedKept(s, e, o);
    } else {
      OthersKept(s, e, o);
    }
  }

  lemma KeptBefore(s: State, e: Event, origin: ConsoleHost)
    requires Inv(s, origin) && BeforeInv(s, origin.dataRoot.value) && Enabled(s, e)
    ensures Inv(Apply(s, e), origin)
  {
    if e.FirstRename? {
      FirstRenameKept(s, origin);
    } else {
      StaysBefore(s, e, origin.dataRoot.value);
    }
  }

  lemma SecondRenameKept(s: State, origin: ConsoleHost)
    requires Inv(s, origin) && BetweenInv(s, origin.dataRoot.value) && Enabled(s, SecondRename)
    ensures Inv(Apply(s, SecondRename), origin)
  {
    var t := Apply(s, SecondRename);
    assert t.dataRoot == s.staging && t.legacy == s.legacy;
  }

  lemma RenameBackKept(s: State, origin: ConsoleHost)
    requires Inv(s, origin) && BetweenInv(s, origin.dataRoot.value) && Enabled(s, RenameBack)
    ensures Inv(Apply(s, RenameBack), origin)
  {
    var t := Apply(s, RenameBack);
    assert t.dataRoot == s.legacy && t.staging == s.staging;
  }

  lemma KeptBetween(s: State, e: Event, origin: ConsoleHost)
    requires Inv(s, origin) && BetweenInv(s, origin.dataRoot.value) && Enabled(s, e)
    ensures Inv(Apply(s, e), origin)
  {
    match e
    case SecondRename => SecondRenameKept(s, origin);
    case RenameBack => RenameBackKept(s, origin);
    case _ =>
  }

  /** The same commit: its record but for the copies not reached, its identity. */
  predicate SameCommit(s: State, t: State) {
    && After(s) && After(t) && t.dataRoot.value.identity == s.dataRoot.value.identity
    && t.dataRoot.value.record.record
       == s.dataRoot.value.record.record.(copiesNotReached := t.dataRoot.value.record.record.copiesNotReached)
  }

  predicate ChangesCopies(e: Event) {
    e.RestrictLegacy? || e.RestrictCopy? || e.RemoveCopy? || e.RemoveLegacy?
  }

  /** A change to the old copies leaves everything else. */
  lemma CopiesKept(s: State, e: Event, o: Dir)
    requires After(s) && ChangesCopies(e) && Enabled(s, e)
    requires LegacyInv(s.legacy, o, s.dataRoot.value.record.record.choice)
    ensures Apply(s, e) == s.(legacy := Apply(s, e).legacy)
    ensures LegacyInv(Apply(s, e).legacy, o, s.dataRoot.value.record.record.choice)
  {
    if e.RestrictCopy? {
      RestrictedPart(s.legacy.value.files, o.files, e.name, CopySecurity(e.name));
    }
  }

  lemma KeptAfter(s: State, e: Event, origin: ConsoleHost)
    requires Inv(s, origin) && AfterInv(s, origin.dataRoot.value) && Enabled(s, e)
    ensures Inv(Apply(s, e), origin) && AfterInv(Apply(s, e), origin.dataRoot.value)
    ensures SameCommit(s, Apply(s, e))
  {
    if ChangesCopies(e) {
      CopiesKept(s, e, origin.dataRoot.value);
    } else {
      assert Apply(s, e).legacy == s.legacy;
    }
  }

  lemma Kept(s: State, e: Event, origin: ConsoleHost)
    requires Inv(s, origin) && Enabled(s, e)
    ensures Inv(Apply(s, e), origin)
    ensures After(s) ==> SameCommit(s, Apply(s, e))
  {
    if AfterInv(s, origin.dataRoot.value) {
      KeptAfter(s, e, origin);
    } else if BeforeInv(s, origin.dataRoot.value) {
      KeptBefore(s, e, origin);
    } else {
      KeptBetween(s, e, origin);
    }
  }

  lemma {:induction false} InvAt(origin: ConsoleHost, events: seq<Event>, states: seq<State>, i: nat)
    requires IsRun(origin, events, states) && i < |states|
    ensures Inv(states[i], origin)
  {
    if i == 0 {
      assert BeforeInv(origin, origin.dataRoot.value);
    } else {
      InvAt(origin, events, states, i - 1);
      assert Step(states[i - 1], events[i - 1], states[i]);
      Kept(states[i - 1], events[i - 1], origin);
    }
  }

  /** Every state a history of starts reaches is one of the three phases. */
  lemma InvHolds(origin: ConsoleHost, events: seq<Event>, s: State)
    requires Reaches(origin, events, s)
    ensures Inv(s, origin)
  {
    var states :| IsRun(origin, events, states) && states[|events|] == s;
    InvAt(origin, events, states, |events|);
  }

  /** What a start relies on with the console installation in place. */
  lemma BeforeFacts(origin: ConsoleHost, events: seq<Event>, s: State)
    requires Reaches(origin, events, s) && Before(s)
    ensures s.staging.Some? ==> s.staging.value.security.Closed? && !s.staging.value.stray
    ensures HasRecord(s) ==> IsRecordOf(s.staging.value.record.record, s.dataRoot.value.files)
    ensures IsOriginal(s.dataRoot.value, origin.dataRoot.value)
    ensures s.productStray == origin.productStray && (Closable(origin.product) ==> Closable(s.product))
  {
    InvHolds(origin, events, s);
    if HasRecord(s) {
      RecordOfSame(s.staging.value.record.record, s.dataRoot.value.files, origin.dataRoot.value.files);
    }
  }

  /** What a start relies on with the data root away. */
  lemma BetweenFacts(origin: ConsoleHost, events: seq<Event>, s: State)
    requires Reaches(origin, events, s) && s.dataRoot.None?
    ensures Between(s) && Counts(s.staging) && Counts(s.legacy) && !s.product.Open?
    ensures HasRecord(s) && !IsConsole(s.staging.value) && IsConsole(s.legacy.value)
    ensures IsInstalled(s.staging.value, s.staging.value.record.record)
    ensures IsRecordOf(s.staging.value.record.record, s.legacy.value.files)
  {
    InvHolds(origin, events, s);
    RecordOfSame(s.staging.value.record.record, s.legacy.value.files, origin.dataRoot.value.files);
  }

  /** What a start relies on after the commit. */
  lemma AfterFacts(origin: ConsoleHost, events: seq<Event>, s: State)
    requires Reaches(origin, events, s)
    requires s.dataRoot.Some? && !IsConsole(s.dataRoot.value)
    ensures After(s) && AreClosed(s)
    ensures s.legacy.Some? ==> Counts(s.legacy)
  {
    InvHolds(origin, events, s);
  }

  /** Every copy is still the file the migration checked. */
  lemma CopyIsChecked(origin: ConsoleHost, events: seq<Event>, s: State, n: Name)
    requires Reaches(origin, events, s) && After(s)
    requires s.legacy.Some? && n in s.legacy.value.files
    ensures CopyChecked(s, n) && s.legacy.value.files[n].plain
  {
    InvHolds(origin, events, s);
    var o := origin.dataRoot.value;
    assert s.dataRoot.value.record.record.files == Ids(o.files);
    assert SameFile(s.legacy.value.files[n], o.files[n]);
  }

  // --------------------------------------------------------------- theorems

  /** The combinations `prepare` has a branch for. */
  predicate IsHandled(s: State) {
    var console := s.dataRoot.Some? && IsConsole(s.dataRoot.value);
    || (s.dataRoot.None? && Counts(s.staging) && Counts(s.legacy))
    || (s.dataRoot.Some? && console && Counts(s.staging) && !Counts(s.legacy))
    || (s.dataRoot.Some? && !console && !Counts(s.staging) && Counts(s.legacy)
        && s.dataRoot.value.record.Recorded?)
    || (!Counts(s.staging) && !Counts(s.legacy))
  }

  /** No failure or crash, however often, leads to a combination that no start
      handles; and a directory that exists is one that counts. */
  lemma EveryCombinationIsHandled(origin: ConsoleHost, events: seq<Event>, s: State)
    requires Reaches(origin, events, s)
    ensures IsHandled(s)
    ensures s.staging.Some? ==> Counts(s.staging)
    ensures s.legacy.Some? ==> Counts(s.legacy)
    ensures s.dataRoot.None? ==> HasRecord(s)
  {
    InvHolds(origin, events, s);
  }

  /** Once something is staged, `<P>` and the data root are closed and stay so. */
  lemma StagedIsClosed(origin: ConsoleHost, events: seq<Event>, s: State)
    requires Reaches(origin, events, s) && (s.staging.Some? || !Before(s))
    ensures AreClosed(s)
  {
    InvHolds(origin, events, s);
  }

  /** The agent's identity, as a directory holds it: installed or console. */
  predicate HoldsAgent(d: Dir, agentId: string, key: string) {
    || HoldsIdentity(d.files, agentId, key)
    || (d.identity.Some? && HoldsIdentity(d.identity.value, agentId, key))
  }

  /** The original identity is never lost: it is in the data root or, while the
      data root is away, in the legacy directory. */
  lemma IdentityIsNeverLost(origin: ConsoleHost, events: seq<Event>, s: State, agentId: string, key: string)
    requires Reaches(origin, events, s)
    requires HoldsIdentity(origin.dataRoot.value.files, agentId, key)
    ensures s.dataRoot.Some? ==> HoldsAgent(s.dataRoot.value, agentId, key)
    ensures s.dataRoot.None? ==> s.legacy.Some? && HoldsAgent(s.legacy.value, agentId, key)
  {
    InvHolds(origin, events, s);
    var o := origin.dataRoot.value;
    if s.dataRoot.Some? && IsOriginal(s.dataRoot.value, o) {
      SameIdentity(s.dataRoot.value.files, o.files, agentId, key);
    } else if s.dataRoot.None? {
      SameIdentity(s.legacy.value.files, o.files, agentId, key);
    }
  }

  lemma SameIdentity(files: map<Name, File>, original: map<Name, File>, agentId: string, key: string)
    requires PartOf(files, original) && files.Keys == original.Keys
    ensures HoldsIdentity(files, agentId, key) <==> HoldsIdentity(original, agentId, key)
    ensures AllPlain(files) <==> AllPlain(original)
    ensures forall n | n in files :: files[n].content == original[n].content
  {
    forall n | n in files
      ensures files[n].content == original[n].content && files[n].plain == original[n].plain
    {
      assert SameFile(files[n], original[n]);
    }
  }

  lemma CommittedIsInstalled(origin: ConsoleHost, events: seq<Event>, s: State)
    requires Reaches(origin, events, s) && After(s)
    ensures var r := s.dataRoot.value.record.record;
            IsInstalled(s.dataRoot.value, r) && IsRecordOf(r, origin.dataRoot.value.files)
  {
    InvHolds(origin, events, s);
  }

  /** An old copy is deleted only when the operator asked for it and the data
      root already is an installed tree with the original identity. */
  lemma CopiesGoOnlyAfterTheCommit(origin: ConsoleHost, events: seq<Event>, s: State, e: Event, agentId: string, key: string)
    requires Reaches(origin, events, s) && Enabled(s, e)
    requires HoldsIdentity(origin.dataRoot.value.files, agentId, key)
    requires e.RemoveCopy? || e.RemoveLegacy?
    ensures s.dataRoot.Some? && s.dataRoot.value.record.Recorded?
    ensures var r := s.dataRoot.value.record.record;
            && r.choice.Remove? && r.agentId == agentId && r.key == key
            && IsInstalled(s.dataRoot.value, r)
  {
    CommittedIsInstalled(origin, events, s);
  }

  /** While the choice is `keep`, and before the commit under either choice,
      every original file is there, unchanged but for its security. */
  lemma KeptCopiesStay(origin: ConsoleHost, events: seq<Event>, s: State)
    requires Reaches(origin, events, s)
    requires After(s) ==> s.dataRoot.value.record.record.choice.Keep?
    ensures var home := if Before(s) then s.dataRoot else s.legacy;
            && home.Some? && PartOf(home.value.files, origin.dataRoot.value.files)
            && home.value.files.Keys == origin.dataRoot.value.files.Keys
  {
    InvHolds(origin, events, s);
  }

  /** Once the data root is renamed away, no old copy is under its console
      security, and the legacy directory is closed. */
  lemma CopiesAreRestricted(origin: ConsoleHost, events: seq<Event>, s: State)
    requires Reaches(origin, events, s) && s.legacy.Some?
    ensures AllRestricted(s.legacy.value.files) && !s.legacy.value.security.Open?
  {
    InvHolds(origin, events, s);
  }

  lemma NextKeepsCommit(origin: ConsoleHost, events: seq<Event>, states: seq<State>, i: nat)
    requires IsRun(origin, events, states) && i < |events| && After(states[i])
    ensures SameCommit(states[i], states[i + 1])
  {
    InvAt(origin, events, states, i);
    assert Step(states[i], events[i], states[i + 1]);
    Kept(states[i], events[i], origin);
  }

  /** A commit is final: whatever later starts do, the data root stays the
      installed tree, with the same operator's choice. */
  lemma {:induction false} CommitIsFinal(origin: ConsoleHost, events: seq<Event>, states: seq<State>, i: nat, j: nat)
    requires IsRun(origin, events, states)
    requires i <= j < |states| && After(states[i])
    ensures SameCommit(states[i], states[j])
    decreases j
  {
    if i < j {
      CommitIsFinal(origin, events, states, i, j - 1);
      NextKeepsCommit(origin, events, states, j - 1);
    }
  }

  /** Event `k` is the last first rename before state `i`. */
  predicate IsLastFirstRename(events: seq<Event>, i: nat, k: nat) {
    && k < i <= |events| && events[k].FirstRename?
    && forall j | k < j < i :: !events[j].FirstRename?
  }

  lemma {:induction false} SecondFailedIsWitnessed(origin: ConsoleHost, events: seq<Event>, states: seq<State>, i: nat)
    returns (j: nat)
    requires IsRun(origin, events, states) && i < |states| && states[i].secondFailed
    ensures j < i && events[j].SecondRenameFails?
    ensures forall k | j < k < i :: !events[k].FirstRename?
  {
    if i == 0 {
      assert false;
    } else {
      assert Step(states[i - 1], events[i - 1], states[i]);
      if events[i - 1].SecondRenameFails? {
        j := i - 1;
      } else {
        j := SecondFailedIsWitnessed(origin, events, states, i - 1);
      }
    }
  }

  /** A reversal undoes only the commit it was recorded for: wherever a start
      would rename the legacy directory back, the second rename of the commit
      that moved it there failed. A mark an earlier reversal left behind is
      gone by then. */
  lemma ReversalIsOfThisCommit(origin: ConsoleHost, events: seq<Event>, states: seq<State>, i: nat, k: nat)
    returns (j: nat)
    requires IsRun(origin, events, states) && i < |states|
    requires Between(states[i]) && HasRecord(states[i]) && states[i].staging.value.record.record.reversalPending
    requires IsLastFirstRename(events, i, k)
    ensures k < j < i && events[j].SecondRenameFails?
  {
    InvAt(origin, events, states, i);
    j := SecondFailedIsWitnessed(origin, events, states, i);
    assert events[k].FirstRename?;
  }
}
