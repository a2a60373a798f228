/**
 The migration's protocol: what is on the disk under `<P>`, the atomic changes
 a start can make to it, and when the protocol allows each one.

 A start may stop after any change (a failure, a crash), and the next start
 knows only the disk. So a history of any number of starts is a sequence of
 changes, each allowed where it happens; what this module proves holds after
 every prefix of every such sequence. `MigrationService` proves that the
 service's code makes no other changes.
 */
module MigrationDisk {
  import opened Common

  // ------------------------------------------------------------------ disk

  /** The files a console installation's data root holds. */
  datatype Name = Config | Anchor | Cert | Key | Identity | Temporary

  const REQUIRED: set<Name> := {Config, Anchor, Cert, Key, Identity}
  const IDENTITY_FILES: set<Name> := {Cert, Key, Identity}
  /** The staged files outside `identity\`. */
  const SHARED_FILES: set<Name> := {Config, Anchor}

  datatype ConfigPaths = ConsolePaths | InstalledPaths | OtherPaths

  /** What a file holds, as far as the migration's checks tell contents apart. */
  datatype Content =
    | Torn                                      // a write that did not end
    | ConfigText(paths: ConfigPaths)
    | AnchorPem(fingerprints: set<string>)      // of its distinct certificates
    | CertPem(agentId: string, key: string)
    | SealedKey(key: string)
    | IdentityJson(agentId: string, key: string, expiresAt: int)
    | Unusable

  datatype FileSecurity = ByConsole | Shared | SystemOnly

  /** `plain`: what item 2.2 accepts of the file itself, its owner, links and DACL. */
  datatype File = File(id: nat, plain: bool, security: FileSecurity, content: Content)

  /** `Open` fails `agent.toml`'s policy; `closable` when item 2.1 accepts it,
      `restricted` when the data directories' check does, which asks for no
      protected DACL. */
  datatype DirSecurity = Open(closable: bool, restricted: bool) | Closed | SystemDir

  predicate Closable(s: DirSecurity) {
    s.Open? ==> s.closable
  }

  predicate PassesDirectoryCheck(s: DirSecurity) {
    s.Open? ==> s.restricted
  }

  datatype Choice = Remove | Keep

  datatype Request = Request(choice: Choice, fingerprints: set<string>)

  /** What item 5 may fail to reach: a copy, or the legacy directory itself. */
  datatype Entry = Copy(name: Name) | LegacyDirectory

  /** `migration.json`. */
  datatype Record = Record(
    choice: Choice, fingerprints: set<string>,
    agentId: string, key: string, files: map<Name, nat>,
    reversalPending: bool, copiesNotReached: seq<Entry>)
  {
    predicate AsksFor(request: Request) {
      choice == request.choice && fingerprints == request.fingerprints
    }
  }

  datatype RecordFile = NoRecord | TornRecord | Recorded(record: Record)

  /** A directory: its files, its `identity\`, its `migration.json`, the
      leftover of that file's rewrite, and whether it holds anything else. */
  datatype Dir = Dir(
    security: DirSecurity, stray: bool, files: map<Name, File>,
    identity: Option<map<Name, File>>, record: RecordFile, rewriteLeft: bool)

  /** `<P>`: its security, whether it holds a foreign entry, and the three
      directories. `secondFailed`: the second rename was tried and failed since
      the last first rename (what happened, not what the disk says). */
  datatype State = State(
    product: DirSecurity, productStray: bool,
    dataRoot: Option<Dir>, staging: Option<Dir>, legacy: Option<Dir>,
    secondFailed: bool)

  /** A console layout: an identity file directly in the data root. */
  predicate IsConsole(d: Dir) {
    Cert in d.files || Key in d.files || Identity in d.files
  }

  /** Item 4: only a directory under `agent.toml`'s policy counts. */
  predicate Counts(d: Option<Dir>) {
    d.Some? && !d.value.security.Open?
  }

  /** The certificate, the key and the identity of one agent, consistent. */
  predicate HoldsIdentity(files: map<Name, File>, agentId: string, key: string) {
    && Cert in files && files[Cert].content == CertPem(agentId, key)
    && Key in files && files[Key].content == SealedKey(key)
    && Identity in files && files[Identity].content.IdentityJson?
    && files[Identity].content.agentId == agentId
    && files[Identity].content.key == key
  }

  function Ids(files: map<Name, File>): map<Name, nat> {
    map n | n in files :: files[n].id
  }

  /** Item 2.5's check of a staged tree against its record, the same a start
      makes of the data root. */
  predicate IsInstalled(d: Dir, r: Record) {
    && !d.security.Open?
    && d.record.Recorded?
    && Config in d.files && d.files[Config].content == ConfigText(InstalledPaths)
    && Anchor in d.files && d.files[Anchor].content == AnchorPem(r.fingerprints)
    && d.identity.Some? && HoldsIdentity(d.identity.value, r.agentId, r.key)
  }

  /** The record is of this console installation. */
  predicate IsRecordOf(r: Record, files: map<Name, File>) {
    r.files == Ids(files) && HoldsIdentity(files, r.agentId, r.key)
  }

  predicate AllPlain(files: map<Name, File>) {
    forall n | n in files :: files[n].plain
  }

  predicate AllRestricted(files: map<Name, File>) {
    forall n | n in files :: !files[n].security.ByConsole?
  }

  // ---------------------------------------------------------------- changes

  /** Which entries of a directory an unfinished deletion left. */
  datatype Left = Left(files: set<Name>, identity: Option<set<Name>>, record: bool, rewriteLeft: bool)

  function Only(files: map<Name, File>, names: set<Name>): map<Name, File> {
    map n | n in files && n in names :: files[n]
  }

  function Remains(d: Dir, left: Left): Dir {
    d.(files := Only(d.files, left.files),
       identity := if d.identity.Some? && left.identity.Some?
                   then Some(Only(d.identity.value, left.identity.value)) else None,
       record := if left.record then d.record else NoRecord,
       rewriteLeft := d.rewriteLeft && left.rewriteLeft)
  }

  const EMPTY_STAGING: Dir := Dir(Closed, false, map[], None, NoRecord, false)

  /** The atomic changes a start makes. */
  datatype Event =
    | CloseProduct | CloseData
    | ShrinkStaging(left: Left) | DeleteStaging
    | RestrictFile(name: Name)
    | CreateStaging
    | TearRecord | PutRecord(record: Record)
    | ReplaceRecord(record: Record) | LeaveRewrite
    | ClearStaged(left: Left)
    | StageFile(name: Name, content: Content)
    | StageIdentityDir | StageIdentityFile(name: Name, content: Content)
    | FirstRename | SecondRename | SecondRenameFails | RenameBack
    | RestrictLegacy | RestrictCopy(name: Name) | RemoveCopy(name: Name) | RemoveLegacy
    | RewriteRecord(notReached: seq<Entry>)

  function Restricted(files: map<Name, File>, n: Name, security: FileSecurity): map<Name, File>
    requires n in files
  {
    files[n := files[n].(security := security)]
  }

  /** What item 5 leaves of a copy's security. */
  function CopySecurity(n: Name): FileSecurity {
    if n in IDENTITY_FILES then SystemOnly else Shared
  }

  function Staged(n: Name, c: Content): File {
    File(0, true, if n in IDENTITY_FILES then SystemOnly else Shared, c)
  }

  /** The console installation is in place. */
  predicate Before(s: State) {
    s.dataRoot.Some? && IsConsole(s.dataRoot.value) && s.legacy.None?
  }

  /** The data root is away, at the legacy directory's name. */
  predicate Between(s: State) {
    s.dataRoot.None? && s.staging.Some? && s.legacy.Some?
  }

  /** The staging directory became the data root. */
  predicate After(s: State) {
    && s.dataRoot.Some? && !IsConsole(s.dataRoot.value) && s.dataRoot.value.record.Recorded?
    && s.staging.None?
  }

  /** Item 2.1 was done to `<P>` and to the data root, if it is there. */
  predicate AreClosed(s: State) {
    s.product.Closed? && (s.dataRoot.Some? ==> s.dataRoot.value.security.Closed?)
  }

  predicate HasRecord(s: State) {
    s.staging.Some? && s.staging.value.record.Recorded?
  }

  /** Item 5: the copy has the file ID the record holds. */
  predicate CopyChecked(s: State, n: Name) {
    && After(s) && s.legacy.Some? && n in s.legacy.value.files
    && n in s.dataRoot.value.record.record.files
    && s.dataRoot.value.record.record.files[n] == s.legacy.value.files[n].id
  }

  /** A record that may replace the staged one: before the first rename, this
      attempt's, without a mark; after it, the same with the mark, once the
      second rename of that commit has failed. */
  predicate MayReplace(s: State, r: Record) {
    && HasRecord(s)
    && (var was := s.staging.value.record.record;
        if s.dataRoot.Some? then
          && Before(s) && IsRecordOf(r, s.dataRoot.value.files) && !r.reversalPending
          && r.choice == was.choice && r.fingerprints == was.fingerprints
        else
          Between(s) && s.secondFailed && r == was.(reversalPending := true))
  }

  /** The staged tree and the console installation are ready for the renames. */
  predicate MayCommit(s: State) {
    && Before(s) && HasRecord(s)
    && (var r := s.staging.value.record.record;
        && !r.reversalPending && IsInstalled(s.staging.value, r)
        && IsRecordOf(r, s.dataRoot.value.files))
    && !s.product.Open? && !s.dataRoot.value.security.Open? && !s.dataRoot.value.stray
    && AllRestricted(s.dataRoot.value.files) && AllPlain(s.dataRoot.value.files)
  }

  predicate MayComplete(s: State) {
    && Between(s) && HasRecord(s) && !s.staging.value.record.record.reversalPending
    && IsInstalled(s.staging.value, s.staging.value.record.record)
  }

  predicate MayReverse(s: State) {
    Between(s) && HasRecord(s) && s.staging.value.record.record.reversalPending
  }

  predicate MayRemoveLegacy(s: State) {
    && After(s) && s.legacy.Some? && s.dataRoot.value.record.record.choice.Remove?
    && s.legacy.value.security.SystemDir? && s.legacy.value.files == map[]
  }

  function When(allowed: bool, t: State): Option<State> {
    if allowed then Some(t) else None
  }

  /** The state a change leads to, where the protocol allows it. */
  function Next(s: State, e: Event): Option<State> {
    match e
    case CloseProduct => Some(s.(product := Closed))
    case CloseData =>
      if s.dataRoot.Some? then Some(s.(dataRoot := Some(s.dataRoot.value.(security := Closed)))) else None
    case ShrinkStaging(left) =>
      if Before(s) && s.staging.Some? && !HasRecord(s)
      then Some(s.(staging := Some(Remains(s.staging.value, left)))) else None
    case DeleteStaging => When(Before(s) && s.staging.Some? && !HasRecord(s), s.(staging := None))
    case RestrictFile(n) =>
      if Before(s) && n in s.dataRoot.value.files then
        var d := s.dataRoot.value;
        Some(s.(dataRoot := Some(d.(files := Restricted(d.files, n, Shared)))))
      else None
    case CreateStaging =>
      When(Before(s) && s.staging.None? && AreClosed(s), s.(staging := Some(EMPTY_STAGING)))
    case TearRecord =>
      if Before(s) && s.staging.Some? && s.staging.value.record.NoRecord?
      then Some(s.(staging := Some(s.staging.value.(record := TornRecord)))) else None
    case PutRecord(r) =>
      if Before(s) && s.staging.Some? && s.staging.value.record.NoRecord?
         && IsRecordOf(r, s.dataRoot.value.files) && !r.reversalPending
      then Some(s.(staging := Some(s.staging.value.(record := Recorded(r))))) else None
    case ReplaceRecord(r) =>
      if MayReplace(s, r)
      then Some(s.(staging := Some(s.staging.value.(record := Recorded(r), rewriteLeft := false)))) else None
    case LeaveRewrite =>
      if HasRecord(s) then Some(s.(staging := Some(s.staging.value.(rewriteLeft := true))))
      else if After(s) then Some(s.(dataRoot := Some(s.dataRoot.value.(rewriteLeft := true))))
      else None
    case ClearStaged(left) =>
      if Before(s) && HasRecord(s) && left.record
      then Some(s.(staging := Some(Remains(s.staging.value, left)))) else None
    case StageFile(n, c) =>
      if Before(s) && HasRecord(s) && n in SHARED_FILES && n !in s.staging.value.files then
        var d := s.staging.value;
        Some(s.(staging := Some(d.(files := d.files[n := Staged(n, c)]))))
      else None
    case StageIdentityDir =>
      if Before(s) && HasRecord(s) && s.staging.value.identity.None?
      then Some(s.(staging := Some(s.staging.value.(identity := Some(map[]))))) else None
    case StageIdentityFile(n, c) =>
      if Before(s) && HasRecord(s) && n in IDENTITY_FILES
         && s.staging.value.identity.Some? && n !in s.staging.value.identity.value then
        var d := s.staging.value;
        Some(s.(staging := Some(d.(identity := Some(d.identity.value[n := Staged(n, c)])))))
      else None
    case FirstRename => When(MayCommit(s), s.(dataRoot := None, legacy := s.dataRoot, secondFailed := false))
    case SecondRename => When(MayComplete(s), s.(staging := None, dataRoot := s.staging))
    case SecondRenameFails => When(Between(s), s.(secondFailed := true))
    case RenameBack => When(MayReverse(s), s.(legacy := None, dataRoot := s.legacy))
    case RestrictLegacy =>
      if After(s) && s.legacy.Some?
      then Some(s.(legacy := Some(s.legacy.value.(security := SystemDir)))) else None
    case RestrictCopy(n) =>
      if CopyChecked(s, n) then
        var d := s.legacy.value;
        Some(s.(legacy := Some(d.(files := Restricted(d.files, n, CopySecurity(n))))))
      else None
    case RemoveCopy(n) =>
      if CopyChecked(s, n) && s.dataRoot.value.record.record.choice.Remove?
         && s.legacy.value.files[n].security == CopySecurity(n) then
        var d := s.legacy.value;
        Some(s.(legacy := Some(d.(files := d.files - {n}))))
      else None
    case RemoveLegacy => When(MayRemoveLegacy(s), s.(legacy := None))
    case RewriteRecord(names) =>
      if After(s) then
        var d := s.dataRoot.value;
        Some(s.(dataRoot := Some(d.(record := Recorded(d.record.record.(copiesNotReached := names)),
                                    rewriteLeft := false))))
      else None
  }

  /** No change depends on `secondFailed` but the mark it allows. */
  lemma FlagIsHistory(s: State, e: Event)
    requires Next(s, e).Some?
    ensures Next(s.(secondFailed := true), e).Some?
    ensures Next(s.(secondFailed := true), e).value.(secondFailed := false) == Next(s, e).value.(secondFailed := false)
  {
  }

  predicate Enabled(s: State, e: Event) {
    Next(s, e).Some?
  }

  function Apply(s: State, e: Event): State
    requires Enabled(s, e)
  {
    Next(s, e).value
  }

  ghost predicate Step(s: State, e: Event, t: State) {
    Enabled(s, e) && t == Apply(s, e)
  }

  /** A history: changes, each allowed where it happens, and the states between. */
  ghost predicate IsRun(origin: ConsoleHost, events: seq<Event>, states: seq<State>) {
    && |states| == |events| + 1 && states[0] == origin
    && forall i {:trigger events[i]} | 0 <= i < |events| :: Step(states[i], events[i], states[i + 1])
  }

  ghost predicate Reaches(origin: ConsoleHost, events: seq<Event>, s: State) {
    exists states :: IsRun(origin, events, states) && states[|events|] == s
  }

  lemma ReachesStart(origin: ConsoleHost)
    ensures Reaches(origin, [], origin)
  {
    assert IsRun(origin, [], [origin]);
  }

  lemma ReachesOneMore(origin: ConsoleHost, events: seq<Event>, s: State, e: Event)
    requires Reaches(origin, events, s) && Enabled(s, e)
    ensures Reaches(origin, events + [e], Apply(s, e))
  {
    var states :| IsRun(origin, events, states) && states[|events|] == s;
    var longer := states + [Apply(s, e)];
    var all := events + [e];
    forall i {:trigger all[i]} | 0 <= i < |all| ensures Step(longer[i], all[i], longer[i + 1]) {
      if i < |events| {
        assert all[i] == events[i];
      }
    }
    assert IsRun(origin, all, longer);
  }

  // -------------------------------------------------------------- invariant

  /** A host the console runbook set up: a data root with a complete identity,
      and nothing of a migration. Whether it can be migrated is another matter
      (`Migratable`). */
  predicate IsConsoleHost(s: State) {
    && s.dataRoot.Some? && s.staging.None? && s.legacy.None? && !s.secondFailed
    && s.dataRoot.value.identity.None? && s.dataRoot.value.record.NoRecord?
    && (var f := s.dataRoot.value.files;
        && Identity in f && f[Identity].content.IdentityJson?
        && HoldsIdentity(f, f[Identity].content.agentId, f[Identity].content.key))
  }

  const SOME_HOST: State :=
    State(Closed, false,
          Some(Dir(Closed, false,
                   map[Cert := File(0, true, ByConsole, CertPem("", "")),
                       Key := File(1, true, ByConsole, SealedKey("")),
                       Identity := File(2, true, ByConsole, IdentityJson("", "", 0))],
                   None, NoRecord, false)),
          None, None, false)

  type ConsoleHost = s: State | IsConsoleHost(s) witness SOME_HOST

  /** The same file but for its security. */
  predicate SameFile(f: File, g: File) {
    f == g.(security := f.security)
  }

  /** A part of the original files, each the same but for its security. */
  predicate PartOf(files: map<Name, File>, original: map<Name, File>) {
    files.Keys <= original.Keys && forall n | n in files :: SameFile(files[n], original[n])
  }

  predicate IsOriginal(d: Dir, o: Dir) {
    && PartOf(d.files, o.files) && d.files.Keys == o.files.Keys
    && d.identity.None? && d.record.NoRecord? && d.stray == o.stray
    && (Closable(o.security) ==> Closable(d.security))
  }

  predicate IsStaging(d: Dir, o: Dir) {
    && d.security.Closed? && !d.stray && d.files.Keys <= SHARED_FILES
    && (d.record.Recorded? ==> IsRecordOf(d.record.record, o.files))
  }

  ghost predicate BeforeInv(s: State, o: Dir) {
    && s.dataRoot.Some? && IsOriginal(s.dataRoot.value, o) && s.legacy.None?
    && (s.staging.Some? ==> IsStaging(s.staging.value, o) && AreClosed(s))
  }

  ghost predicate BetweenInv(s: State, o: Dir) {
    && s.dataRoot.None? && s.product.Closed?
    && s.legacy.Some? && s.legacy.value.security.Closed?
    && IsOriginal(s.legacy.value, o) && AllRestricted(s.legacy.value.files)
    && !o.stray && AllPlain(o.files)
    && HasRecord(s) && IsStaging(s.staging.value, o)
    && IsInstalled(s.staging.value, s.staging.value.record.record)
    && (s.staging.value.record.record.reversalPending ==> s.secondFailed)
  }

  ghost predicate AfterInv(s: State, o: Dir) {
    && After(s) && s.product.Closed? && IsStaging(s.dataRoot.value, o) && AllPlain(o.files)
    && IsInstalled(s.dataRoot.value, s.dataRoot.value.record.record)
    && LegacyInv(s.legacy, o, s.dataRoot.value.record.record.choice)
  }

  /** The old copies under each choice. */
  ghost predicate LegacyInv(legacy: Option<Dir>, o: Dir, choice: Choice) {
    && (legacy.None? ==> choice.Remove?)
    && (legacy.Some? ==>
          && Counts(legacy) && PartOf(legacy.value.files, o.files)
          && AllRestricted(legacy.value.files) && !legacy.value.stray
          && (choice.Keep? ==> legacy.value.files.Keys == o.files.Keys))
  }

  /** What every reachable state is: the console installation in place, at the
      legacy name between two renames, or replaced by an installed tree. */
  ghost predicate Inv(s: State, origin: ConsoleHost) {
    var o := origin.dataRoot.value;
    && (BeforeInv(s, o) || BetweenInv(s, o) || AfterInv(s, o))
    && s.productStray == origin.productStray
    && (Closable(origin.product) ==> Closable(s.product))
  }
}
