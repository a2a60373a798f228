/**
 The service's start: `prepare` and what it calls, and `copies`, over the disk
 of `MigrationDisk`. `watch` says how each operation ends: done, failed, or cut
 short by a crash, in each case with any part of it left on the disk.
 */
module MigrationService {
  import opened Common
  import opened MigrationDisk
  import opened MigrationSafety
  import opened MigrationCopies

  /** The points of `Watch`, and the operations without one that can fail. */
  datatype Point =
    | CloseProductRoot | CloseDataRoot | DeleteInterruptedStaging
    | Check(name: Name) | Read(name: Name) | Restrict(name: Name) | Restricted(name: Name)
    | CreateStaging | WriteRecord | Clear | Stage(name: Name) | StageIdentity | CheckStaged
    | FirstRename | SecondRename | RecordReversal | RenameBack | ClearReversal
    | CompleteCommit
    | RestrictLegacyDirectory | Copy(name: Name) | Delete(name: Name)
    | RemoveLegacyDirectory | RewriteRecord
    | InspectDataRoot | InspectFile(name: Name) | InspectStaging | InspectLegacy | ReadRecord
    | CheckProduct | CheckData
    | ListRoot | ListAgain | ListLegacy | ListLegacyAgain

  /** `torn`: a write, or a rewrite's temporary file, was left behind;
      `left`: what a deletion did not reach. */
  datatype Fate = Done | Fails(torn: bool, left: Left) | Crashes(torn: bool, left: Left)

  type Watch = Point -> Fate

  ghost predicate Quiet(watch: Watch) {
    forall p :: watch(p).Done?
  }

  datatype Reason =
    | OtherCombination | NotTheRecorded | NotMigrating | LockRefused | DataDirectories
    | Interrupted | RecordUnread | StepFailed | BetweenTheRenames | Reversed

  /** How a start ends that does not go on. */
  datatype Stop = Refused(code: int, reason: Reason) | Crashed

  datatype Prepared = Plain | ConsoleLayout | Committed

  const SERVICE_LOG: int := 13

  function Cut(fate: Fate, code: int, reason: Reason): Stop {
    if fate.Crashes? then Crashed else Refused(code, reason)
  }

  /** What the route finds staged: nothing, a directory without a record, or one with. */
  datatype Attempt = Fresh | Abandoned | Continued(record: Record)

  /** The identity the files agree on. */
  datatype Verified = Verified(agentId: string, key: string)

  /** The operations of a reversal succeed. */
  predicate Reversible(watch: Watch) {
    watch(RecordReversal).Done? && watch(Point.RenameBack).Done? && watch(ClearReversal).Done?
  }

  /** The order of the checks. */
  const CHECK_ORDER: seq<Name> := [Config, Anchor, Cert, Key, Identity, Temporary]

  /** The console installation items 2.1 to 2.4 accept, for this request now. */
  predicate Migratable(origin: ConsoleHost, request: Request, now: int) {
    && Closable(origin.product) && !origin.productStray
    && (var o := origin.dataRoot.value;
        && Closable(o.security) && !o.stray && REQUIRED <= o.files.Keys && AllPlain(o.files)
        && o.files[Config].content == ConfigText(ConsolePaths)
        && o.files[Anchor].content == AnchorPem(request.fingerprints)
        && o.files[Identity].content.IdentityJson? && o.files[Identity].content.expiresAt > now)
  }

  /** What item 2.2 accepts: the agent's own entries, each a plain file. */
  predicate EntriesPass(s: State, recorded: bool) {
    && s.dataRoot.Some? && s.legacy.None?
    && s.dataRoot.value.identity.None? && s.dataRoot.value.record.NoRecord?
    && !s.productStray && !s.dataRoot.value.stray && (s.staging.Some? ==> recorded)
    && REQUIRED <= s.dataRoot.value.files.Keys && AllPlain(s.dataRoot.value.files)
  }

  /** What item 2.3 accepts: the console layout's configuration, exactly the
      anchor asked for, and one agent's unexpired identity, the recorded one. */
  predicate FilesPass(f: map<Name, File>, request: Request, recorded: Option<Record>, now: int) {
    && REQUIRED <= f.Keys
    && f[Config].content == ConfigText(ConsolePaths)
    && f[Anchor].content == AnchorPem(request.fingerprints)
    && f[Identity].content.IdentityJson? && f[Identity].content.expiresAt > now
    && HoldsIdentity(f, f[Identity].content.agentId, f[Identity].content.key)
    && (recorded.Some? ==> HoldsIdentity(f, recorded.value.agentId, recorded.value.key))
  }

  /** The record a migration in progress or a committed one goes by. */
  function Governing(s: State): Option<Record> {
    if HasRecord(s) then Some(s.staging.value.record.record)
    else if s.dataRoot.Some? && s.dataRoot.value.record.Recorded? then Some(s.dataRoot.value.record.record)
    else None
  }

  /** A migration got as far as a staging directory, or further. */
  predicate IsFurther(s: State) {
    s.staging.Some? || !Before(s)
  }

  lemma GovernedIsFurther(origin: ConsoleHost, events: seq<Event>, s: State)
    requires Reaches(origin, events, s) && Governing(s).Some?
    ensures IsFurther(s)
  {
    InvHolds(origin, events, s);
  }

  /** The arguments are those the record holds, or there are none. */
  predicate Agrees(request: Option<Request>, record: Record) {
    request.Some? ==> record.AsksFor(request.value)
  }

  /** What a start sees. A staging or legacy directory it cannot inspect does not
      count; a data root or an identity file it cannot inspect is taken as there. */
  datatype Sight = Sight(dataRoot: bool, console: bool, staging: bool, legacy: bool)

  predicate SeesFile(s: State, name: Name, watch: Watch) {
    (s.dataRoot.Some? && name in s.dataRoot.value.files) || !watch(InspectFile(name)).Done?
  }

  function Seen(s: State, watch: Watch): Sight {
    var dataRoot := s.dataRoot.Some? || !watch(InspectDataRoot).Done?;
    Sight(dataRoot,
          dataRoot && (SeesFile(s, Cert, watch) || SeesFile(s, Key, watch) || SeesFile(s, Identity, watch)),
          Counts(s.staging) && watch(InspectStaging).Done?,
          Counts(s.legacy) && watch(InspectLegacy).Done?)
  }

  /** Nothing is taken as there that is not. */
  predicate SeesTruly(watch: Watch) {
    && watch(InspectDataRoot).Done?
    && watch(InspectFile(Cert)).Done? && watch(InspectFile(Key)).Done? && watch(InspectFile(Identity)).Done?
  }

  /** Which branch of `prepare` a start takes. */
  datatype Branch = InBetween | Beside | AfterCommit | ConsoleAlone | NoMigration | Other

  function Dispatch(sight: Sight): Branch {
    if !sight.dataRoot && sight.staging && sight.legacy then InBetween
    else if sight.dataRoot && sight.staging && !sight.legacy && sight.console then Beside
    else if sight.dataRoot && !sight.staging && sight.legacy && !sight.console then AfterCommit
    else if !sight.staging && !sight.legacy && sight.console then ConsoleAlone
    else if !sight.staging && !sight.legacy then NoMigration
    else Other
  }

  /** A start that can inspect everything knows its phase exactly, and never finds a
      combination no migration leaves. */
  lemma DispatchReadsThePhase(origin: ConsoleHost, events: seq<Event>, s: State, watch: Watch)
    requires Reaches(origin, events, s)
    requires SeesTruly(watch) && watch(InspectStaging).Done? && watch(InspectLegacy).Done?
    ensures var branch := Dispatch(Seen(s, watch));
            && branch != Other
            && (branch.InBetween? <==> Between(s))
            && (branch.Beside? <==> Before(s) && s.staging.Some?)
            && (branch.ConsoleAlone? <==> Before(s) && s.staging.None?)
            && (branch.AfterCommit? <==> After(s) && s.legacy.Some?)
            && (branch.NoMigration? <==> After(s) && s.legacy.None?)
  {
    EveryCombinationIsHandled(origin, events, s);
    InvHolds(origin, events, s);
  }

  /** Whatever a start cannot inspect, it takes a branch that its phase allows, or one
      it leaves before it changes more than a directory's closing; and it takes the
      branch of a console layout alone exactly when it sees one and neither of the
      other directories. */
  lemma DispatchIsSafe(origin: ConsoleHost, events: seq<Event>, s: State, watch: Watch)
    requires Reaches(origin, events, s)
    ensures match Dispatch(Seen(s, watch))
            case InBetween => Between(s) && HasRecord(s)
            case Beside => s.staging.Some? && (Before(s) || (Between(s) && !watch(InspectDataRoot).Done?))
            case AfterCommit => s.legacy.Some? && (After(s) || (Between(s) && !watch(InspectDataRoot).Done?))
            case ConsoleAlone => Before(s) || !SeesTruly(watch)
            case _ => true
    ensures SeesTruly(watch) && Governing(s).Some? ==>
      (Dispatch(Seen(s, watch)).ConsoleAlone? <==> Before(s) && !watch(InspectStaging).Done?)
  {
    EveryCombinationIsHandled(origin, events, s);
    InvHolds(origin, events, s);
  }

  /** What the branches of a migration seen rely on. */
  lemma InProgress(origin: ConsoleHost, events: seq<Event>, s: State, watch: Watch)
    requires Reaches(origin, events, s)
    ensures match Dispatch(Seen(s, watch))
            case InBetween => Between(s) && HasRecord(s)
            case Beside =>
              && s.staging.Some? && (Before(s) || HasRecord(s)) && (Governing(s).Some? ==> HasRecord(s))
              && (Quiet(watch) ==> Before(s))
            case AfterCommit => s.legacy.Some? && (Quiet(watch) ==> After(s))
            case _ => true
  {
    DispatchIsSafe(origin, events, s, watch);
    InvHolds(origin, events, s);
  }

  /** What a change leads to, whatever is remembered of the second rename. */
  method Carry(s: State, ghost disk: State, e: Event) returns (t: State, ghost after: State)
    requires s == disk.(secondFailed := true) && Enabled(disk, e)
    ensures after == Apply(disk, e)
    ensures after == State(t.product, disk.productStray, t.dataRoot, t.staging, t.legacy, after.secondFailed)
  {
    FlagIsHistory(disk, e);
    t, after := Next(s, e).value, Apply(disk, e);
  }

  class Host {
    var product: DirSecurity
    const productStray: bool
    var dataRoot: Option<Dir>
    var staging: Option<Dir>
    var legacy: Option<Dir>
    /** Not on the disk: no check reads it. */
    ghost var secondFailed: bool
    /** The host as the console runbook left it, and every change since. */
    ghost const origin: ConsoleHost
    ghost var events: seq<Event>

    ghost function Disk(): State
      reads this
    {
      State(product, productStray, dataRoot, staging, legacy, secondFailed)
    }

    ghost predicate Valid()
      reads this
    {
      Reaches(origin, events, Disk())
    }

    constructor (host: ConsoleHost)
      ensures Valid() && origin == host && Disk() == host && events == []
    {
      product, productStray := host.product, host.productStray;
      dataRoot, staging, legacy := host.dataRoot, host.staging, host.legacy;
      secondFailed := host.secondFailed;
      origin, events := host, [];
      new;
      ReachesStart(host);
    }

    /** Windows carries out one atomic change. */
    method Do(e: Event)
      requires Valid() && Enabled(Disk(), e)
      modifies this
      ensures Valid() && events == old(events) + [e]
      ensures Disk() == Apply(old(Disk()), e)
    {
      ReachesOneMore(origin, events, Disk(), e);
      var s;
      ghost var after;
      s, after := Carry(State(product, productStray, dataRoot, staging, legacy, true), Disk(), e);
      product, dataRoot, staging, legacy := s.product, s.dataRoot, s.staging, s.legacy;
      secondFailed := after.secondFailed;
      events := events + [e];
    }

    // ------------------------------------------------- the route's steps

    /** Item 2.1 comes to close `<P>`. */
    predicate ClosesProduct(watch: Watch)
      reads this
    {
      watch(CloseProductRoot).Done? && Closable(product)
    }

    /** Item 2.1. Something is done exactly when `<P>` is closed, and nothing changes
        when it and the data root were. */
    method CloseDirectories(watch: Watch) returns (stop: Option<Stop>)
      requires Valid()
      modifies this
      ensures Valid() && old(events) <= events
      ensures staging == old(staging) && legacy == old(legacy)
      ensures Before(Disk()) <==> old(Before(Disk()))
      ensures |events| == |old(events)| <==> !old(ClosesProduct(watch))
      ensures |events| == |old(events)| ==> Disk() == old(Disk()) && events == old(events)
      ensures old(ClosesProduct(watch)) ==> product.Closed?
      ensures old(AreClosed(Disk())) ==> Disk() == old(Disk())
      ensures stop.None? ==> old(ClosesProduct(watch))
      ensures stop.None? ==> product.Closed? && dataRoot.Some? && dataRoot.value.security.Closed?
      ensures
        (&& Quiet(watch) && old(dataRoot).Some? && Closable(old(product))
         && Closable(old(dataRoot.value.security))) ==> stop.None?
    {
      var fate := watch(CloseProductRoot);
      if !fate.Done? { return Some(Cut(fate, SERVICE_LOG, StepFailed)); }
      if !Closable(product) { return Some(Refused(SERVICE_LOG, StepFailed)); }
      Do(CloseProduct);
      fate := watch(CloseDataRoot);
      if !fate.Done? { return Some(Cut(fate, SERVICE_LOG, StepFailed)); }
      if dataRoot.None? || !Closable(dataRoot.value.security) { return Some(Refused(SERVICE_LOG, StepFailed)); }
      Do(CloseData);
      return None;
    }

    /** What a creation cut short left behind goes first. */
    method DeleteInterrupted(watch: Watch) returns (stop: Option<Stop>)
      requires Valid() && Before(Disk()) && staging.Some? && !HasRecord(Disk())
      modifies this
      ensures Valid() && Before(Disk()) && old(events) <= events
      ensures dataRoot == old(dataRoot) && product == old(product)
      ensures stop.None? ==> staging.None?
      ensures Quiet(watch) ==> stop.None?
    {
      var fate := watch(DeleteInterruptedStaging);
      if fate.Done? {
        Do(DeleteStaging);
        return None;
      }
      if fate.torn {
        Do(ShrinkStaging(fate.left));
      }
      return Some(Cut(fate, 5, StepFailed));
    }

    /** Item 2.2. Nothing changes. */
    method CheckWhatIsThere(recorded: bool, watch: Watch) returns (stop: Option<Stop>)
      requires dataRoot.Some?
      ensures stop.None? ==> EntriesPass(Disk(), recorded)
      ensures Quiet(watch) && EntriesPass(Disk(), recorded) ==> stop.None?
    {
      var d := dataRoot.value;
      var fate := watch(ListRoot);
      if !fate.Done? { return Some(Cut(fate, 5, StepFailed)); }
      if productStray || legacy.Some? || (staging.Some? && !recorded) { return Some(Refused(5, StepFailed)); }
      if d.stray || d.identity.Some? || !d.record.NoRecord? || !(REQUIRED <= d.files.Keys) {
        return Some(Refused(5, StepFailed));
      }
      for i := 0 to |CHECK_ORDER|
        invariant forall j | 0 <= j < i :: CHECK_ORDER[j] in d.files ==> d.files[CHECK_ORDER[j]].plain
      {
        var name := CHECK_ORDER[i];
        if name in d.files {
          fate := watch(Check(name));
          if !fate.Done? { return Some(Cut(fate, 5, StepFailed)); }
          if !d.files[name].plain { return Some(Refused(5, StepFailed)); }
        }
      }
      forall n | n in d.files ensures d.files[n].plain {
        assert exists j :: 0 <= j < |CHECK_ORDER| && CHECK_ORDER[j] == n by { InCheckOrder(n); }
      }
      return None;
    }

    /** Item 2.3: each file read once, then checked. Nothing changes. */
    method ReadEachFile(request: Request, recorded: Option<Record>, now: int, watch: Watch)
      returns (r: Result<Verified, Stop>)
      requires Before(Disk()) && REQUIRED <= dataRoot.value.files.Keys
      ensures r.Success? ==>
        && FilesPass(dataRoot.value.files, request, recorded, now)
        && HoldsIdentity(dataRoot.value.files, r.value.agentId, r.value.key)
      ensures Quiet(watch) && FilesPass(dataRoot.value.files, request, recorded, now) ==> r.Success?
    {
      var f := dataRoot.value.files;
      for i := 0 to |CHECK_ORDER| {
        if CHECK_ORDER[i] in f && CHECK_ORDER[i] != Temporary {
          var fate := watch(Read(CHECK_ORDER[i]));
          if !fate.Done? { return Failure(Cut(fate, 5, StepFailed)); }
        }
      }
      if f[Config].content != ConfigText(ConsolePaths) { return Failure(Refused(2, StepFailed)); }
      if f[Anchor].content != AnchorPem(request.fingerprints) { return Failure(Refused(6, StepFailed)); }
      var id := f[Identity].content;
      if !id.IdentityJson? { return Failure(Refused(5, StepFailed)); }
      if f[Key].content != SealedKey(id.key) { return Failure(Refused(5, StepFailed)); }
      if recorded.Some? && (recorded.value.key != id.key || recorded.value.agentId != id.agentId) {
        return Failure(Refused(5, StepFailed));
      }
      if f[Cert].content != CertPem(id.agentId, id.key) { return Failure(Refused(5, StepFailed)); }
      if id.expiresAt <= now { return Failure(Refused(5, StepFailed)); }
      return Success(Verified(id.agentId, id.key));
    }

    /** Item 2.4. */
    method RestrictFiles(watch: Watch) returns (stop: Option<Stop>)
      requires Valid() && Before(Disk())
      modifies this
      ensures Valid() && Before(Disk()) && old(events) <= events
      ensures staging == old(staging) && product == old(product)
      ensures dataRoot.value == old(dataRoot.value).(files := dataRoot.value.files)
      ensures dataRoot.value.files.Keys == old(dataRoot.value.files.Keys)
      ensures stop.None? ==> AllRestricted(dataRoot.value.files)
      ensures Quiet(watch) ==> stop.None?
    {
      for i := 0 to |CHECK_ORDER|
        invariant Valid() && Before(Disk()) && old(events) <= events
        invariant staging == old(staging) && product == old(product)
        invariant dataRoot.value == old(dataRoot.value).(files := dataRoot.value.files)
        invariant dataRoot.value.files.Keys == old(dataRoot.value.files.Keys)
        invariant forall j | 0 <= j < i :: CHECK_ORDER[j] in dataRoot.value.files ==>
          !dataRoot.value.files[CHECK_ORDER[j]].security.ByConsole?
      {
        var name := CHECK_ORDER[i];
        if name in dataRoot.value.files {
          var fate := watch(Restrict(name));
          if !fate.Done? { return Some(Cut(fate, 5, StepFailed)); }
          Do(RestrictFile(name));
          fate := watch(Point.Restricted(name));
          if !fate.Done? { return Some(Cut(fate, 5, StepFailed)); }
        }
      }
      forall n | n in dataRoot.value.files ensures !dataRoot.value.files[n].security.ByConsole? {
        InCheckOrder(n);
      }
      return None;
    }

    /** The record is replaced whole through a temporary file, or not at all. */
    method Rewrite(record: Record, fate: Fate) returns (done: bool)
      requires Valid() && Enabled(Disk(), ReplaceRecord(record))
      modifies this
      ensures Valid() && old(events) <= events
      ensures done == fate.Done?
      ensures Disk() == old(Disk()).(staging := staging) && staging.Some?
      ensures done ==> staging.value == old(staging.value).(record := Recorded(record), rewriteLeft := false)
      ensures !done ==> staging.value == old(staging.value).(rewriteLeft := staging.value.rewriteLeft)
    {
      done := fate.Done?;
      if done {
        Do(ReplaceRecord(record));
      } else if fate.torn {
        Do(LeaveRewrite);
      }
    }

    /** A new staged file outside `identity\`: whole, torn, or not there. */
    method StageShared(name: Name, content: Content, fate: Fate) returns (stop: Option<Stop>)
      requires Valid() && Before(Disk()) && HasRecord(Disk())
      requires name in SHARED_FILES && name !in staging.value.files
      modifies this
      ensures Valid() && old(events) <= events
      ensures Disk() == old(Disk()).(staging := staging) && staging.Some?
      ensures stop.None? <==> fate.Done?
      ensures stop.None? ==>
        staging.value == old(staging.value).(files := old(staging.value.files)[name := Staged(name, content)])
    {
      if fate.Done? {
        Do(StageFile(name, content));
        return None;
      }
      if fate.torn {
        Do(StageFile(name, Torn));
      }
      return Some(Cut(fate, 5, StepFailed));
    }

    /** A new file of the staged `identity\`. */
    method StageIdentityOne(name: Name, content: Content, fate: Fate) returns (stop: Option<Stop>)
      requires Valid() && Before(Disk()) && HasRecord(Disk())
      requires staging.value.identity.Some?
      requires name in IDENTITY_FILES && name !in staging.value.identity.value
      modifies this
      ensures Valid() && old(events) <= events
      ensures Disk() == old(Disk()).(staging := staging) && staging.Some?
      ensures stop.None? <==> fate.Done?
      ensures stop.None? ==>
        staging.value == old(staging.value).(identity := Some(old(staging.value.identity.value)[name := Staged(name, content)]))
    {
      if fate.Done? {
        Do(StageIdentityFile(name, content));
        return None;
      }
      if fate.torn {
        Do(StageIdentityFile(name, Torn));
      }
      return Some(Cut(fate, 5, StepFailed));
    }

    /** Item 2.5: the record, then the staged tree, all of it checked. */
    method RecordAndStage(request: Request, attempt: Attempt, verified: Verified, watch: Watch)
      returns (r: Result<Record, Stop>)
      requires Valid() && Before(Disk())
      requires HoldsIdentity(dataRoot.value.files, verified.agentId, verified.key)
      requires !attempt.Continued? ==> staging.None? && AreClosed(Disk())
      requires attempt.Continued? ==>
        staging.Some? && staging.value.record == Recorded(attempt.record) && attempt.record.AsksFor(request)
      modifies this
      ensures Valid() && Before(Disk()) && old(events) <= events
      ensures dataRoot == old(dataRoot) && product == old(product)
      ensures r.Success? ==>
        && staging.Some? && staging.value.record == Recorded(r.value) && !r.value.reversalPending
        && IsInstalled(staging.value, r.value) && IsRecordOf(r.value, dataRoot.value.files)
      ensures Quiet(watch) ==> r.Success?
    {
      var record := Record(request.choice, request.fingerprints, verified.agentId, verified.key,
                           Ids(dataRoot.value.files), false, []);
      var stop;
      if attempt.Continued? {
        stop := ReuseStaging(record, watch);
      } else {
        stop := MakeStaging(record, watch);
      }
      if stop.Some? { return Failure(stop.value); }
      stop := StageTree(record, watch);
      if stop.Some? { return Failure(stop.value); }
      var fate := watch(CheckStaged);
      if !fate.Done? { return Failure(Cut(fate, 5, StepFailed)); }
      if !IsInstalled(staging.value, record) { return Failure(Refused(5, StepFailed)); }
      return Success(record);
    }

    /** A continued migration keeps the staging directory and its record, which
        loses any reversal mark, and clears the rest. */
    method ReuseStaging(record: Record, watch: Watch) returns (stop: Option<Stop>)
      requires Valid() && Before(Disk()) && HasRecord(Disk())
      requires IsRecordOf(record, dataRoot.value.files) && !record.reversalPending
      requires staging.value.record.record.choice == record.choice
      requires staging.value.record.record.fingerprints == record.fingerprints
      modifies this
      ensures Valid() && Before(Disk()) && old(events) <= events
      ensures dataRoot == old(dataRoot) && product == old(product)
      ensures stop.None? ==> staging == Some(EMPTY_STAGING.(record := Recorded(record)))
      ensures Quiet(watch) ==> stop.None?
    {
      BeforeFacts(origin, events, Disk());
      var fate := watch(WriteRecord);
      var done := Rewrite(record, fate);
      if !done { return Some(Cut(fate, 5, StepFailed)); }
      fate := watch(Clear);
      if fate.Done? {
        Do(ClearStaged(Left({}, None, true, false)));
        assert staging.value.files == map[];
        return None;
      }
      if fate.torn {
        Do(ClearStaged(fate.left.(record := true)));
      }
      return Some(Cut(fate, 5, StepFailed));
    }

    /** A new staging directory, and its record before anything else in it. */
    method MakeStaging(record: Record, watch: Watch) returns (stop: Option<Stop>)
      requires Valid() && Before(Disk()) && staging.None? && AreClosed(Disk())
      requires IsRecordOf(record, dataRoot.value.files) && !record.reversalPending
      modifies this
      ensures Valid() && Before(Disk()) && old(events) <= events
      ensures dataRoot == old(dataRoot) && product == old(product)
      ensures stop.None? ==> staging == Some(EMPTY_STAGING.(record := Recorded(record)))
      ensures Quiet(watch) ==> stop.None?
    {
      var fate := watch(Point.CreateStaging);
      if !fate.Done? { return Some(Cut(fate, 5, StepFailed)); }
      Do(Event.CreateStaging);
      fate := watch(WriteRecord);
      if fate.Done? {
        Do(PutRecord(record));
        return None;
      }
      if fate.torn {
        Do(TearRecord);
      }
      return Some(Cut(fate, 5, StepFailed));
    }

    /** The staged files, each new, in the order of item 2.5. */
    method StageTree(record: Record, watch: Watch) returns (stop: Option<Stop>)
      requires Valid() && Before(Disk())
      requires staging == Some(EMPTY_STAGING.(record := Recorded(record)))
      requires HoldsIdentity(dataRoot.value.files, record.agentId, record.key)
      modifies this
      ensures Valid() && old(events) <= events
      ensures Disk() == old(Disk()).(staging := staging) && staging.Some?
      ensures stop.None? ==> staging.value.record == Recorded(record) && IsInstalled(staging.value, record)
      ensures Quiet(watch) ==> stop.None?
    {
      stop := StageShared(Config, ConfigText(InstalledPaths), watch(Stage(Config)));
      if stop.Some? { return; }
      stop := StageShared(Anchor, AnchorPem(record.fingerprints), watch(Stage(Anchor)));
      if stop.Some? { return; }
      stop := StageIdentityTree(record, watch);
    }

    /** `identity\` and the verified bytes of its three files, unchanged. */
    method StageIdentityTree(record: Record, watch: Watch) returns (stop: Option<Stop>)
      requires Valid() && Before(Disk()) && HasRecord(Disk()) && staging.value.identity.None?
      requires HoldsIdentity(dataRoot.value.files, record.agentId, record.key)
      modifies this
      ensures Valid() && old(events) <= events
      ensures Disk() == old(Disk()).(staging := staging) && staging.Some?
      ensures stop.None? ==>
        && staging.value.identity.Some? && HoldsIdentity(staging.value.identity.value, record.agentId, record.key)
        && staging.value == old(staging.value).(identity := staging.value.identity)
      ensures Quiet(watch) ==> stop.None?
    {
      var f := dataRoot.value.files;
      var fate := watch(StageIdentity);
      if !fate.Done? { return Some(Cut(fate, 5, StepFailed)); }
      Do(StageIdentityDir);
      stop := StageIdentityOne(Cert, f[Cert].content, watch(Stage(Cert)));
      if stop.Some? { return; }
      stop := StageIdentityOne(Key, f[Key].content, watch(Stage(Key)));
      if stop.Some? { return; }
      stop := StageIdentityOne(Identity, f[Identity].content, watch(Stage(Identity)));
    }

    /** Item 2.6: two renames; a failed second one is recorded and reversed. */
    method Commit(record: Record, watch: Watch) returns (stop: Option<Stop>)
      requires Valid() && Enabled(Disk(), Event.FirstRename)
      requires staging.value.record == Recorded(record) && EntriesPass(Disk(), true)
      modifies this
      ensures Valid() && old(events) <= events && product == old(product)
      ensures stop.None? ==> After(Disk()) && dataRoot == old(staging) && legacy == old(dataRoot)
      ensures watch(Point.SecondRename).Fails? && Reversible(watch) ==> stop.Some? && dataRoot == old(dataRoot)
      ensures Quiet(watch) ==> stop.None?
    {
      var fate := watch(Point.FirstRename);
      if !fate.Done? { return Some(Cut(fate, 5, StepFailed)); }
      fate := watch(ListAgain);
      if !fate.Done? { return Some(Cut(fate, 5, StepFailed)); }
      if productStray || dataRoot.value.stray || !(REQUIRED <= dataRoot.value.files.Keys) {
        return Some(Refused(5, StepFailed));
      }
      Do(Event.FirstRename);
      stop := SecondHalf(record, watch);
    }

    /** The second rename, or the record of its failure and the reversal. */
    method SecondHalf(record: Record, watch: Watch) returns (stop: Option<Stop>)
      requires Valid() && Between(Disk()) && staging.value.record == Recorded(record) && !record.reversalPending
      modifies this
      ensures Valid() && old(events) <= events && product == old(product)
      ensures stop.None? <==> watch(Point.SecondRename).Done?
      ensures stop.None? ==> After(Disk()) && dataRoot == old(staging) && legacy == old(legacy)
      ensures watch(Point.SecondRename).Fails? && Reversible(watch) ==>
        stop == Some(Refused(5, Reversed)) && Before(Disk()) && dataRoot == old(legacy)
    {
      BetweenFacts(origin, events, Disk());
      var fate := watch(Point.SecondRename);
      if fate.Done? {
        Do(Event.SecondRename);
        return None;
      }
      if fate.Crashes? { return Some(Crashed); }
      var s := RecordAndReverse(record, watch);
      return Some(s);
    }

    /** After a failed second rename: its reversal recorded, then made. */
    method RecordAndReverse(record: Record, watch: Watch) returns (stop: Stop)
      requires Valid() && Between(Disk()) && staging.value.record == Recorded(record)
      modifies this
      ensures Valid() && old(events) <= events && product == old(product)
      ensures Reversible(watch) ==> stop == Refused(5, Reversed) && Before(Disk()) && dataRoot == old(legacy)
    {
      Do(SecondRenameFails);
      var marked := record.(reversalPending := true);
      var fate := watch(RecordReversal);
      var done := Rewrite(marked, fate);
      if !done { return Cut(fate, 5, BetweenTheRenames); }
      stop := Reverse(marked, watch);
    }

    /** The legacy directory renamed back and the mark cleared. */
    method Reverse(record: Record, watch: Watch) returns (stop: Stop)
      requires Valid() && Enabled(Disk(), Event.RenameBack) && staging.value.record == Recorded(record)
      modifies this
      ensures Valid() && old(events) <= events && product == old(product)
      ensures watch(Point.RenameBack).Done? && watch(ClearReversal).Done? ==>
        && stop == Refused(5, Reversed) && Before(Disk()) && dataRoot == old(legacy)
        && staging.Some? && staging.value.record == Recorded(record.(reversalPending := false))
    {
      BetweenFacts(origin, events, Disk());
      var fate := watch(Point.RenameBack);
      if !fate.Done? { return Cut(fate, 5, BetweenTheRenames); }
      Do(Event.RenameBack);
      fate := watch(ClearReversal);
      var done := Rewrite(record.(reversalPending := false), fate);
      if fate.Crashes? { return Crashed; }
      return Refused(5, Reversed);
    }

    // ---------------------------------------------------------- the start

    /** The check of `<P>` and the data root that any start makes. */
    predicate DataDirectoriesPass(watch: Watch)
      reads this
    {
      && watch(CheckProduct).Done? && PassesDirectoryCheck(product)
      && watch(CheckData).Done? && (dataRoot.Some? ==> PassesDirectoryCheck(dataRoot.value.security))
    }

    /** The first of the two directories that does not pass, and how the start ends. */
    method CheckDirectories(watch: Watch) returns (stop: Option<Stop>)
      ensures stop.None? <==> DataDirectoriesPass(watch)
    {
      var fate := watch(CheckProduct);
      if !fate.Done? { return Some(Cut(fate, SERVICE_LOG, DataDirectories)); }
      if !PassesDirectoryCheck(product) { return Some(Refused(SERVICE_LOG, DataDirectories)); }
      fate := watch(CheckData);
      if !fate.Done? { return Some(Cut(fate, SERVICE_LOG, DataDirectories)); }
      if dataRoot.Some? && !PassesDirectoryCheck(dataRoot.value.security) {
        return Some(Refused(SERVICE_LOG, DataDirectories));
      }
      return None;
    }

    /** Item 2 up to its step 2.4: everything that leaves the staging directory
        alone, but for one that holds no record. */
    method CheckAndRestrict(request: Request, attempt: Attempt, now: int, watch: Watch)
      returns (r: Result<Verified, Stop>)
      requires Valid()
      requires attempt.Abandoned? ==> Before(Disk()) && staging.Some? && !HasRecord(Disk())
      requires attempt.Continued? ==> staging.Some? && staging.value.record == Recorded(attempt.record)
      modifies this
      ensures Valid() && old(events) <= events
      ensures |events| == |old(events)| <==> !old(ClosesProduct(watch))
      ensures |events| == |old(events)| ==> Disk() == old(Disk()) && events == old(events)
      ensures old(ClosesProduct(watch)) ==> product.Closed?
      ensures attempt.Fresh? && old(IsFurther(Disk())) ==> r.Failure? && Disk() == old(Disk())
      ensures !attempt.Abandoned? ==> staging == old(staging)
      ensures r.Success? ==>
        old(Before(Disk())) && old(ClosesProduct(watch)) && (attempt.Fresh? ==> old(staging).None?)
      ensures r.Success? ==>
        && Before(Disk()) && product.Closed? && dataRoot.value.security.Closed?
        && EntriesPass(Disk(), attempt.Continued?) && AllRestricted(dataRoot.value.files)
        && HoldsIdentity(dataRoot.value.files, r.value.agentId, r.value.key)
      ensures
        (&& Quiet(watch) && old(Before(Disk())) && Migratable(origin, request, now)
         && (attempt.Fresh? ==> old(staging).None?)) ==> r.Success?
    {
      if Before(Disk()) {
        BeforeFacts(origin, events, Disk());
      }
      if IsFurther(Disk()) {
        StagedIsClosed(origin, events, Disk());
      }
      var stop := CloseDirectories(watch);
      if stop.Some? { return Failure(stop.value); }
      if attempt.Abandoned? {
        stop := DeleteInterrupted(watch);
        if stop.Some? { return Failure(stop.value); }
      }
      r := CheckAll(request, attempt, now, watch);
      if r.Failure? { return; }
      stop := RestrictVerified(r.value, watch);
      if stop.Some? { return Failure(stop.value); }
    }

    /** Item 2.4, which leaves what was verified as it is. */
    method RestrictVerified(verified: Verified, watch: Watch) returns (stop: Option<Stop>)
      requires Valid() && Before(Disk()) && AllPlain(dataRoot.value.files)
      requires HoldsIdentity(dataRoot.value.files, verified.agentId, verified.key)
      modifies this
      ensures Valid() && Before(Disk()) && old(events) <= events
      ensures staging == old(staging) && product == old(product)
      ensures dataRoot.value == old(dataRoot.value).(files := dataRoot.value.files)
      ensures dataRoot.value.files.Keys == old(dataRoot.value.files.Keys) && AllPlain(dataRoot.value.files)
      ensures HoldsIdentity(dataRoot.value.files, verified.agentId, verified.key)
      ensures stop.None? ==> AllRestricted(dataRoot.value.files)
      ensures Quiet(watch) ==> stop.None?
    {
      ghost var files := dataRoot.value.files;
      BeforeFacts(origin, events, Disk());
      stop := RestrictFiles(watch);
      BeforeFacts(origin, events, Disk());
      SameIdentity(files, origin.dataRoot.value.files, verified.agentId, verified.key);
      SameIdentity(dataRoot.value.files, origin.dataRoot.value.files, verified.agentId, verified.key);
    }

    /** Items 2.2 and 2.3. Nothing changes. */
    method CheckAll(request: Request, attempt: Attempt, now: int, watch: Watch)
      returns (r: Result<Verified, Stop>)
      requires Valid() && dataRoot.Some?
      requires attempt.Continued? ==> staging.Some? && staging.value.record == Recorded(attempt.record)
      ensures r.Success? ==>
        && Before(Disk()) && EntriesPass(Disk(), attempt.Continued?)
        && HoldsIdentity(dataRoot.value.files, r.value.agentId, r.value.key)
      ensures
        (&& Quiet(watch) && Before(Disk()) && Migratable(origin, request, now)
         && (staging.Some? ==> attempt.Continued?)) ==> r.Success?
    {
      var recorded := if attempt.Continued? then Some(attempt.record) else None;
      if Before(Disk()) {
        BeforeFacts(origin, events, Disk());
        ghost var o := origin.dataRoot.value.files;
        SameIdentity(dataRoot.value.files, o, o[Identity].content.agentId, o[Identity].content.key);
      }
      var stop := CheckWhatIsThere(recorded.Some?, watch);
      if stop.Some? { return Failure(stop.value); }
      r := ReadEachFile(request, recorded, now, watch);
    }

    /** The data directories' check after a commit, which fails only when one of them
        cannot be inspected. */
    method CheckCommitted(watch: Watch) returns (r: Result<Prepared, Stop>)
      requires Valid() && After(Disk())
      ensures r == Success(Committed) <==> watch(CheckProduct).Done? && watch(CheckData).Done?
      ensures r.Success? ==> r.value.Committed?
    {
      AfterFacts(origin, events, Disk());
      var stop := CheckDirectories(watch);
      if stop.Some? { return Failure(stop.value); }
      return Success(Committed);
    }

    /** Item 2: the whole route, under the lock. */
    method Route(request: Request, attempt: Attempt, lock: Option<Stop>, now: int, watch: Watch)
      returns (r: Result<Prepared, Stop>)
      requires Valid()
      requires attempt.Abandoned? ==> Before(Disk()) && staging.Some? && !HasRecord(Disk())
      requires attempt.Continued? ==>
        staging.Some? && staging.value.record == Recorded(attempt.record) && attempt.record.AsksFor(request)
      modifies this
      ensures Valid() && old(events) <= events
      ensures lock.Some? ==> r == Failure(lock.value) && Disk() == old(Disk()) && events == old(events)
      // Something changes exactly when `<P>` comes to be closed, and then it is.
      ensures |events| == |old(events)| <==> lock.Some? || !old(ClosesProduct(watch))
      ensures |events| == |old(events)| ==> Disk() == old(Disk()) && events == old(events)
      ensures lock.None? && old(ClosesProduct(watch)) ==> product.Closed?
      ensures attempt.Fresh? && old(IsFurther(Disk())) ==> r.Failure? && Disk() == old(Disk())
      ensures r.Success? ==> r.value.Committed? && After(Disk())
      ensures r.Success? ==> old(Before(Disk())) && (attempt.Fresh? ==> old(staging).None?)
      ensures
        (&& Quiet(watch) && lock.None? && old(Before(Disk())) && Migratable(origin, request, now)
         && (attempt.Fresh? ==> old(staging).None?)) ==> r.Success?
    {
      if lock.Some? { return Failure(lock.value); }
      var verified := CheckAndRestrict(request, attempt, now, watch);
      if verified.Failure? { return Failure(verified.error); }
      r := StageAndCommit(request, attempt, verified.value, watch);
    }

    /** Items 2.5 and 2.6, on what the items before them accepted. */
    method StageAndCommit(request: Request, attempt: Attempt, verified: Verified, watch: Watch)
      returns (r: Result<Prepared, Stop>)
      requires Valid() && Before(Disk()) && product.Closed? && dataRoot.value.security.Closed?
      requires EntriesPass(Disk(), attempt.Continued?) && AllRestricted(dataRoot.value.files)
      requires HoldsIdentity(dataRoot.value.files, verified.agentId, verified.key)
      requires attempt.Continued? ==>
        staging.Some? && staging.value.record == Recorded(attempt.record) && attempt.record.AsksFor(request)
      modifies this
      ensures Valid() && old(events) <= events && product == old(product)
      ensures r.Success? ==> r.value.Committed? && After(Disk())
      ensures Quiet(watch) ==> r.Success?
    {
      var record := RecordAndStage(request, attempt, verified, watch);
      if record.Failure? { return Failure(record.error); }
      var stop := Commit(record.value, watch);
      if stop.Some? { return Failure(stop.value); }
      r := CheckCommitted(watch);
    }

    /** Staging was begun, and the console installation seems to be in place. */
    method BesideAConsoleLayout(request: Option<Request>, lock: Option<Stop>, now: int, watch: Watch)
      returns (r: Result<Prepared, Stop>)
      requires Valid() && staging.Some? && (Before(Disk()) || HasRecord(Disk()))
      modifies this
      ensures Valid() && old(events) <= events
      ensures lock.Some? || request.None? ==> events == old(events) && Disk() == old(Disk())
      ensures old(HasRecord(Disk())) && !Agrees(request, old(staging.value.record.record)) ==>
        r.Failure? && events == old(events) && Disk() == old(Disk())
      ensures r.Success? ==> r.value.Committed? && After(Disk())
      ensures
        (&& Quiet(watch) && lock.None? && request.Some? && old(Before(Disk())) && Migratable(origin, request.value, now)
         && (old(HasRecord(Disk())) ==> Agrees(request, old(staging.value.record.record)))) ==> r.Success?
    {
      var fate := watch(ReadRecord);
      if !fate.Done? { return Failure(Cut(fate, 5, RecordUnread)); }
      match staging.value.record {
        case Recorded(record) =>
          if request.None? { return Failure(Refused(5, Interrupted)); }
          if !record.AsksFor(request.value) { return Failure(Refused(2, NotTheRecorded)); }
          r := Route(request.value, Continued(record), lock, now, watch);
        case _ =>
          if request.None? { return Failure(Refused(5, Interrupted)); }
          r := Route(request.value, Abandoned, lock, now, watch);
      }
    }

    /** No data root: the commit is completed, or its reversal is. */
    method BetweenRenames(request: Option<Request>, lock: Option<Stop>, watch: Watch)
      returns (r: Result<Prepared, Stop>)
      requires Valid() && Between(Disk()) && HasRecord(Disk())
      modifies this
      ensures Valid() && old(events) <= events
      ensures lock.Some? || !Agrees(request, old(staging.value.record.record)) ==>
        r.Failure? && events == old(events) && Disk() == old(Disk())
      ensures r.Success? ==> r.value.Committed? && After(Disk())
      ensures
        (&& Quiet(watch) && lock.None? && Agrees(request, old(staging.value.record.record))) ==>
        if old(staging.value.record.record.reversalPending) then
          && r == Failure(Refused(5, Reversed)) && Before(Disk()) && staging.Some?
          && staging.value.record == Recorded(old(staging.value.record.record).(reversalPending := false))
        else
          r.Success?
    {
      BetweenFacts(origin, events, Disk());
      var fate := watch(ReadRecord);
      if !fate.Done? { return Failure(Cut(fate, 5, BetweenTheRenames)); }
      var record := staging.value.record.record;
      if request.Some? && !record.AsksFor(request.value) { return Failure(Refused(2, NotTheRecorded)); }
      if lock.Some? { return Failure(lock.value); }
      if record.reversalPending {
        var stop := Reverse(record, watch);
        return Failure(stop);
      }
      r := Complete(record, watch);
    }

    /** The staged tree checked again, and the second rename. */
    method Complete(record: Record, watch: Watch) returns (r: Result<Prepared, Stop>)
      requires Valid() && Between(Disk()) && staging.value.record == Recorded(record) && !record.reversalPending
      modifies this
      ensures Valid() && old(events) <= events
      ensures r.Success? ==> r.value.Committed? && After(Disk())
      ensures Quiet(watch) ==> r.Success?
    {
      BetweenFacts(origin, events, Disk());
      if !IsInstalled(staging.value, record) { return Failure(Refused(5, BetweenTheRenames)); }
      var fate := watch(CompleteCommit);
      if !fate.Done? { return Failure(Cut(fate, 5, BetweenTheRenames)); }
      Do(Event.SecondRename);
      r := CheckCommitted(watch);
    }

    /** A migration committed by an earlier start. */
    method CommittedBefore(request: Option<Request>, watch: Watch) returns (r: Result<Prepared, Stop>)
      requires Valid() && legacy.Some?
      ensures r.Success? ==>
        r.value.Committed? && After(Disk()) && Agrees(request, dataRoot.value.record.record)
      ensures Quiet(watch) && After(Disk()) && Agrees(request, dataRoot.value.record.record) ==> r.Success?
    {
      InvHolds(origin, events, Disk());
      var stop := CheckDirectories(watch);
      if stop.Some? { return Failure(stop.value); }
      var fate := watch(ReadRecord);
      if !fate.Done? { return Failure(Cut(fate, 2, RecordUnread)); }
      if dataRoot.None? || dataRoot.value.record.NoRecord? { return Failure(Refused(5, OtherCombination)); }
      if dataRoot.value.record.TornRecord? { return Failure(Refused(2, RecordUnread)); }
      if request.Some? && !dataRoot.value.record.record.AsksFor(request.value) {
        return Failure(Refused(2, NotTheRecorded));
      }
      return Success(Committed);
    }

    /** A console layout, as far as the start sees, and nothing else. */
    method ConsoleStart(request: Option<Request>, lock: Option<Stop>, now: int, watch: Watch)
      returns (r: Result<Prepared, Stop>)
      requires Valid()
      modifies this
      ensures Valid() && old(events) <= events
      ensures |events| == |old(events)| <==> request.None? || lock.Some? || !old(ClosesProduct(watch))
      ensures |events| == |old(events)| ==> Disk() == old(Disk()) && events == old(events)
      ensures |events| == |old(events)| || product.Closed?
      ensures old(IsFurther(Disk())) ==> Disk() == old(Disk()) && (request.Some? ==> r.Failure?)
      ensures r.Success? && request.Some? ==>
        r.value.Committed? && After(Disk()) && old(Before(Disk())) && old(staging).None?
      ensures request.None? ==>
        (r == Success(ConsoleLayout) <==> old(DataDirectoriesPass(watch))) && (r.Success? ==> r.value.ConsoleLayout?)
      ensures
        (&& Quiet(watch) && lock.None? && request.Some? && old(Before(Disk())) && old(staging).None?
         && Migratable(origin, request.value, now)) ==> r.Success?
    {
      if request.Some? {
        r := Route(request.value, Fresh, lock, now, watch);
      } else {
        var stop := CheckDirectories(watch);
        r := if stop.Some? then Failure(stop.value) else Success(ConsoleLayout);
      }
    }

    /** What a start without a migration goes by: the directories' check, and a record
        that can be read if there is one. */
    predicate PlainPasses(watch: Watch)
      reads this
    {
      && DataDirectoriesPass(watch) && watch(ReadRecord).Done?
      && (dataRoot.Some? ==> !dataRoot.value.record.TornRecord?)
    }

    /** Neither a console layout nor a migration in progress. */
    method PlainStart(request: Option<Request>, watch: Watch) returns (r: Result<Prepared, Stop>)
      ensures r.Success? <==> request.None? && PlainPasses(watch)
      ensures r.Success? ==> r.value.Plain?
    {
      if request.Some? { return Failure(Refused(2, NotMigrating)); }
      var stop := CheckDirectories(watch);
      if stop.Some? { return Failure(stop.value); }
      var fate := watch(ReadRecord);
      if !fate.Done? { return Failure(Cut(fate, 2, RecordUnread)); }
      if dataRoot.Some? && dataRoot.value.record.TornRecord? { return Failure(Refused(2, RecordUnread)); }
      return Success(Plain);
    }

    /** A start that sees a migration in progress, or one committed. */
    method GoOn(request: Option<Request>, lock: Option<Stop>, now: int, watch: Watch)
      returns (r: Result<Prepared, Stop>)
      requires Valid() && Branching(watch) in {InBetween, Beside, AfterCommit}
      modifies this
      ensures Valid() && old(events) <= events
      ensures lock.Some? || (old(Before(Disk())) && request.None?) ==> events == old(events) && Disk() == old(Disk())
      ensures old(Governing(Disk())).Some? && !Agrees(request, old(Governing(Disk())).value) ==>
        r.Failure? && events == old(events) && Disk() == old(Disk())
      ensures r.Success? ==> r.value.Committed? && After(Disk())
      ensures Quiet(watch) && lock.None? && old(Ready(Disk(), request, now)) ==> r.Success?
      ensures
        (&& Quiet(watch) && lock.None? && old(ReversalPending(Disk()))
         && Agrees(request, old(staging.value.record.record))) ==>
        && r == Failure(Refused(5, Reversed)) && Before(Disk()) && staging.Some?
        && staging.value.record == Recorded(old(staging.value.record.record).(reversalPending := false))
    {
      InProgress(origin, events, Disk(), watch);
      var sight := Seen(State(product, productStray, dataRoot, staging, legacy, false), watch);
      match Dispatch(sight) {
        case InBetween => r := BetweenRenames(request, lock, watch);
        case Beside => r := BesideAConsoleLayout(request, lock, now, watch);
        case _ => r := CommittedBefore(request, watch);
      }
    }

    /** A start that sees none. */
    method NotInProgress(request: Option<Request>, lock: Option<Stop>, now: int, watch: Watch)
      returns (r: Result<Prepared, Stop>)
      requires Valid() && Branching(watch) in {ConsoleAlone, NoMigration, Other}
      modifies this
      ensures Valid() && old(events) <= events
      ensures |events| == |old(events)| <==>
        !(old(Branching(watch)).ConsoleAlone? && request.Some? && lock.None? && old(ClosesProduct(watch)))
      ensures |events| == |old(events)| ==> Disk() == old(Disk()) && events == old(events)
      ensures |events| == |old(events)| || product.Closed?
      ensures old(IsFurther(Disk())) ==> Disk() == old(Disk()) && (request.Some? ==> r.Failure?)
      ensures r == Success(Plain) <==> old(Branching(watch)).NoMigration? && request.None? && old(PlainPasses(watch))
      ensures r == Success(ConsoleLayout) <==>
        old(Branching(watch)).ConsoleAlone? && request.None? && old(DataDirectoriesPass(watch))
      ensures r.Success? && r.value.Committed? ==> After(Disk())
      ensures
        (&& Quiet(watch) && lock.None? && request.Some? && old(Branching(watch)).ConsoleAlone? && old(Before(Disk()))
         && old(staging).None? && Migratable(origin, request.value, now)) ==> r == Success(Committed)
    {
      if Before(Disk()) {
        BeforeFacts(origin, events, Disk());
      }
      var sight := Seen(State(product, productStray, dataRoot, staging, legacy, false), watch);
      match Dispatch(sight) {
        case ConsoleAlone => r := ConsoleStart(request, lock, now, watch);
        case NoMigration => r := PlainStart(request, watch);
        case _ => r := Failure(Refused(5, OtherCombination));
      }
    }

    /** One start, up to its configuration. Each change it makes is one the protocol
        allows, so what `MigrationSafety` proves of every history holds whatever `watch`
        makes of it. */
    method Prepare(request: Option<Request>, lock: Option<Stop>, now: int, watch: Watch)
      returns (r: Result<Prepared, Stop>)
      requires Valid()
      modifies this
      ensures Valid() && old(events) <= events
      // Nothing changes without the lock, ...
      ensures lock.Some? ==> events == old(events) && Disk() == old(Disk())
      // ... on a console layout without arguments, ...
      ensures old(Before(Disk())) && request.None? ==> events == old(events) && Disk() == old(Disk())
      // ... or with arguments other than the recorded ones, which are refused, whatever
      // cannot be inspected; the closing of `<P>` is applied to it again exactly when the
      // start sees a console layout alone.
      ensures old(Governing(Disk())).Some? && !Agrees(request, old(Governing(Disk())).value) ==>
        && r.Failure? && Disk() == old(Disk())
        && (events == old(events) <==>
              !(old(Branching(watch)).ConsoleAlone? && lock.None? && old(ClosesProduct(watch))))
      // The other ways to go on, exactly.
      ensures r == Success(Plain) <==> old(Branching(watch)).NoMigration? && request.None? && old(PlainPasses(watch))
      ensures r == Success(ConsoleLayout) <==>
        old(Branching(watch)).ConsoleAlone? && request.None? && old(DataDirectoriesPass(watch))
      ensures r.Success? && r.value.Committed? ==> After(Disk())
      // A start without a fault commits, or makes the reversal it found recorded.
      ensures Quiet(watch) && lock.None? && old(Ready(Disk(), request, now)) ==> r == Success(Committed)
      ensures
        (&& Quiet(watch) && lock.None? && old(ReversalPending(Disk()))
         && Agrees(request, old(staging.value.record.record))) ==>
        && r == Failure(Refused(5, Reversed)) && Before(Disk()) && staging.Some?
        && staging.value.record == Recorded(old(staging.value.record.record).(reversalPending := false))
    {
      if Quiet(watch) {
        DispatchReadsThePhase(origin, events, Disk(), watch);
      }
      if Governing(Disk()).Some? {
        GovernedIsFurther(origin, events, Disk());
      }
      var sight := Seen(State(product, productStray, dataRoot, staging, legacy, false), watch);
      if Dispatch(sight) in {InBetween, Beside, AfterCommit} {
        r := GoOn(request, lock, now, watch);
      } else {
        r := NotInProgress(request, lock, now, watch);
      }
    }

    /** The branch a start takes. */
    ghost function Branching(watch: Watch): Branch
      reads this
    {
      Dispatch(Seen(Disk(), watch))
    }

    /** A fault-free start commits from here. */
    ghost predicate Ready(s: State, request: Option<Request>, now: int)
      reads this
    {
      || (Before(s) && request.Some? && Migratable(origin, request.value, now)
          && (HasRecord(s) ==> Agrees(request, s.staging.value.record.record)))
      || (Between(s) && HasRecord(s) && !s.staging.value.record.record.reversalPending
          && Agrees(request, s.staging.value.record.record))
      || (After(s) && s.legacy.Some? && Agrees(request, s.dataRoot.value.record.record))
    }

    static predicate ReversalPending(s: State) {
      Between(s) && HasRecord(s) && s.staging.value.record.record.reversalPending
    }

    /** However the migration was interrupted, the recorded arguments finish it in
        two fault-free starts, and in one unless a reversal is pending. */
    method Recover(request: Request, now: int, watch: Watch) returns (starts: nat)
      requires Valid() && Quiet(watch) && Migratable(origin, request, now)
      requires dataRoot.None? || Before(Disk())
      requires Governing(Disk()).Some? ==> Governing(Disk()).value.AsksFor(request)
      modifies this
      ensures Valid() && old(events) <= events && After(Disk())
      ensures 1 <= starts <= 2
      ensures starts == 2 <==> old(ReversalPending(Disk()))
    {
      DispatchReadsThePhase(origin, events, Disk(), watch);
      InvHolds(origin, events, Disk());
      var first := Prepare(Some(request), None, now, watch);
      if first == Success(Committed) { return 1; }
      var second := Prepare(Some(request), None, now, watch);
      return 2;
    }

    // ------------------------------------------------------ the old copies

    /** What becomes of one copy. */
    method OneCopy(name: Name, record: Record, watch: Watch) returns (reached: Reached)
      requires Valid() && After(Disk()) && legacy.Some? && name in legacy.value.files
      requires dataRoot.value.record == Recorded(record)
      modifies this
      ensures Valid() && old(events) <= events
      ensures reached.CutShort? ==> After(Disk()) && OnlyCopiesDiffer(old(Disk()), Disk())
      ensures !reached.CutShort? ==> Disk() == AfterCopy(old(Disk()), name, reached)
      ensures reached.Deleted? ==> record.choice.Remove?
      ensures reached.KeptRestricted? ==> record.choice.Keep?
      ensures Quiet(watch) ==> reached == (if record.choice.Remove? then Deleted else KeptRestricted)
    {
      reached := RestrictOne(name, record, watch);
      if !reached.KeptRestricted? || record.choice.Keep? { return; }
      RestrictThenRemove(old(Disk()), name);
      reached := RemoveOne(name, record, watch);
    }

    /** A copy that is still the recorded file loses its old security. */
    method RestrictOne(name: Name, record: Record, watch: Watch) returns (reached: Reached)
      requires Valid() && After(Disk()) && legacy.Some? && name in legacy.value.files
      requires dataRoot.value.record == Recorded(record)
      modifies this
      ensures Valid() && old(events) <= events
      ensures reached.CutShort? || reached == NotReached(false) || reached.KeptRestricted?
      ensures Disk() == AfterCopy(old(Disk()), name, reached)
      ensures Quiet(watch) ==> reached.KeptRestricted?
    {
      CopyIsChecked(origin, events, Disk(), name);
      var fate := watch(Point.Copy(name));
      if fate.Crashes? { return CutShort; }
      if fate.Fails? || !IsCheckedCopy(legacy.value.files[name], name, record) { return NotReached(false); }
      Do(RestrictCopy(name));
      return KeptRestricted;
    }

    /** A copy that still is the recorded file, looked at once more, goes. */
    method RemoveOne(name: Name, record: Record, watch: Watch) returns (reached: Reached)
      requires Valid() && After(Disk()) && legacy.Some? && IsRestrictedCopy(legacy.value.files, name)
      requires dataRoot.value.record == Recorded(record) && record.choice.Remove?
      modifies this
      ensures Valid() && old(events) <= events
      ensures reached.CutShort? || reached == NotReached(true) ==> Disk() == old(Disk())
      ensures reached.Deleted? ==> Disk() == AfterCopy(old(Disk()), name, Deleted)
      ensures reached.CutShort? || reached == NotReached(true) || reached.Deleted?
      ensures Quiet(watch) ==> reached.Deleted?
    {
      CopyIsChecked(origin, events, Disk(), name);
      var fate := watch(Delete(name));
      if fate.Crashes? { return CutShort; }
      if fate.Fails? || !IsCheckedCopy(legacy.value.files[name], name, record) { return NotReached(true); }
      Do(RemoveCopy(name));
      return Deleted;
    }

    /** Item 5, after `RUNNING`, when there is a legacy directory that counts. */
    method OldCopies(watch: Watch) returns (r: Option<Copies>)
      requires Valid() && After(Disk())
      modifies this
      ensures Valid() && old(events) <= events && After(Disk())
      ensures r.Some? && old(legacy).Some? && watch(InspectLegacy).Done? ==>
        && IsPass(old(Disk()), Disk(), r.value)
        && (watch(Point.RewriteRecord).Done? ==> dataRoot.value.record.record.copiesNotReached == r.value.notReached)
      ensures old(legacy).None? || !watch(InspectLegacy).Done? ==> events == old(events)
      ensures Quiet(watch) && old(dataRoot.value.record.record.choice.Remove?) ==> legacy.None?
      ensures Quiet(watch) && old(dataRoot.value.record.record.choice.Keep?) && old(legacy).Some? ==>
        legacy.Some? && legacy.value.files.Keys == old(legacy.value.files.Keys)
    {
      var fate := watch(ReadRecord);
      if !fate.Done? { return None; }
      AfterFacts(origin, events, Disk());
      if !Counts(legacy) || !watch(InspectLegacy).Done? { return Some(Copies([], [], [], false)); }
      r := PassOverCopies(watch);
    }

    /** Every copy gets its turn, whatever happens to the others. `None` when something
        ended the pass itself. */
    method PassOverCopies(watch: Watch) returns (r: Option<Copies>)
      requires Valid() && After(Disk()) && legacy.Some?
      modifies this
      ensures Valid() && old(events) <= events && After(Disk())
      ensures r.Some? ==> IsPass(old(Disk()), Disk(), r.value)
      ensures r.Some? && watch(Point.RewriteRecord).Done? ==>
        dataRoot.value.record.record.copiesNotReached == r.value.notReached
      ensures Quiet(watch) && old(dataRoot.value.record.record.choice.Remove?) ==> legacy.None?
      ensures Quiet(watch) && old(dataRoot.value.record.record.choice.Keep?) ==>
        && legacy.Some? && legacy.value.security.SystemDir?
        && legacy.value.files.Keys == old(legacy.value.files.Keys)
        && forall n | n in legacy.value.files :: IsRestrictedCopy(legacy.value.files, n)
    {
      var record := dataRoot.value.record.record;
      var directory := watch(RestrictLegacyDirectory);
      if directory.Crashes? { return None; }
      if directory.Done? {
        Do(RestrictLegacy);
      }
      ghost var start := Disk();
      var fate := watch(ListLegacy);
      if !fate.Done? { return None; }
      var cut, report := EachCopy(record, if directory.Done? then [] else [LegacyDirectory], watch);
      if cut { return None; }
      ghost var files := legacy.value.files;
      if report.notReached == [] {
        FullPass(report, record.choice, start.legacy.value.files, files);
      }
      var last;
      cut, last := LastStep(record, report, directory.Done?, watch);
      if cut { return None; }
      TellsStill(report, last, record.choice, start.legacy.value.files, files);
      return Some(last);
    }

    /** The loop over the legacy directory's objects. */
    method EachCopy(record: Record, notReached: seq<Entry>, watch: Watch) returns (cut: bool, report: Copies)
      requires Valid() && After(Disk()) && legacy.Some?
      requires dataRoot.value.record == Recorded(record)
      requires forall n :: Entry.Copy(n) !in notReached
      modifies this
      ensures Valid() && old(events) <= events && After(Disk())
      ensures OnlyCopiesDiffer(old(Disk()), Disk())
      ensures !cut ==> forall n :: Tells(report, record.choice, old(legacy.value.files), legacy.value.files, n)
      ensures !report.directoryRemoved
      ensures Quiet(watch) ==> !cut && report.notReached == notReached
    {
      report := Copies([], [], notReached, false);
      cut := false;
      for i := 0 to |COPY_ORDER|
        invariant Valid() && old(events) <= events && After(Disk())
        invariant OnlyCopiesDiffer(old(Disk()), Disk())
        invariant PassedBy(report, record.choice, old(legacy.value.files), legacy.value.files, i)
        invariant !report.directoryRemoved
        invariant Quiet(watch) ==> report.notReached == notReached
      {
        var name := COPY_ORDER[i];
        ghost var before := Disk();
        if name in legacy.value.files {
          var reached := OneCopy(name, record, watch);
          if reached.CutShort? { return true, report; }
          AfterCopyFacts(before, name, reached);
          NotingOne(report, i, reached, record.choice, old(legacy.value.files), before.legacy.value.files, legacy.value.files);
          report := Noted(report, name, reached);
        } else {
          PassedByAbsent(report, i, record.choice, old(legacy.value.files), legacy.value.files);
        }
      }
      PassedByAll(report, record.choice, old(legacy.value.files), legacy.value.files);
    }

    /** The directory goes if it may, and the record learns what was not reached. */
    method LastStep(record: Record, before: Copies, restricted: bool, watch: Watch) returns (cut: bool, report: Copies)
      requires Valid() && After(Disk()) && legacy.Some? && !before.directoryRemoved
      requires dataRoot.value.record == Recorded(record)
      requires restricted ==> legacy.value.security.SystemDir?
      modifies this
      ensures Valid() && old(events) <= events && After(Disk())
      ensures staging == old(staging) && (legacy == old(legacy) || legacy.None?)
      ensures report == before.(notReached := report.notReached, directoryRemoved := report.directoryRemoved)
      ensures report.notReached == before.notReached || report.notReached == before.notReached + [LegacyDirectory]
      ensures report.directoryRemoved <==> legacy.None?
      ensures legacy.None? ==> old(legacy.value.files) == map[]
      ensures !cut && watch(Point.RewriteRecord).Done? ==> dataRoot.value.record.record.copiesNotReached == report.notReached
      ensures Quiet(watch) ==> !cut && report.notReached == before.notReached
      ensures Quiet(watch) ==>
        (legacy.None? <==> restricted && record.choice.Remove? && old(legacy.value.files) == map[])
    {
      report := before;
      cut := false;
      var empty := false;
      if restricted && record.choice.Remove? {
        var fate := watch(ListLegacyAgain);
        if !fate.Done? { return true, report; }
        empty := legacy.value.files == map[];
      }
      if empty {
        var fate := watch(RemoveLegacyDirectory);
        if fate.Crashes? { return true, report; }
        if fate.Done? {
          Do(RemoveLegacy);
          report := report.(directoryRemoved := true);
        } else {
          report := report.(notReached := report.notReached + [LegacyDirectory]);
        }
      }
      if record.copiesNotReached != report.notReached {
        var fate := watch(Point.RewriteRecord);
        if fate.Done? {
          Do(Event.RewriteRecord(report.notReached));
        } else if fate.torn {
          Do(LeaveRewrite);
        }
      }
    }
  }

  lemma InCheckOrder(n: Name)
    ensures exists j :: 0 <= j < |CHECK_ORDER| && CHECK_ORDER[j] == n
  {
    assert CHECK_ORDER[match n case Config => 0 case Anchor => 1 case Cert => 2 case Key => 3 case Identity => 4 case Temporary => 5] == n;
  }
}
