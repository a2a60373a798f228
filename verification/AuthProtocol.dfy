/**
 Logins racing changes of a user's authority, over the two stores: the rows of
 `users` in Postgres and the session entries in Redis.

 A login reads the row, writes its session and reads the row again; a change
 commits with a raised version and then scans the sessions and deletes the
 user's. Each statement and each Redis command is one step, any number of logins,
 changes and session uses interleave, and any of them may fail at any command. A
 commit whose answer is lost is scanned for like one that was made; the server may
 make it, before that scan, during it or after, or never.
 */
module AuthProtocol {
  import opened Common

  type UserId = nat
  type Token = nat
  type Thread = nat

  datatype Status = Active | Disabled

  datatype Row = Row(role: string, status: Status, version: nat)

  /** A session entry: what a request's authority is read from. */
  datatype Entry = Entry(user: UserId, role: string)

  /** A token and the login that made it, with the row that login had read. */
  datatype Issue = Issue(login: Thread, user: UserId, row: Row)

  datatype Login =
    | Verified(user: UserId, row: Row)   // the row read, the credentials right
    | Created(token: Token)              // the session written
    | Revoking(token: Token)             // the second read saw a change
    | Kept(token: Token)                 // the second read agreed: the token is returned
    | Over                               // refused, or ended by a store failure

  /** `unreturned`: the keys of the scan's start that no batch has returned;
      `todo`: those returned and not looked at; `doomed`: the one found the user's. */
  datatype Change =
    | Committed(user: UserId)
    | Scanning(user: UserId, unreturned: set<Token>, todo: set<Token>, doomed: Option<Token>)
    | Finished(user: UserId)
    | Failed(user: UserId)

  /** A use between its read of the entry and its rewrite. */
  datatype Use = Reading(token: Token, entry: Entry)

  /** A commit without an answer, as it would change its user. */
  datatype Doubt = Doubt(role: string, status: Status)

  /** `late`: the changes whose commit was made after their scan began. */
  datatype State = State(
    users: map<UserId, Row>, sessions: map<Token, Entry>, issued: map<Token, Issue>,
    logins: map<Thread, Login>, changes: map<Thread, Change>, uses: map<Thread, Use>,
    doubts: map<Thread, Doubt>, late: set<Thread>)

  const EMPTY: State := State(map[], map[], map[], map[], map[], map[], map[], {})

  datatype Step =
    | CreateUser(user: UserId, role: string)
    | ReadRow(login: Thread, user: UserId)
    | CreateSession(login: Thread, token: Token)
    | ReadAgain(login: Thread)
    | RevokeOwn(login: Thread)
    | LoginFails(login: Thread)
    | Commit(change: Thread, user: UserId, role: string, status: Status)
    | CommitInDoubt(change: Thread, user: UserId, role: string, status: Status)   // its answer lost
    | Land(change: Thread)                          // a commit in doubt is made,
    | Abort(change: Thread)                         // or never will be
    | ScanStart(change: Thread)
    | ScanBatch(change: Thread, keys: set<Token>)
    | ScanGet(change: Thread, key: Token)
    | ScanDelete(change: Thread)
    | ScanEnd(change: Thread)
    | ScanFails(change: Thread)
    | UseRead(use: Thread, token: Token)
    | UseWrite(use: Thread)
    | Delete(token: Token)                          // a logout, an expiry, a use past the cap

  function Removed<K, V>(m: map<K, V>, k: K): map<K, V> {
    map x | x in m && x != k :: m[x]
  }

  function EntryOf(i: Issue): Entry {
    Entry(i.user, i.row.role)
  }

  /** What each step does, where it can happen. A full scan returns every key that
      was there from its start to its end; it may return others, and any twice. */
  function Next(s: State, step: Step): Option<State> {
    match step
    case CreateUser(u, role) =>
      if u !in s.users then Some(s.(users := s.users[u := Row(role, Active, 0)])) else None
    case ReadRow(l, u) =>
      if l !in s.logins && u in s.users && s.users[u].status.Active?
      then Some(s.(logins := s.logins[l := Verified(u, s.users[u])])) else None
    case CreateSession(l, t) =>
      if l in s.logins && s.logins[l].Verified? && t !in s.issued then
        var i := Issue(l, s.logins[l].user, s.logins[l].row);
        Some(s.(issued := s.issued[t := i], sessions := s.sessions[t := EntryOf(i)],
                logins := s.logins[l := Created(t)]))
      else None
    case ReadAgain(l) =>
      if l in s.logins && s.logins[l].Created? && s.logins[l].token in s.issued then
        var t := s.logins[l].token;
        var i := s.issued[t];
        var same := i.user in s.users && s.users[i.user].version == i.row.version && s.users[i.user].status.Active?;
        Some(s.(logins := s.logins[l := if same then Kept(t) else Revoking(t)]))
      else None
    case RevokeOwn(l) =>
      if l in s.logins && s.logins[l].Revoking? then
        Some(s.(sessions := Removed(s.sessions, s.logins[l].token), logins := s.logins[l := Over]))
      else None
    case LoginFails(l) =>
      if l in s.logins then Some(s.(logins := s.logins[l := Over])) else None
    case Commit(c, u, role, status) =>
      if c !in s.changes && u in s.users then
        Some(s.(users := s.users[u := Row(role, status, s.users[u].version + 1)],
                changes := s.changes[c := Committed(u)]))
      else None
    case CommitInDoubt(c, u, role, status) =>
      if c !in s.changes && u in s.users then
        Some(s.(changes := s.changes[c := Committed(u)], doubts := s.doubts[c := Doubt(role, status)]))
      else None
    case Land(c) =>
      if c in s.doubts && c in s.changes && s.changes[c].user in s.users then
        var u := s.changes[c].user;
        Some(s.(users := s.users[u := Row(s.doubts[c].role, s.doubts[c].status, s.users[u].version + 1)],
                doubts := Removed(s.doubts, c),
                late := if s.changes[c].Committed? then s.late else s.late + {c}))
      else None
    case Abort(c) => Some(s.(doubts := Removed(s.doubts, c)))
    case ScanStart(c) =>
      if c in s.changes && s.changes[c].Committed?
      then Some(s.(changes := s.changes[c := Scanning(s.changes[c].user, s.sessions.Keys, {}, None)])) else None
    case ScanBatch(c, keys) =>
      if c in s.changes && s.changes[c].Scanning? && s.changes[c].todo == {} && s.changes[c].doomed.None? then
        var scan := s.changes[c];
        Some(s.(changes := s.changes[c := scan.(unreturned := scan.unreturned - keys, todo := keys)]))
      else None
    case ScanGet(c, k) =>
      if c in s.changes && s.changes[c].Scanning? && k in s.changes[c].todo && s.changes[c].doomed.None? then
        var scan := s.changes[c];
        var found := k in s.sessions && s.sessions[k].user == scan.user;
        Some(s.(changes := s.changes[c := scan.(todo := scan.todo - {k}, doomed := if found then Some(k) else None)]))
      else None
    case ScanDelete(c) =>
      if c in s.changes && s.changes[c].Scanning? && s.changes[c].doomed.Some? then
        var scan := s.changes[c];
        Some(s.(sessions := Removed(s.sessions, scan.doomed.value), changes := s.changes[c := scan.(doomed := None)]))
      else None
    case ScanEnd(c) =>
      if c in s.changes && s.changes[c].Scanning? && s.changes[c].todo == {} && s.changes[c].doomed.None?
         && s.changes[c].unreturned !! s.sessions.Keys
      then Some(s.(changes := s.changes[c := Finished(s.changes[c].user)])) else None
    case ScanFails(c) =>
      if c in s.changes && !s.changes[c].Finished?
      then Some(s.(changes := s.changes[c := Failed(s.changes[c].user)])) else None
    case UseRead(x, t) =>
      if t in s.sessions then Some(s.(uses := s.uses[x := Reading(t, s.sessions[t])])) else None
    case UseWrite(x) =>
      if x in s.uses then
        var u := s.uses[x];
        Some(s.(sessions := if u.token in s.sessions then s.sessions[u.token := u.entry] else s.sessions,
                uses := Removed(s.uses, x)))
      else None
    case Delete(t) => Some(s.(sessions := Removed(s.sessions, t)))
  }

  ghost predicate IsRun(steps: seq<Step>, states: seq<State>) {
    && |states| == |steps| + 1 && states[0] == EMPTY
    && forall i {:trigger steps[i]} | 0 <= i < |steps| :: Next(states[i], steps[i]) == Some(states[i + 1])
  }

  // -------------------------------------------------------------- invariant

  /** Every session is one a login wrote, unchanged, and so is what a use read. */
  ghost predicate EntriesAreIssued(s: State) {
    && (forall t | t in s.sessions :: t in s.issued && s.sessions[t] == EntryOf(s.issued[t]))
    && (forall x | x in s.uses :: s.uses[x].token in s.issued && s.uses[x].entry == EntryOf(s.issued[s.uses[x].token]))
  }

  /** A row a login read is the user's, or one the user's version has passed. */
  predicate WasRead(s: State, u: UserId, row: Row) {
    && u in s.users && row.status.Active? && row.version <= s.users[u].version
    && (row.version == s.users[u].version ==> row == s.users[u])
  }

  ghost predicate RowsWereRead(s: State) {
    && (forall l | l in s.logins && s.logins[l].Verified? :: WasRead(s, s.logins[l].user, s.logins[l].row))
    && (forall t | t in s.issued :: WasRead(s, s.issued[t].user, s.issued[t].row))
  }

  /** A token belongs to one login. */
  ghost predicate TokensAreOwned(s: State) {
    && (forall t | t in s.issued :: s.issued[t].login in s.logins && !s.logins[s.issued[t].login].Verified?)
    && (forall l | l in s.logins && (s.logins[l].Created? || s.logins[l].Kept? || s.logins[l].Revoking?) ::
          s.logins[l].token in s.issued && s.issued[s.logins[l].token].login == l)
  }

  /** Change `c` has yet to delete the session `t`, or never will. */
  predicate WillDelete(s: State, c: Thread, t: Token) {
    && c in s.changes && t in s.issued && s.changes[c].user == s.issued[t].user
    && (c in s.late ||
        match s.changes[c]
        case Committed(_) => true
        case Scanning(_, unreturned, todo, doomed) => t in unreturned || t in todo || doomed == Some(t)
        case Finished(_) => false
        case Failed(_) => true)
  }

  predicate IsStale(s: State, t: Token) {
    t in s.issued && (s.issued[t].user in s.users ==> s.issued[t].row.version != s.users[s.issued[t].user].version)
  }

  predicate IsKept(s: State, t: Token) {
    t in s.issued && s.issued[t].login in s.logins && s.logins[s.issued[t].login] == Kept(t)
  }

  /** A session that was kept and went stale has a change that did not finish. */
  ghost predicate StaleIsDoomed(s: State) {
    forall t | t in s.sessions && IsKept(s, t) && IsStale(s, t) :: exists c :: WillDelete(s, c, t)
  }

  ghost predicate Inv(s: State) {
    EntriesAreIssued(s) && RowsWereRead(s) && TokensAreOwned(s) && StaleIsDoomed(s)
  }

  lemma EntryKept(s: State, step: Step, t: State, k: Token)
    requires EntriesAreIssued(s) && Next(s, step) == Some(t) && k in t.sessions
    ensures k in t.issued && t.sessions[k] == EntryOf(t.issued[k])
  {
  }

  lemma UseKept(s: State, step: Step, t: State, x: Thread)
    requires EntriesAreIssued(s) && Next(s, step) == Some(t) && x in t.uses
    ensures t.uses[x].token in t.issued && t.uses[x].entry == EntryOf(t.issued[t.uses[x].token])
  {
  }

  lemma EntriesKept(s: State, step: Step, t: State)
    requires EntriesAreIssued(s) && Next(s, step) == Some(t)
    ensures EntriesAreIssued(t)
  {
    forall k | k in t.sessions ensures k in t.issued && t.sessions[k] == EntryOf(t.issued[k]) {
      EntryKept(s, step, t, k);
    }
    forall x | x in t.uses
      ensures t.uses[x].token in t.issued && t.uses[x].entry == EntryOf(t.issued[t.uses[x].token])
    {
      UseKept(s, step, t, x);
    }
  }

  lemma LoginRowKept(s: State, step: Step, t: State, l: Thread)
    requires RowsWereRead(s) && Next(s, step) == Some(t) && l in t.logins && t.logins[l].Verified?
    ensures WasRead(t, t.logins[l].user, t.logins[l].row)
  {
  }

  lemma IssueRowKept(s: State, step: Step, t: State, k: Token)
    requires RowsWereRead(s) && Next(s, step) == Some(t) && k in t.issued
    ensures WasRead(t, t.issued[k].user, t.issued[k].row)
  {
  }

  lemma RowsKept(s: State, step: Step, t: State)
    requires RowsWereRead(s) && Next(s, step) == Some(t)
    ensures RowsWereRead(t)
  {
    forall l | l in t.logins && t.logins[l].Verified? ensures WasRead(t, t.logins[l].user, t.logins[l].row) {
      LoginRowKept(s, step, t, l);
    }
    forall k | k in t.issued ensures WasRead(t, t.issued[k].user, t.issued[k].row) {
      IssueRowKept(s, step, t, k);
    }
  }

  lemma OwnerKept(s: State, step: Step, t: State, k: Token)
    requires TokensAreOwned(s) && Next(s, step) == Some(t) && k in t.issued
    ensures t.issued[k].login in t.logins && !t.logins[t.issued[k].login].Verified?
  {
  }

  lemma OwnKept(s: State, step: Step, t: State, l: Thread)
    requires TokensAreOwned(s) && Next(s, step) == Some(t)
    requires l in t.logins && (t.logins[l].Created? || t.logins[l].Kept? || t.logins[l].Revoking?)
    ensures t.logins[l].token in t.issued && t.issued[t.logins[l].token].login == l
  {
  }

  lemma OwnersKept(s: State, step: Step, t: State)
    requires TokensAreOwned(s) && Next(s, step) == Some(t)
    ensures TokensAreOwned(t)
  {
    forall k | k in t.issued ensures t.issued[k].login in t.logins && !t.logins[t.issued[k].login].Verified? {
      OwnerKept(s, step, t, k);
    }
    forall l | l in t.logins && (t.logins[l].Created? || t.logins[l].Kept? || t.logins[l].Revoking?)
      ensures t.logins[l].token in t.issued && t.issued[t.logins[l].token].login == l
    {
      OwnKept(s, step, t, l);
    }
  }

  /** A change that was to delete a session still is, unless it just has. */
  lemma StillDeletes(s: State, step: Step, t: State, c: Thread, k: Token)
    requires Next(s, step) == Some(t) && WillDelete(s, c, k)
    requires k in s.issued && k in s.sessions && s.sessions[k] == EntryOf(s.issued[k])
    requires k in t.sessions
    ensures WillDelete(t, c, k)
  {
    assert k in t.issued && t.issued[k] == s.issued[k];
    if step.ScanStart? || step.ScanBatch? || step.ScanGet? || step.ScanDelete? || step.ScanEnd? || step.ScanFails? {
    } else {
      assert c in t.changes && t.changes[c] == s.changes[c];
    }
  }

  lemma KeptWasThere(s: State, step: Step, t: State, k: Token)
    requires EntriesAreIssued(s) && TokensAreOwned(s) && Next(s, step) == Some(t)
    requires k in t.sessions && IsKept(t, k)
    ensures k in s.sessions && k in s.issued && s.sessions[k] == EntryOf(s.issued[k])
  {
  }

  /** The step makes a change of `u`. */
  predicate Changes(s: State, step: Step, u: UserId) {
    || (step.Commit? && step.user == u)
    || (step.Land? && step.change in s.changes && s.changes[step.change].user == u)
  }

  /** A kept session goes stale only by the commit of a change of its user. */
  lemma StaleByCommit(s: State, step: Step, t: State, k: Token)
    requires Next(s, step) == Some(t) && k in s.issued && IsKept(t, k) && IsStale(t, k)
    requires TokensAreOwned(s) && s.issued[k].user in s.users
    ensures (IsKept(s, k) && IsStale(s, k)) || Changes(s, step, s.issued[k].user)
  {
    OneStep(s, step, t, k);
    if !Changes(s, step, s.issued[k].user) {
      RowStays(s, step, t, s.issued[k].user);
    }
  }

  lemma RowStays(s: State, step: Step, t: State, u: UserId)
    requires Next(s, step) == Some(t) && u in s.users && !Changes(s, step, u)
    ensures u in t.users && t.users[u] == s.users[u]
  {
  }

  lemma DoomKept(s: State, step: Step, t: State)
    requires Inv(s) && Next(s, step) == Some(t)
    ensures StaleIsDoomed(t)
  {
    forall k | k in t.sessions && IsKept(t, k) && IsStale(t, k)
      ensures exists c :: WillDelete(t, c, k)
    {
      KeptWasThere(s, step, t, k);
      assert WasRead(s, s.issued[k].user, s.issued[k].row);
      StaleByCommit(s, step, t, k);
      if IsKept(s, k) && IsStale(s, k) {
        var c :| WillDelete(s, c, k);
        StillDeletes(s, step, t, c, k);
      } else {
        CommitDeletes(s, step, t, k);
        assert WillDelete(t, step.change, k);
      }
    }
  }

  lemma CommitDeletes(s: State, step: Step, t: State, k: Token)
    requires Next(s, step) == Some(t) && k in s.issued && Changes(s, step, s.issued[k].user)
    ensures WillDelete(t, step.change, k)
  {
  }

  lemma {:induction false} InvAt(steps: seq<Step>, states: seq<State>, i: nat)
    requires IsRun(steps, states) && i < |states|
    ensures Inv(states[i])
  {
    if i > 0 {
      InvAt(steps, states, i - 1);
      var step := steps[i - 1];
      EntriesKept(states[i - 1], step, states[i]);
      RowsKept(states[i - 1], step, states[i]);
      OwnersKept(states[i - 1], step, states[i]);
      DoomKept(states[i - 1], step, states[i]);
    }
  }

  // --------------------------------------------------------------- theorems

  /** Every change of the user has finished its scan, and none was made after its scan
      began. */
  predicate ChangesFinished(s: State, u: UserId) {
    forall c | c in s.changes && s.changes[c].user == u :: s.changes[c].Finished? && c !in s.late
  }

  /** Whenever every change of a user has finished its deletions, each session of
      that user whose token a login returned has the user's authority of now: the
      role of the row, which is active and at the version the login read. */
  lemma NoOldAuthority(steps: seq<Step>, states: seq<State>, i: nat, l: Thread, t: Token)
    requires IsRun(steps, states) && i < |states|
    requires l in states[i].logins && states[i].logins[l] == Kept(t) && t in states[i].sessions
    requires ChangesFinished(states[i], states[i].sessions[t].user)
    ensures var s := states[i];
            var u := s.sessions[t].user;
            && u in s.users && s.users[u].status.Active? && s.sessions[t].role == s.users[u].role
            && t in s.issued && s.issued[t].row == s.users[u]
  {
    var s := states[i];
    InvAt(steps, states, i);
    assert s.sessions[t] == EntryOf(s.issued[t]);
    assert WasRead(s, s.issued[t].user, s.issued[t].row);
    assert forall c :: !WillDelete(s, c, t);
  }

  lemma OneStep(s: State, step: Step, t: State, k: Token)
    requires Next(s, step) == Some(t) && k in s.issued
    ensures k in t.issued && t.issued[k] == s.issued[k]
    ensures k !in s.sessions ==> k !in t.sessions
  {
  }

  /** A token is issued once, and its login and row stay the same. */
  lemma {:induction false} IssuesStay(steps: seq<Step>, states: seq<State>, i: nat, j: nat, t: Token)
    requires IsRun(steps, states) && i <= j < |states| && t in states[i].issued
    ensures t in states[j].issued && states[j].issued[t] == states[i].issued[t]
    decreases j
  {
    if i < j {
      IssuesStay(steps, states, i, j - 1, t);
      OneStep(states[j - 1], steps[j - 1], states[j], t);
    }
  }

  /** A revoked session never returns: not by a use that read it before, and not
      by another login. */
  lemma {:induction false} RevokedStaysRevoked(steps: seq<Step>, states: seq<State>, i: nat, j: nat, t: Token)
    requires IsRun(steps, states) && i <= j < |states|
    requires t in states[i].issued && t !in states[i].sessions
    ensures t !in states[j].sessions
    decreases j
  {
    if i < j {
      RevokedStaysRevoked(steps, states, i, j - 1, t);
      IssuesStay(steps, states, i, j - 1, t);
      OneStep(states[j - 1], steps[j - 1], states[j], t);
    }
  }

  /** No use, however it interleaves, gives a session another user or role. */
  lemma EntriesNeverChange(steps: seq<Step>, states: seq<State>, i: nat, j: nat, t: Token)
    requires IsRun(steps, states) && i <= j < |states|
    requires t in states[i].sessions && t in states[j].sessions
    ensures states[i].sessions[t] == states[j].sessions[t]
  {
    InvAt(steps, states, i);
    InvAt(steps, states, j);
    IssuesStay(steps, states, i, j, t);
  }

  /** One step of a login that saw its row changed. */
  lemma RevokingStep(s: State, step: Step, t: State, l: Thread)
    requires Next(s, step) == Some(t) && l in s.logins && (s.logins[l].Revoking? || s.logins[l].Over?)
    ensures l in t.logins && (t.logins[l] == s.logins[l] || t.logins[l].Over?)
    ensures s.logins[l].Revoking? && t.logins[l].Over? ==> step == RevokeOwn(l) || step == LoginFails(l)
  {
  }

  /** A login whose row changed under it never returns its token, and once its own
      deletion was made leaves no session, whatever the change's own scan saw; only a
      store that refused the deletion leaves one, of a token nobody was given. */
  lemma {:induction false} RacedLoginLeavesNothing(steps: seq<Step>, states: seq<State>, i: nat, j: nat, l: Thread)
    requires IsRun(steps, states) && i <= j < |states|
    requires l in states[i].logins && states[i].logins[l].Revoking?
    ensures l in states[j].logins && (states[j].logins[l] == states[i].logins[l] || states[j].logins[l].Over?)
    ensures
      (&& states[j].logins[l].Over?
       && forall k | i <= k < j :: steps[k] != LoginFails(l)) ==> states[i].logins[l].token !in states[j].sessions
    decreases j
  {
    if i < j {
      RacedLoginLeavesNothing(steps, states, i, j - 1, l);
      RevokingStep(states[j - 1], steps[j - 1], states[j], l);
      InvAt(steps, states, i);
      var t := states[i].logins[l].token;
      IssuesStay(steps, states, i, j - 1, t);
      OneStep(states[j - 1], steps[j - 1], states[j], t);
    }
  }

  lemma Extended(steps: seq<Step>, states: seq<State>, step: Step, t: State)
    requires IsRun(steps, states) && Next(states[|steps|], step) == Some(t)
    ensures IsRun(steps + [step], states + [t])
  {
    var steps', states' := steps + [step], states + [t];
    forall i {:trigger steps'[i]} | 0 <= i < |steps'| ensures Next(states'[i], steps'[i]) == Some(states'[i + 1]) {
      if i < |steps| {
        assert steps'[i] == steps[i];
      }
    }
  }

  /** A login of user 0 as an administrator, kept. */
  lemma KeptLogin() returns (steps: seq<Step>, states: seq<State>)
    ensures IsRun(steps, states)
    ensures var s := states[|steps|];
            && 0 in s.users && 7 in s.sessions && s.sessions[7] == Entry(0, "admin")
            && 1 in s.logins && s.logins[1] == Kept(7) && s.changes == map[]
  {
    var admin := Row("admin", Active, 0);
    var s := EMPTY.(users := EMPTY.users[0 := admin]);
    steps, states := [], [EMPTY];
    Extended(steps, states, CreateUser(0, "admin"), s);
    steps, states := steps + [CreateUser(0, "admin")], states + [s];
    s := s.(logins := s.logins[1 := Verified(0, admin)]);
    Extended(steps, states, ReadRow(1, 0), s);
    steps, states := steps + [ReadRow(1, 0)], states + [s];
    s := s.(issued := s.issued[7 := Issue(1, 0, admin)], sessions := s.sessions[7 := Entry(0, "admin")],
            logins := s.logins[1 := Created(7)]);
    Extended(steps, states, CreateSession(1, 7), s);
    steps, states := steps + [CreateSession(1, 7)], states + [s];
    s := s.(logins := s.logins[1 := Kept(7)]);
    Extended(steps, states, ReadAgain(1), s);
    steps, states := steps + [ReadAgain(1)], states + [s];
  }

  /** And no commit may come after its scan began: one whose answer was lost, made when
      its scan had finished, leaves the old role to a login of the time between. */
  lemma LateCommitLeavesOldAuthority() returns (steps: seq<Step>, states: seq<State>)
    ensures IsRun(steps, states)
    ensures var s := states[|steps|];
            && 7 in s.sessions && 1 in s.logins && s.logins[1] == Kept(7)
            && s.sessions[7] == Entry(0, "admin") && 0 in s.users && s.users[0].role == "viewer"
            && forall c | c in s.changes :: s.changes[c].Finished?
  {
    steps, states := ScannedInDoubt();
    var s := states[|steps|];
    var admin := Row("admin", Active, 0);
    s := s.(logins := s.logins[1 := Verified(0, admin)]);
    Extended(steps, states, ReadRow(1, 0), s);
    steps, states := steps + [ReadRow(1, 0)], states + [s];
    s := s.(issued := s.issued[7 := Issue(1, 0, admin)], sessions := s.sessions[7 := Entry(0, "admin")],
            logins := s.logins[1 := Created(7)]);
    Extended(steps, states, CreateSession(1, 7), s);
    steps, states := steps + [CreateSession(1, 7)], states + [s];
    s := s.(logins := s.logins[1 := Kept(7)]);
    Extended(steps, states, ReadAgain(1), s);
    steps, states := steps + [ReadAgain(1)], states + [s];
    s := s.(users := s.users[0 := Row("viewer", Active, 1)], doubts := Removed(s.doubts, 2), late := s.late + {2});
    Extended(steps, states, Land(2), s);
    steps, states := steps + [Land(2)], states + [s];
  }

  /** A change of user 0 in doubt, and its scan, which found nothing. */
  lemma ScannedInDoubt() returns (steps: seq<Step>, states: seq<State>)
    ensures IsRun(steps, states)
    ensures var s := states[|steps|];
            && 0 in s.users && s.users[0] == Row("admin", Active, 0) && s.sessions == map[] && s.issued == map[]
            && s.logins == map[] && 2 in s.changes && 2 in s.doubts && s.doubts[2] == Doubt("viewer", Active)
            && forall c | c in s.changes :: s.changes[c] == Finished(0)
  {
    var s := EMPTY.(users := EMPTY.users[0 := Row("admin", Active, 0)]);
    steps, states := [], [EMPTY];
    Extended(steps, states, CreateUser(0, "admin"), s);
    steps, states := steps + [CreateUser(0, "admin")], states + [s];
    var change := CommitInDoubt(2, 0, "viewer", Active);
    s := s.(changes := s.changes[2 := Committed(0)], doubts := s.doubts[2 := Doubt("viewer", Active)]);
    Extended(steps, states, change, s);
    steps, states := steps + [change], states + [s];
    s := s.(changes := s.changes[2 := Scanning(0, s.sessions.Keys, {}, None)]);
    Extended(steps, states, ScanStart(2), s);
    steps, states := steps + [ScanStart(2)], states + [s];
    s := s.(changes := s.changes[2 := Finished(0)]);
    Extended(steps, states, ScanEnd(2), s);
    steps, states := steps + [ScanEnd(2)], states + [s];
  }

  /** The scans must finish: after one that failed, a session keeps the role its
      user has lost. */
  lemma FailedScanLeavesOldAuthority() returns (steps: seq<Step>, states: seq<State>)
    ensures IsRun(steps, states)
    ensures var s := states[|steps|];
            && 7 in s.sessions && 1 in s.logins && s.logins[1] == Kept(7)
            && s.sessions[7] == Entry(0, "admin") && 0 in s.users && s.users[0].role == "viewer"
  {
    steps, states := KeptLogin();
    var s := states[|steps|];
    var change := Commit(2, 0, "viewer", Active);
    var committed := s.(users := s.users[0 := Row("viewer", Active, s.users[0].version + 1)],
                          changes := s.changes[2 := Committed(0)]);
    Extended(steps, states, change, committed);
    steps, states := steps + [change], states + [committed];
    var failed := committed.(changes := committed.changes[2 := Failed(0)]);
    Extended(steps, states, ScanFails(2), failed);
    steps, states := steps + [ScanFails(2)], states + [failed];
  }
}
