/**
 Role and status changes: each transaction selects the org's active admins and
 the target, locks those rows one at a time in user-id order, reads each again
 once it is locked, and keeps its locks until it commits or rolls back. Any number
 of them interleave, with transactions that lock one row alone (a password change).
 */
module AdminLocks {
  import opened Common

  type UserId = nat
  type Org = nat
  type Txn = nat

  datatype Role = Admin | Analyst | Viewer
  datatype Status = Active | Disabled
  datatype Row = Row(org: Org, role: Role, status: Status)

  predicate IsActiveAdmin(r: Row) {
    r.role.Admin? && r.status.Active?
  }

  /** The query's condition. */
  predicate Selects(r: Row, id: UserId, org: Org, target: UserId) {
    r.org == org && (IsActiveAdmin(r) || id == target)
  }

  /** `role` and `status` as the change gives them; absent, the target's stay. */
  datatype Ask = Ask(org: Org, target: UserId, role: Option<Role>, status: Option<Status>)

  /** `todo`: the selected rows still to lock, in order; `rows`: those locked that
      the condition selects as they are now. */
  datatype Transaction =
    | Changing(ask: Ask, todo: seq<UserId>, rows: map<UserId, Row>)
    | Single(row: UserId, todo: seq<UserId>)
    | Done(outcome: Outcome)

  datatype Outcome = Changed | NotFound | Conflict | RolledBack | Wrote

  datatype State = State(users: map<UserId, Row>, locks: map<UserId, Txn>, txns: map<Txn, Transaction>)

  datatype Step =
    | CreateUser(id: UserId, row: Row)
    | Begin(txn: Txn, ask: Ask, selected: seq<UserId>)
    | BeginSingle(txn: Txn, id: UserId)
    | LockNext(txn: Txn)
    | Finish(txn: Txn)
    | RollBack(txn: Txn)

  predicate IsSorted(ids: seq<UserId>) {
    forall i, j | 0 <= i < j < |ids| :: ids[i] < ids[j]
  }

  /** The rows the query finds, in user-id order. */
  ghost predicate IsSelection(users: map<UserId, Row>, ask: Ask, ids: seq<UserId>) {
    && IsSorted(ids)
    && forall id :: id in ids <==> id in users && Selects(users[id], id, ask.org, ask.target)
  }

  function Released(locks: map<UserId, Txn>, t: Txn): map<UserId, Txn> {
    map id | id in locks && locks[id] != t :: locks[id]
  }

  function Admins(rows: map<UserId, Row>): set<UserId> {
    set id | id in rows && IsActiveAdmin(rows[id])
  }

  /** The target as the change makes it. */
  function ChangedRow(ask: Ask, r: Row): Row {
    r.(role := if ask.role.Some? then ask.role.value else r.role,
       status := if ask.status.Some? then ask.status.value else r.status)
  }

  /** How a change with all its rows locked ends. */
  function Decide(ask: Ask, rows: map<UserId, Row>): Outcome {
    if ask.target !in rows then NotFound
    else if IsActiveAdmin(rows[ask.target]) && !IsActiveAdmin(ChangedRow(ask, rows[ask.target])) && |Admins(rows)| <= 1
    then Conflict
    else Changed
  }

  ghost function Next(s: State, step: Step): Option<State> {
    match step
    case CreateUser(id, row) =>
      if id !in s.users then Some(s.(users := s.users[id := row])) else None
    case Begin(t, ask, ids) =>
      if t !in s.txns && IsSelection(s.users, ask, ids)
      then Some(s.(txns := s.txns[t := Changing(ask, ids, map[])])) else None
    case BeginSingle(t, id) =>
      if t !in s.txns && id in s.users then Some(s.(txns := s.txns[t := Single(id, [id])])) else None
    case LockNext(t) =>
      if t in s.txns && !s.txns[t].Done? && s.txns[t].todo != [] && s.txns[t].todo[0] !in s.locks
      then Some(Locked(s, t)) else None
    case Finish(t) =>
      if t in s.txns && !s.txns[t].Done? && s.txns[t].todo == [] then Some(Finished(s, t)) else None
    case RollBack(t) =>
      if t in s.txns && !s.txns[t].Done?
      then Some(s.(locks := Released(s.locks, t), txns := s.txns[t := Done(RolledBack)])) else None
  }

  /** The next row locked, and read again. */
  function Locked(s: State, t: Txn): State
    requires t in s.txns && !s.txns[t].Done? && s.txns[t].todo != []
  {
    var x := s.txns[t];
    var id := x.todo[0];
    var x' := match x
              case Changing(ask, todo, rows) =>
                var still := id in s.users && Selects(s.users[id], id, ask.org, ask.target);
                Changing(ask, todo[1..], if still then rows[id := s.users[id]] else rows)
              case Single(row, todo) => Single(row, todo[1..])
              case Done(_) => x;
    s.(locks := s.locks[id := t], txns := s.txns[t := x'])
  }

  /** The change made, or refused, and the locks given back. */
  function Finished(s: State, t: Txn): State
    requires t in s.txns && !s.txns[t].Done?
  {
    var outcome := if s.txns[t].Changing? then Decide(s.txns[t].ask, s.txns[t].rows) else Wrote;
    var users := if outcome.Changed?
                 then s.users[s.txns[t].ask.target := ChangedRow(s.txns[t].ask, s.txns[t].rows[s.txns[t].ask.target])]
                 else s.users;
    s.(users := users, locks := Released(s.locks, t), txns := s.txns[t := Done(outcome)])
  }

  /** A run from any users, with no transaction under way. */
  ghost predicate IsRun(steps: seq<Step>, states: seq<State>) {
    && |states| == |steps| + 1 && states[0].locks == map[] && states[0].txns == map[]
    && forall i {:trigger steps[i]} | 0 <= i < |steps| :: Next(states[i], steps[i]) == Some(states[i + 1])
  }

  // -------------------------------------------------------------- invariant

  /** What `t` holds comes before all it has yet to lock, and what it read under a
      lock is what the row still is. */
  ghost predicate TxnInv(s: State, t: Txn)
    requires t in s.txns
  {
    var x := s.txns[t];
    !x.Done? ==>
      && IsSorted(x.todo)
      && (forall id | id in s.locks && s.locks[id] == t :: forall i | 0 <= i < |x.todo| :: id < x.todo[i])
      && (x.Changing? ==>
            forall id | id in x.rows ::
              && id in s.locks && s.locks[id] == t && id in s.users && s.users[id] == x.rows[id]
              && x.rows[id].org == x.ask.org)
  }

  ghost predicate Inv(s: State) {
    && (forall t | t in s.txns :: TxnInv(s, t))
    && (forall id | id in s.locks :: s.locks[id] in s.txns && !s.txns[s.locks[id]].Done?)
  }

  lemma LockKept(s: State, t: Txn, u: Txn)
    requires Inv(s) && Next(s, LockNext(t)).Some? && u in s.txns
    ensures TxnInv(Locked(s, t), u)
  {
    assert TxnInv(s, u) && TxnInv(s, t);
  }

  lemma FinishKept(s: State, t: Txn, u: Txn)
    requires Inv(s) && Next(s, Finish(t)).Some? && u in s.txns
    ensures TxnInv(Finished(s, t), u)
  {
    assert TxnInv(s, u) && TxnInv(s, t);
  }

  lemma Kept(s: State, step: Step, s': State)
    requires Inv(s) && Next(s, step) == Some(s')
    ensures Inv(s')
  {
    forall u | u in s'.txns ensures TxnInv(s', u) {
      if u in s.txns {
        assert TxnInv(s, u);
        if step.LockNext? {
          LockKept(s, step.txn, u);
        } else if step.Finish? {
          FinishKept(s, step.txn, u);
        }
      }
    }
  }

  lemma {:induction false} InvAt(steps: seq<Step>, states: seq<State>, i: nat)
    requires IsRun(steps, states) && i < |states|
    ensures Inv(states[i])
  {
    if i > 0 {
      InvAt(steps, states, i - 1);
      Kept(states[i - 1], steps[i - 1], states[i]);
    }
  }

  // ---------------------------------------------------- the last active admin

  ghost predicate HasActiveAdmin(s: State, org: Org) {
    exists id :: id in s.users && s.users[id].org == org && IsActiveAdmin(s.users[id])
  }

  /** Of more than one there is another. */
  lemma AnotherOne(ids: set<UserId>, id: UserId) returns (other: UserId)
    requires |ids| > 1
    ensures other in ids && other != id
  {
    if ids - {id} == {} {
      assert ids <= {id};
      SubsetSize(ids, {id});
      assert false;
    }
    other :| other in ids - {id};
  }

  lemma SubsetSize(a: set<UserId>, b: set<UserId>)
    requires a <= b
    ensures |a| <= |b|
  {
    if a != {} {
      var x :| x in a;
      SubsetSize(a - {x}, b - {x});
    }
  }

  lemma AdminStays(s: State, step: Step, s': State, org: Org)
    requires Inv(s) && Next(s, step) == Some(s') && HasActiveAdmin(s, org)
    ensures HasActiveAdmin(s', org)
  {
    var id :| id in s.users && s.users[id].org == org && IsActiveAdmin(s.users[id]);
    if step.Finish? && s.txns[step.txn].Changing? && id in s'.users && !IsActiveAdmin(s'.users[id]) {
      // This change took the admin: it holds another.
      assert TxnInv(s, step.txn);
      var x := s.txns[step.txn];
      var other := AnotherOne(Admins(x.rows), id);
      assert s'.users[other] == s.users[other];
    } else {
      assert id in s'.users && s'.users[id].org == org && IsActiveAdmin(s'.users[id]);
    }
  }

  /** An org with an active admin keeps one, whatever changes race. */
  lemma {:induction false} LastAdminStays(steps: seq<Step>, states: seq<State>, i: nat, j: nat, org: Org)
    requires IsRun(steps, states) && i <= j < |states| && HasActiveAdmin(states[i], org)
    ensures HasActiveAdmin(states[j], org)
    decreases j
  {
    if i < j {
      LastAdminStays(steps, states, i, j - 1, org);
      InvAt(steps, states, j - 1);
      AdminStays(states[j - 1], steps[j - 1], states[j], org);
    }
  }

  // ---------------------------------------------------------------- deadlock

  /** `t` waits for a row that `u` has locked. */
  predicate WaitsFor(s: State, t: Txn, u: Txn) {
    && t in s.txns && !s.txns[t].Done? && s.txns[t].todo != []
    && s.txns[t].todo[0] in s.locks && s.locks[s.txns[t].todo[0]] == u
  }

  predicate IsWaitChain(s: State, chain: seq<Txn>) {
    forall i | 0 <= i < |chain| - 1 :: WaitsFor(s, chain[i], chain[i + 1])
  }

  /** Along a chain of waits the row waited for only grows. */
  lemma {:induction false} WaitsAscend(s: State, chain: seq<Txn>, i: nat)
    requires Inv(s) && IsWaitChain(s, chain) && 0 < i < |chain| - 1
    ensures WaitsFor(s, chain[0], chain[1]) && WaitsFor(s, chain[i], chain[i + 1])
    ensures s.txns[chain[0]].todo[0] < s.txns[chain[i]].todo[0]
    decreases i
  {
    assert WaitsFor(s, chain[0], chain[1]) && WaitsFor(s, chain[i], chain[i + 1]) && WaitsFor(s, chain[i - 1], chain[i]);
    assert TxnInv(s, chain[i]);
    if i > 1 {
      WaitsAscend(s, chain, i - 1);
    }
  }

  /** No set of changes waits in a cycle, not even a change for itself. */
  lemma NoDeadlock(steps: seq<Step>, states: seq<State>, i: nat, chain: seq<Txn>)
    requires IsRun(steps, states) && i < |states|
    requires |chain| >= 2 && IsWaitChain(states[i], chain)
    ensures chain[0] != chain[|chain| - 1]
  {
    var s := states[i];
    InvAt(steps, states, i);
    var n := |chain| - 1;
    assert WaitsFor(s, chain[n - 1], chain[n]);
    var last := s.txns[chain[n - 1]].todo[0];
    assert s.locks[last] == chain[n];
    assert chain[n] in s.txns && TxnInv(s, chain[n]);
    if n > 1 {
      WaitsAscend(s, chain, n - 1);
    }
    assert WaitsFor(s, chain[0], chain[1]);
  }

  predicate CanMove(s: State, t: Txn) {
    && t in s.txns && !s.txns[t].Done?
    && (s.txns[t].todo == [] || s.txns[t].todo[0] !in s.locks)
  }

  lemma {:induction false} FollowTheWaits(s: State, t: Txn, bound: nat) returns (u: Txn)
    requires Inv(s) && t in s.txns && !s.txns[t].Done?
    requires forall id | id in s.locks :: id < bound
    ensures CanMove(s, u)
    decreases if s.txns[t].todo == [] || s.txns[t].todo[0] >= bound then 0 else bound - s.txns[t].todo[0]
  {
    if CanMove(s, t) {
      u := t;
    } else {
      var id := s.txns[t].todo[0];
      var holder := s.locks[id];
      assert TxnInv(s, holder);
      u := FollowTheWaits(s, holder, bound);
    }
  }

  lemma {:induction false} IsBounded(ids: set<UserId>) returns (bound: nat)
    ensures forall id | id in ids :: id < bound
  {
    if ids == {} {
      bound := 0;
    } else {
      var x :| x in ids;
      var b := IsBounded(ids - {x});
      bound := if b > x then b else x + 1;
      assert forall id | id in ids :: id == x || id in ids - {x};
    }
  }

  /** While a transaction is under way, one of them can lock its next row or end. */
  lemma SomeoneCanMove(steps: seq<Step>, states: seq<State>, i: nat, t: Txn) returns (u: Txn)
    requires IsRun(steps, states) && i < |states|
    requires t in states[i].txns && !states[i].txns[t].Done?
    ensures Next(states[i], LockNext(u)).Some? || Next(states[i], Finish(u)).Some?
  {
    InvAt(steps, states, i);
    var bound := IsBounded(states[i].locks.Keys);
    u := FollowTheWaits(states[i], t, bound);
  }
}
