/**
 One attempt from its reservation to its end: the login, the TOTP confirmation
 and the password change, each with its `settled` flag and its catch. `throws`
 says which store calls fail; a call that fails may still have been carried out,
 so what is counted here is the calls made.
 */
module AttemptFlow {
  import opened Common
  import opened RateLimit

  /** The store calls, in the order an attempt can make them. */
  datatype Call =
    | Reserving | ReadingRow | Decrypting | UsingCode | Creating | ReadingAgain | Revoking
    | Updating | Changing | Auditing | Settling(settle: Settle)

  /** The calls that settle the attempt's slots. */
  datatype Settle = Failing | Releasing | DeletingAccount | ReleasingIp | CatchReleasing

  /** What the attempt finds: each check, as it would turn out. */
  datatype Finds = Finds(room: bool, user: bool, credentials: bool, firstUse: bool, stillSame: bool)

  datatype End = RateLimited | Refused | Raced | Accepted | StoreFailed

  /** The counters a call settles. */
  function Counters(kind: Kind, call: Settle): set<Key> {
    match call
    case DeletingAccount => if kind.Login? then {Account(kind.org, kind.email)} else {}
    case ReleasingIp => if kind.Login? then {Ip(kind.ip)} else {}
    case _ => set k | k in Keys(kind)
  }

  /** No counter is settled twice. */
  predicate SettlesOnce(kind: Kind, calls: seq<Settle>) {
    forall i, j | 0 <= i < j < |calls| :: Counters(kind, calls[i]) !! Counters(kind, calls[j])
  }

  function AllSettled(kind: Kind, calls: seq<Settle>): set<Key> {
    if calls == [] then {} else Counters(kind, calls[0]) + AllSettled(kind, calls[1..])
  }

  ghost predicate NothingThrows(throws: Call -> bool) {
    forall c :: !throws(c)
  }

  /** A refusal: the slots are kept, and the row that records it is written. */
  function RefusedUnless(throws: Call -> bool): End {
    if throws(Settling(Failing)) || throws(Auditing) then StoreFailed else Refused
  }

  /** The `try` block of a login: `settled` is set before the call that settles. */
  method LoginBody(throws: Call -> bool, finds: Finds) returns (calls: seq<Settle>, settled: bool, end: End)
    ensures !settled <==> calls == []
    ensures settled ==> calls in {[Failing], [Releasing], [DeletingAccount], [DeletingAccount, ReleasingIp]}
    ensures calls == [DeletingAccount] ==> throws(Settling(DeletingAccount))
    ensures end.Refused? ==> calls == [Failing] && !(finds.user && finds.credentials && finds.firstUse)
    ensures end.Raced? ==> calls == [Releasing] && !finds.stillSame
    ensures end.Accepted? ==>
      && calls == [DeletingAccount, ReleasingIp]
      && finds.user && finds.credentials && finds.firstUse && finds.stillSame
    ensures !end.RateLimited? && (end.StoreFailed? ==> !NothingThrows(throws))
  {
    calls, settled, end := [], false, StoreFailed;
    if throws(ReadingRow) || (!finds.user && throws(Decrypting)) { return; }
    if !finds.user || !finds.credentials {
      return [Failing], true, RefusedUnless(throws);
    }
    if throws(UsingCode) { return; }
    if !finds.firstUse {
      return [Failing], true, RefusedUnless(throws);
    }
    if throws(Creating) || throws(ReadingAgain) { return; }
    if !finds.stillSame {
      if throws(Revoking) { return; }
      return [Releasing], true, if throws(Settling(Releasing)) || throws(Auditing) then StoreFailed else Raced;
    }
    settled, calls := true, [DeletingAccount];
    if throws(Settling(DeletingAccount)) { return; }
    calls := [DeletingAccount, ReleasingIp];
    if throws(Settling(ReleasingIp)) || throws(Updating) || throws(Auditing) { return; }
    end := Accepted;
  }

  /** The `try` block of a confirmation or a password change (which decrypts nothing
      when it finds no row). */
  method OtherBody(throws: Call -> bool, finds: Finds) returns (calls: seq<Settle>, settled: bool, end: End)
    ensures !settled <==> calls == []
    ensures settled ==> calls in {[Failing], [Releasing]}
    ensures end.Refused? ==> calls == [Failing] && !(finds.user && finds.credentials && finds.firstUse)
    ensures end.Accepted? ==> calls == [Releasing] && finds.user && finds.credentials && finds.firstUse
    ensures !end.RateLimited? && !end.Raced? && (end.StoreFailed? ==> !NothingThrows(throws))
  {
    calls, settled, end := [], false, StoreFailed;
    if throws(ReadingRow) || (!finds.user && throws(Decrypting)) { return; }
    if !finds.user || !finds.credentials {
      return [Failing], true, RefusedUnless(throws);
    }
    if throws(UsingCode) { return; }
    if !finds.firstUse {
      return [Failing], true, RefusedUnless(throws);
    }
    if throws(Changing) { return; }
    return [Releasing], true, if throws(Settling(Releasing)) then StoreFailed else Accepted;
  }

  /** The whole attempt, its catch included: on every path each counter is settled
      at most once, and each is settled unless the attempt reserved nothing or the
      deletion of the account's counter itself failed. */
  method Attempt(kind: Kind, throws: Call -> bool, finds: Finds) returns (calls: seq<Settle>, end: End)
    ensures SettlesOnce(kind, calls)
    ensures end.RateLimited? ==> calls == [] && !finds.room
    ensures finds.room && !throws(Reserving) && !throws(Settling(DeletingAccount)) ==>
      AllSettled(kind, calls) == set k | k in Keys(kind)
    // The calls, carried out one after the other, are steps the limiter's runs are made of.
    ensures PhaseAfterFirst(kind, calls, |calls|).Some?
    ensures end.Refused? ==> calls == [Failing]
    ensures end.Raced? ==> kind.Login? && calls == [Releasing]
    ensures end.Accepted? ==> calls == if kind.Login? then [DeletingAccount, ReleasingIp] else [Releasing]
    ensures NothingThrows(throws) && finds.room ==> !end.StoreFailed? && !end.RateLimited?
  {
    if throws(Reserving) { return [], StoreFailed; }
    if !finds.room { return [], RateLimited; }
    var settled;
    if kind.Login? {
      calls, settled, end := LoginBody(throws, finds);
    } else {
      calls, settled, end := OtherBody(throws, finds);
    }
    if !settled {
      calls := [CatchReleasing];
    }
    PathFacts(kind, calls);
  }

  /** The settling calls of a path. */
  predicate IsSettling(kind: Kind, calls: seq<Settle>) {
    || calls in {[Failing], [Releasing], [CatchReleasing]}
    || (kind.Login? && calls in {[DeletingAccount], [DeletingAccount, ReleasingIp]})
  }

  lemma PathFacts(kind: Kind, calls: seq<Settle>)
    requires IsSettling(kind, calls)
    ensures SettlesOnce(kind, calls) && PhaseAfterFirst(kind, calls, |calls|).Some?
    ensures calls != [DeletingAccount] ==> AllSettled(kind, calls) == set k | k in Keys(kind)
  {
    assert PhaseAfterFirst(kind, calls, 1) == PhaseAfter(kind, InFlight, calls[0]);
    if |calls| == 2 {
      assert calls[1..] == [ReleasingIp];
      assert AllSettled(kind, [ReleasingIp]) == {Ip(kind.ip)};
    } else {
      assert calls == [calls[0]];
    }
  }

  // ------------------------------------------------------- the calls, in a run

  /** The limiter's step a settling call makes. */
  function StepOf(id: nat, call: Settle): Step {
    match call
    case Failing => Fail(id)
    case Releasing => GiveBack(id)
    case CatchReleasing => GiveBack(id)
    case DeletingAccount => ClearAccount(id)
    case ReleasingIp => GiveBackIp(id)
  }

  /** The phase a call leads to, where the attempt can make it. */
  function PhaseAfter(kind: Kind, phase: Phase, call: Settle): Option<Phase> {
    match call
    case DeletingAccount => if phase.InFlight? && kind.Login? then Some(Clearing) else None
    case ReleasingIp => if phase.Clearing? && kind.Login? then Some(Settled) else None
    case _ => if phase.InFlight? then Some(Settled) else None
  }

  /** The phase of an attempt that was granted and made the first `n` of these calls. */
  function PhaseAfterFirst(kind: Kind, calls: seq<Settle>, n: nat): Option<Phase>
    requires n <= |calls|
  {
    if n == 0 then Some(InFlight)
    else
      var before := PhaseAfterFirst(kind, calls, n - 1);
      if before.None? then None else PhaseAfter(kind, before.value, calls[n - 1])
  }

  lemma {:induction false} PathPrefix(kind: Kind, calls: seq<Settle>, m: nat, n: nat)
    requires m <= n <= |calls| && PhaseAfterFirst(kind, calls, n).Some?
    ensures PhaseAfterFirst(kind, calls, m).Some?
    decreases n
  {
    if m < n {
      PathPrefix(kind, calls, m, n - 1);
    }
  }

  lemma CallIsStep(s: State, id: nat, call: Settle)
    requires id in s.attempts
    ensures var a, t := s.attempts[id], Next(s, StepOf(id, call));
            && (t.Some? <==> PhaseAfter(a.kind, a.phase, call).Some?)
            && (t.Some? ==>
                  && id in t.value.attempts && t.value.attempts[id].kind == a.kind
                  && Some(t.value.attempts[id].phase) == PhaseAfter(a.kind, a.phase, call))
  {
  }

  predicate IsOf(step: Step, id: nat) {
    !step.Tick? && step.id == id
  }

  lemma OthersKeep(s: State, step: Step, t: State, id: nat)
    requires Next(s, step) == Some(t) && id in s.attempts && !IsOf(step, id)
    ensures id in t.attempts && t.attempts[id] == s.attempts[id]
  {
  }

  /** How many of the steps from `i` to `j` are the attempt's own. */
  function Own(steps: seq<Step>, i: nat, j: nat, id: nat): nat
    requires i <= j <= |steps|
    decreases j
  {
    if i == j then 0 else Own(steps, i, j - 1, id) + if IsOf(steps[j - 1], id) then 1 else 0
  }

  /** The attempt's own steps from `i` to `j` are its calls, in order. */
  ghost predicate Makes(steps: seq<Step>, i: nat, j: nat, id: nat, calls: seq<Settle>) {
    && i <= j <= |steps| && Own(steps, i, j, id) <= |calls|
    && forall m | i <= m < j && IsOf(steps[m], id) ::
         Own(steps, i, m, id) < |calls| && steps[m] == StepOf(id, calls[Own(steps, i, m, id)])
  }

  /** In `s` the attempt is as its first `n` calls leave it. */
  ghost predicate Stands(s: State, id: nat, kind: Kind, calls: seq<Settle>, n: nat)
    requires n <= |calls|
  {
    && id in s.attempts && s.attempts[id].kind == kind
    && Some(s.attempts[id].phase) == PhaseAfterFirst(kind, calls, n)
  }

  lemma Granted(s: State, id: nat, kind: Kind, calls: seq<Settle>, t: State)
    requires Next(s, Start(id, kind)) == Some(t) && HasRoom(s.counters, Keys(kind))
    ensures Stands(t, id, kind, calls, 0)
  {
  }

  lemma OneStep(s: State, step: Step, t: State, id: nat, kind: Kind, calls: seq<Settle>, n: nat)
    requires n <= |calls| && Stands(s, id, kind, calls, n) && Next(s, step) == Some(t)
    requires IsOf(step, id) ==> n < |calls| && step == StepOf(id, calls[n])
    ensures Stands(t, id, kind, calls, if IsOf(step, id) then n + 1 else n)
  {
    if IsOf(step, id) {
      CallIsStep(s, id, calls[n]);
    } else {
      OthersKeep(s, step, t, id);
    }
  }

  lemma {:induction false} PathStands(
      steps: seq<Step>, states: seq<State>, i: nat, j: nat, id: nat, kind: Kind, calls: seq<Settle>)
    requires IsRun(steps, states) && i < j < |states|
    requires steps[i] == Start(id, kind) && HasRoom(states[i].counters, Keys(kind))
    requires Makes(steps, i + 1, j, id, calls)
    ensures Stands(states[j], id, kind, calls, Own(steps, i + 1, j, id))
    decreases j
  {
    assert Next(states[j - 1], steps[j - 1]) == Some(states[j]);
    if i + 1 == j {
      Granted(states[i], id, kind, calls, states[j]);
    } else {
      PathStands(steps, states, i, j - 1, id, kind, calls);
      OneStep(states[j - 1], steps[j - 1], states[j], id, kind, calls, Own(steps, i + 1, j - 1, id));
    }
  }

  /** Whatever others do meanwhile, the next settling call of an attempt's path is always
      a step of the limiter's run, which then goes on from the phase the calls lead to. */
  lemma CallsAreSteps(
      steps: seq<Step>, states: seq<State>, i: nat, j: nat, id: nat, kind: Kind, calls: seq<Settle>)
    requires IsRun(steps, states) && i < j < |states|
    requires steps[i] == Start(id, kind) && HasRoom(states[i].counters, Keys(kind))
    requires Makes(steps, i + 1, j, id, calls) && Own(steps, i + 1, j, id) < |calls|
    requires PhaseAfterFirst(kind, calls, |calls|).Some?
    ensures Next(states[j], StepOf(id, calls[Own(steps, i + 1, j, id)])).Some?
  {
    var n := Own(steps, i + 1, j, id);
    PathPrefix(kind, calls, n + 1, |calls|);
    PathStands(steps, states, i, j, id, kind, calls);
    CallIsStep(states[j], id, calls[n]);
  }
}
