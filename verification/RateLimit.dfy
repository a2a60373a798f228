/**
 The rate limiter: the three scripts over Redis counters, and every interleaving
 of the attempts that run them.
 */
module RateLimit {
  import opened Common

  const ACCOUNT_MAX: nat := 5
  const IP_MAX: nat := 10
  const WINDOW_SECONDS: nat := 15 * 60

  datatype Key = Account(org: string, email: string) | Ip(ip: string) | User(user: string) | Password(user: string)

  function Max(k: Key): nat {
    if k.Ip? then IP_MAX else ACCOUNT_MAX
  }

  /** A counter and the second its window ends. */
  datatype Counter = Counter(count: nat, ends: nat)

  type Store = map<Key, Counter>

  function Count(m: Store, k: Key): nat {
    if k in m then m[k].count else 0
  }

  // ---------------------------------------------- what each script does to a key

  /** `INCR`, and `EXPIRE` on the counter it creates. */
  function Incremented(m: Store, k: Key, now: nat): Store {
    if k in m then m[k := m[k].(count := m[k].count + 1)]
    else m[k := Counter(1, now + WINDOW_SECONDS)]
  }

  /** A failure restarts the window, or counts afresh once it ended. */
  function Restarted(m: Store, k: Key, now: nat): Store {
    if k in m then m[k := m[k].(ends := now + WINDOW_SECONDS)]
    else m[k := Counter(1, now + WINDOW_SECONDS)]
  }

  /** One slot given back; a counter that reaches 0 is removed. */
  function Decremented(m: Store, k: Key): Store {
    if Count(m, k) == 0 then m
    else if m[k].count == 1 then m - {k}
    else m[k := m[k].(count := m[k].count - 1)]
  }

  function IncrementedAll(m: Store, keys: seq<Key>, now: nat): Store {
    if keys == [] then m
    else Incremented(IncrementedAll(m, keys[..|keys| - 1], now), keys[|keys| - 1], now)
  }

  function RestartedAll(m: Store, keys: seq<Key>, now: nat): Store {
    if keys == [] then m
    else Restarted(RestartedAll(m, keys[..|keys| - 1], now), keys[|keys| - 1], now)
  }

  function DecrementedAll(m: Store, keys: seq<Key>): Store {
    if keys == [] then m
    else Decremented(DecrementedAll(m, keys[..|keys| - 1]), keys[|keys| - 1])
  }

  predicate HasRoom(m: Store, keys: seq<Key>) {
    forall k | k in keys :: Count(m, k) < Max(k)
  }

  // ----------------------------------------------------------------- the scripts

  class Redis {
    var counters: Store
    var now: nat

    constructor ()
      ensures counters == map[]
    {
      counters, now := map[], 0;
    }

    /** RESERVE: every counter is checked before any is raised. */
    method Reserve(keys: seq<Key>) returns (granted: bool)
      modifies this`counters
      ensures granted <==> HasRoom(old(counters), keys)
      ensures counters == if granted then IncrementedAll(old(counters), keys, now) else old(counters)
    {
      for i := 0 to |keys|
        invariant counters == old(counters)
        invariant forall j | 0 <= j < i :: Count(counters, keys[j]) < Max(keys[j])
      {
        if Count(counters, keys[i]) >= Max(keys[i]) {
          return false;
        }
      }
      for i := 0 to |keys|
        invariant counters == IncrementedAll(old(counters), keys[..i], now)
      {
        assert keys[..i + 1][..i] == keys[..i];
        counters := Incremented(counters, keys[i], now);
      }
      assert keys[..|keys|] == keys;
      return true;
    }

    /** FAILED. */
    method Failed(keys: seq<Key>)
      modifies this`counters
      ensures counters == RestartedAll(old(counters), keys, now)
    {
      for i := 0 to |keys|
        invariant counters == RestartedAll(old(counters), keys[..i], now)
      {
        assert keys[..i + 1][..i] == keys[..i];
        if keys[i] in counters {
          counters := counters[keys[i] := counters[keys[i]].(ends := now + WINDOW_SECONDS)];
        } else {
          counters := counters[keys[i] := Counter(1, now + WINDOW_SECONDS)];
        }
      }
      assert keys[..|keys|] == keys;
    }

    /** RELEASE. */
    method Release(keys: seq<Key>)
      modifies this`counters
      ensures counters == DecrementedAll(old(counters), keys)
    {
      for i := 0 to |keys|
        invariant counters == DecrementedAll(old(counters), keys[..i])
      {
        assert keys[..i + 1][..i] == keys[..i];
        if Count(counters, keys[i]) > 0 {
          if counters[keys[i]].count - 1 <= 0 {
            counters := counters - {keys[i]};
          } else {
            counters := counters[keys[i] := counters[keys[i]].(count := counters[keys[i]].count - 1)];
          }
        }
      }
      assert keys[..|keys|] == keys;
    }
  }

  // ------------------------------------------------ the scripts, counter by counter

  predicate AllDistinct(keys: seq<Key>) {
    forall i, j | 0 <= i < j < |keys| :: keys[i] != keys[j]
  }

  lemma LastKey(keys: seq<Key>, k: Key)
    requires keys != [] && AllDistinct(keys)
    ensures var n := |keys| - 1;
            && AllDistinct(keys[..n]) && keys[n] !in keys[..n] && (k in keys <==> k in keys[..n] || k == keys[n])
  {
    var n := |keys| - 1;
    assert keys == keys[..n] + [keys[n]];
  }

  lemma {:induction false} IncrementedAt(m: Store, keys: seq<Key>, now: nat, k: Key)
    requires AllDistinct(keys)
    ensures Count(IncrementedAll(m, keys, now), k) == Count(m, k) + if k in keys then 1 else 0
  {
    if keys != [] {
      LastKey(keys, k);
      IncrementedAt(m, keys[..|keys| - 1], now, k);
    }
  }

  lemma {:induction false} RestartedAt(m: Store, keys: seq<Key>, now: nat, k: Key)
    requires AllDistinct(keys)
    ensures var m' := RestartedAll(m, keys, now);
            && Count(m', k) == (if k in keys && k !in m then 1 else Count(m, k))
            && (k in m' <==> k in m || k in keys)
  {
    if keys != [] {
      LastKey(keys, k);
      RestartedAt(m, keys[..|keys| - 1], now, k);
    }
  }

  lemma {:induction false} DecrementedAt(m: Store, keys: seq<Key>, k: Key)
    requires AllDistinct(keys)
    ensures Count(DecrementedAll(m, keys), k)
            == if k in keys && Count(m, k) > 0 then Count(m, k) - 1 else Count(m, k)
  {
    if keys != [] {
      LastKey(keys, k);
      DecrementedAt(m, keys[..|keys| - 1], k);
    }
  }

  /** A success takes back exactly what the reservation put in. */
  lemma ReleaseUndoesReserve(m: Store, keys: seq<Key>, now: nat, k: Key)
    requires AllDistinct(keys)
    ensures Count(DecrementedAll(IncrementedAll(m, keys, now), keys), k) == Count(m, k)
  {
    IncrementedAt(m, keys, now, k);
    DecrementedAt(IncrementedAll(m, keys, now), keys, k);
  }

  // ---------------------------------------------------------- attempts interleaved

  datatype Kind =
    | Login(org: string, email: string, ip: string)
    | Confirm(user: string, ip: string)
    | PasswordChange(user: string)

  function Keys(kind: Kind): (keys: seq<Key>)
    ensures AllDistinct(keys)
  {
    match kind
    case Login(org, email, ip) => [Account(org, email), Ip(ip)]
    case Confirm(user, ip) => [User(user), Ip(ip)]
    case PasswordChange(user) => [Password(user)]
  }

  /** `holds`: the counters on which it has a slot it has not given back. */
  datatype Phase = InFlight | Clearing | Settled
  datatype Attempt = Attempt(kind: Kind, holds: set<Key>, phase: Phase)

  datatype State = State(counters: Store, now: nat, attempts: map<nat, Attempt>)

  datatype Step =
    | Start(id: nat, kind: Kind)   // RESERVE, granted or refused
    | Fail(id: nat)                // FAILED: the slots are kept
    | GiveBack(id: nat)            // RELEASE
    | ClearAccount(id: nat)        // a login succeeded: its account's counter is deleted,
    | GiveBackIp(id: nat)          // then its address's slot given back
    | Lose(id: nat)                // Redis could not take the settling: the slots stay
    | Tick(seconds: nat)

  predicate Is(s: State, id: nat, phase: Phase) {
    id in s.attempts && s.attempts[id].phase == phase
  }

  function Expired(m: Store, now: nat): Store {
    map k | k in m && now < m[k].ends :: m[k]
  }

  function Next(s: State, step: Step): Option<State> {
    match step
    case Start(id, kind) =>
      if id in s.attempts then None
      else if HasRoom(s.counters, Keys(kind)) then
        Some(s.(counters := IncrementedAll(s.counters, Keys(kind), s.now),
                attempts := s.attempts[id := Attempt(kind, (set k | k in Keys(kind)), InFlight)]))
      else Some(s.(attempts := s.attempts[id := Attempt(kind, {}, Settled)]))
    case Fail(id) =>
      if Is(s, id, InFlight) then
        Some(s.(counters := RestartedAll(s.counters, Keys(s.attempts[id].kind), s.now),
                attempts := s.attempts[id := s.attempts[id].(phase := Settled)]))
      else None
    case GiveBack(id) =>
      if Is(s, id, InFlight) then
        Some(s.(counters := DecrementedAll(s.counters, Keys(s.attempts[id].kind)),
                attempts := s.attempts[id := s.attempts[id].(holds := {}, phase := Settled)]))
      else None
    case ClearAccount(id) =>
      if Is(s, id, InFlight) && s.attempts[id].kind.Login? then
        var a := s.attempts[id];
        var k := Account(a.kind.org, a.kind.email);
        Some(s.(counters := s.counters - {k},
                attempts := s.attempts[id := a.(holds := a.holds - {k}, phase := Clearing)]))
      else None
    case GiveBackIp(id) =>
      if Is(s, id, Clearing) && s.attempts[id].kind.Login? then
        Some(s.(counters := DecrementedAll(s.counters, [Ip(s.attempts[id].kind.ip)]),
                attempts := s.attempts[id := s.attempts[id].(holds := {}, phase := Settled)]))
      else None
    case Lose(id) =>
      if id in s.attempts && !s.attempts[id].phase.Settled?
      then Some(s.(attempts := s.attempts[id := s.attempts[id].(phase := Settled)])) else None
    case Tick(seconds) =>
      Some(s.(now := s.now + seconds, counters := Expired(s.counters, s.now + seconds)))
  }

  ghost predicate IsRun(steps: seq<Step>, states: seq<State>) {
    && |states| == |steps| + 1 && states[0].counters == map[] && states[0].attempts == map[]
    && forall i {:trigger steps[i]} | 0 <= i < |steps| :: Next(states[i], steps[i]) == Some(states[i + 1])
  }

  /** The attempts with a slot on `k`. */
  function Holders(s: State, k: Key): set<nat> {
    set id | id in s.attempts && k in s.attempts[id].holds
  }

  /** An attempt under way holds its counters, and no other. */
  ghost predicate HoldsItsKeys(s: State) {
    forall id | id in s.attempts ::
      var a := s.attempts[id];
      && (a.phase.InFlight? ==> a.holds == (set k | k in Keys(a.kind)))
      && (a.phase.Clearing? ==> a.kind.Login? && a.holds == {Ip(a.kind.ip)})
  }

  ghost predicate IsBounded(s: State, k: Key) {
    && (k in s.counters ==> 1 <= s.counters[k].count <= Max(k))
    && Count(s.counters, k) <= |Holders(s, k)|
  }

  /** The step deletes the counter `k` with its slots unreturned. */
  predicate Wipes(s: State, step: Step, k: Key) {
    || (step.Tick? && k in s.counters && s.counters[k].ends <= s.now + step.seconds)
    || (step.ClearAccount? && step.id in s.attempts && s.attempts[step.id].kind.Login?
        && k == Account(s.attempts[step.id].kind.org, s.attempts[step.id].kind.email))
  }

  lemma HoldsKept(s: State, step: Step, t: State)
    requires HoldsItsKeys(s) && Next(s, step) == Some(t)
    ensures HoldsItsKeys(t)
  {
  }

  lemma HoldersChange(s: State, step: Step, t: State, k: Key)
    requires HoldsItsKeys(s) && Next(s, step) == Some(t)
    ensures match step
            case Start(id, kind) =>
              Holders(t, k) == Holders(s, k) + (if HasRoom(s.counters, Keys(kind)) && k in Keys(kind) then {id} else {})
            case GiveBack(id) => Holders(t, k) == Holders(s, k) - {id}
            case ClearAccount(id) => Holders(t, k) == if Wipes(s, step, k) then Holders(s, k) - {id} else Holders(s, k)
            case GiveBackIp(id) => Holders(t, k) == Holders(s, k) - {id}
            case _ => Holders(t, k) == Holders(s, k)
  {
  }

  function KeysOf(s: State, id: nat): seq<Key> {
    if id in s.attempts then Keys(s.attempts[id].kind) else []
  }

  /** What a step does to one counter. */
  lemma CountChange(s: State, step: Step, t: State, k: Key)
    requires HoldsItsKeys(s) && Next(s, step) == Some(t)
    ensures match step
            case Start(id, kind) =>
              Count(t.counters, k) == Count(s.counters, k) + (if HasRoom(s.counters, Keys(kind)) && k in Keys(kind) then 1 else 0)
            case Fail(id) =>
              Count(t.counters, k) == if k in KeysOf(s, id) && k !in s.counters then 1 else Count(s.counters, k)
            case GiveBack(id) =>
              Count(t.counters, k) == if id in Holders(s, k) && Count(s.counters, k) > 0 then Count(s.counters, k) - 1 else Count(s.counters, k)
            case GiveBackIp(id) =>
              Count(t.counters, k) == if id in Holders(s, k) && Count(s.counters, k) > 0 then Count(s.counters, k) - 1 else Count(s.counters, k)
            case _ => Count(t.counters, k) == if Wipes(s, step, k) then 0 else Count(s.counters, k)
  {
    match step
    case Start(id, kind) => IncrementedAt(s.counters, Keys(kind), s.now, k);
    case Fail(id) => RestartedAt(s.counters, KeysOf(s, id), s.now, k);
    case GiveBack(id) => DecrementedAt(s.counters, KeysOf(s, id), k);
    case GiveBackIp(id) => DecrementedAt(s.counters, [Ip(s.attempts[id].kind.ip)], k);
    case _ =>
  }

  /** A counter that exists counts something. */
  predicate NoEmptyCounter(m: Store) {
    forall k | k in m :: m[k].count > 0
  }

  lemma {:induction false} IncrementedCounts(m: Store, keys: seq<Key>, now: nat)
    requires NoEmptyCounter(m)
    ensures NoEmptyCounter(IncrementedAll(m, keys, now))
  {
    if keys != [] {
      IncrementedCounts(m, keys[..|keys| - 1], now);
    }
  }

  lemma {:induction false} RestartedCounts(m: Store, keys: seq<Key>, now: nat)
    requires NoEmptyCounter(m)
    ensures NoEmptyCounter(RestartedAll(m, keys, now))
  {
    if keys != [] {
      RestartedCounts(m, keys[..|keys| - 1], now);
    }
  }

  lemma {:induction false} DecrementedCounts(m: Store, keys: seq<Key>)
    requires NoEmptyCounter(m)
    ensures NoEmptyCounter(DecrementedAll(m, keys))
  {
    if keys != [] {
      DecrementedCounts(m, keys[..|keys| - 1]);
    }
  }

  lemma CountersKept(s: State, step: Step, t: State)
    requires NoEmptyCounter(s.counters) && Next(s, step) == Some(t)
    ensures NoEmptyCounter(t.counters)
  {
    match step
    case Start(id, kind) => IncrementedCounts(s.counters, Keys(kind), s.now);
    case Fail(id) => RestartedCounts(s.counters, KeysOf(s, id), s.now);
    case GiveBack(id) => DecrementedCounts(s.counters, KeysOf(s, id));
    case GiveBackIp(id) => DecrementedCounts(s.counters, [Ip(s.attempts[id].kind.ip)]);
    case _ =>
  }

  lemma BoundKept(s: State, step: Step, t: State, k: Key)
    requires HoldsItsKeys(s) && IsBounded(s, k) && Next(s, step) == Some(t)
    requires NoEmptyCounter(s.counters)
    ensures IsBounded(t, k)
  {
    HoldersChange(s, step, t, k);
    CountChange(s, step, t, k);
    CountersKept(s, step, t);
    if step.Fail? && k in KeysOf(s, step.id) {
      assert step.id in Holders(s, k);
    }
    if step.Start? {
      assert step.id !in Holders(s, k);
    }
  }

  /** Under any interleaving, with windows that end and stores that fail: every
      counter lies between 1 and its threshold, and counts no slot twice. */
  lemma {:induction false} CountersStayBounded(steps: seq<Step>, states: seq<State>, i: nat, k: Key)
    requires IsRun(steps, states) && i < |states|
    ensures HoldsItsKeys(states[i]) && NoEmptyCounter(states[i].counters) && IsBounded(states[i], k)
  {
    if i > 0 {
      CountersStayBounded(steps, states, i - 1, k);
      var step := steps[i - 1];
      HoldsKept(states[i - 1], step, states[i]);
      CountersKept(states[i - 1], step, states[i]);
      BoundKept(states[i - 1], step, states[i], k);
    }
  }

  predicate IsExact(s: State, k: Key) {
    Count(s.counters, k) == |Holders(s, k)|
  }

  lemma ExactKept(s: State, step: Step, t: State, k: Key)
    requires HoldsItsKeys(s) && NoEmptyCounter(s.counters) && Next(s, step) == Some(t)
    requires IsExact(s, k)
    ensures Wipes(s, step, k) ==> Count(t.counters, k) == 0
    ensures !Wipes(s, step, k) ==> IsExact(t, k)
  {
    HoldersChange(s, step, t, k);
    CountChange(s, step, t, k);
    if step.Fail? && k in KeysOf(s, step.id) {
      assert step.id in Holders(s, k);
    }
    if step.Start? {
      assert step.id !in Holders(s, k);
    }
  }

  /** A counter is always exactly the slots held on it, if and only if it is never
      deleted (its window ending, a login of its account succeeding) while an
      attempt still holds one. */
  lemma ExactUnlessWiped(steps: seq<Step>, states: seq<State>, k: Key)
    requires IsRun(steps, states)
    ensures (forall i | 0 <= i < |states| :: IsExact(states[i], k)) <==>
            (forall i | 0 <= i < |steps| && Wipes(states[i], steps[i], k) :: Holders(states[i + 1], k) == {})
  {
    if forall i | 0 <= i < |states| :: IsExact(states[i], k) {
      forall i | 0 <= i < |steps| && Wipes(states[i], steps[i], k) ensures Holders(states[i + 1], k) == {} {
        CountersStayBounded(steps, states, i, k);
        assert IsExact(states[i], k) && IsExact(states[i + 1], k);
        ExactKept(states[i], steps[i], states[i + 1], k);
      }
    }
    if forall i | 0 <= i < |steps| && Wipes(states[i], steps[i], k) :: Holders(states[i + 1], k) == {} {
      forall i | 0 <= i < |states| ensures IsExact(states[i], k) {
        ExactAt(steps, states, i, k);
      }
    }
  }

  lemma {:induction false} ExactAt(steps: seq<Step>, states: seq<State>, i: nat, k: Key)
    requires IsRun(steps, states) && i < |states|
    requires forall j | 0 <= j < |steps| && Wipes(states[j], steps[j], k) :: Holders(states[j + 1], k) == {}
    ensures IsExact(states[i], k)
  {
    if i > 0 {
      ExactAt(steps, states, i - 1, k);
      CountersStayBounded(steps, states, i - 1, k);
      ExactKept(states[i - 1], steps[i - 1], states[i], k);
    }
  }

  /** No burst passes the threshold: while the counter is not deleted with a slot held on
      it, it is the attempts in flight plus the failures, at most `Max` of them. The
      counters of an address, a user and a password are deleted by their window alone. */
  lemma NoBurst(steps: seq<Step>, states: seq<State>, i: nat, k: Key)
    requires IsRun(steps, states) && i < |states|
    requires forall j | 0 <= j < |steps| && Wipes(states[j], steps[j], k) :: Holders(states[j + 1], k) == {}
    ensures IsExact(states[i], k) && |Holders(states[i], k)| <= Max(k)
    ensures !k.Account? ==> forall j | 0 <= j < |steps| && Wipes(states[j], steps[j], k) :: steps[j].Tick?
  {
    ExactAt(steps, states, i, k);
    CountersStayBounded(steps, states, i, k);
  }

  // ------------------------------------------------------ the account's counter

  lemma Extended(steps: seq<Step>, states: seq<State>, step: Step, t: State)
    requires IsRun(steps, states) && Next(states[|steps|], step) == Some(t)
    ensures IsRun(steps + [step], states + [t])
  {
    var all, longer := steps + [step], states + [t];
    forall i {:trigger all[i]} | 0 <= i < |all| ensures Next(longer[i], all[i]) == Some(longer[i + 1]) {
      if i < |steps| {
        assert all[i] == steps[i];
      }
    }
  }

  /** `n` attempts more, in flight under the numbers from `first` on. */
  ghost predicate HaveJoined(s: State, t: State, kind: Kind, first: nat, n: nat) {
    && (forall id | id in t.attempts :: id in s.attempts || first <= id < first + n)
    && (n > 0 ==> first in t.attempts && t.attempts[first].phase.InFlight? && t.attempts[first].kind == kind)
    && (forall k | k in Keys(kind) ::
          Count(t.counters, k) == Count(s.counters, k) + n && |Holders(t, k)| == |Holders(s, k)| + n)
  }

  lemma HolderJoins(s: State, t: State, id: nat, a: Attempt, k: Key)
    requires id !in s.attempts && t.attempts == s.attempts[id := a] && k in a.holds
    ensures |Holders(t, k)| == |Holders(s, k)| + 1
  {
    assert Holders(t, k) == Holders(s, k) + {id};
  }

  lemma OneJoins(s: State, kind: Kind, id: nat, t: State)
    requires HasRoom(s.counters, Keys(kind)) && Next(s, Start(id, kind)) == Some(t)
    ensures t.attempts == s.attempts[id := Attempt(kind, (set k | k in Keys(kind)), InFlight)]
    ensures forall k | k in Keys(kind) ::
              Count(t.counters, k) == Count(s.counters, k) + 1 && |Holders(t, k)| == |Holders(s, k)| + 1
  {
    forall k | k in Keys(kind)
      ensures Count(t.counters, k) == Count(s.counters, k) + 1 && |Holders(t, k)| == |Holders(s, k)| + 1
    {
      IncrementedAt(s.counters, Keys(kind), s.now, k);
      HolderJoins(s, t, id, t.attempts[id], k);
    }
  }

  /** While there is room, attempts are granted one after the other. */
  lemma {:induction false} MoreAttempts(kind: Kind, steps: seq<Step>, states: seq<State>, first: nat, n: nat)
    returns (all: seq<Step>, longer: seq<State>)
    requires IsRun(steps, states)
    requires forall id | id in states[|steps|].attempts :: id < first
    requires forall k | k in Keys(kind) :: Count(states[|steps|].counters, k) + n <= Max(k)
    ensures IsRun(all, longer) && HaveJoined(states[|steps|], longer[|all|], kind, first, n)
  {
    if n == 0 {
      all, longer := steps, states;
    } else {
      all, longer := MoreAttempts(kind, steps, states, first, n - 1);
      var s, step := longer[|all|], Start(first + n - 1, kind);
      var t := Next(s, step).value;
      OneJoins(s, kind, first + n - 1, t);
      Extended(all, longer, step, t);
      all, longer := all + [step], longer + [t];
    }
  }

  const LOGIN: Kind := Login("org", "mail", "ip")
  const ACCOUNT: Key := Account("org", "mail")

  /** Five logins of an account, one of which succeeded: four still hold their slots. */
  lemma OneOfFiveSucceeds() returns (steps: seq<Step>, states: seq<State>)
    ensures IsRun(steps, states)
    ensures var s := states[|steps|];
            && (forall id | id in s.attempts :: id < 5) && |Holders(s, ACCOUNT)| == 4
            && Count(s.counters, ACCOUNT) == 0 && Count(s.counters, Ip("ip")) == 5
  {
    var none := State(map[], 0, map[]);
    assert Holders(none, ACCOUNT) == {};
    steps, states := MoreAttempts(LOGIN, [], [none], 0, 5);
    var s := states[|steps|];
    assert ACCOUNT in Keys(LOGIN) && Ip("ip") in Keys(LOGIN);
    CountersStayBounded(steps, states, |steps|, ACCOUNT);
    var t := Next(s, ClearAccount(0)).value;
    HoldersChange(s, ClearAccount(0), t, ACCOUNT);
    assert 0 in Holders(s, ACCOUNT);
    Extended(steps, states, ClearAccount(0), t);
    steps, states := steps + [ClearAccount(0)], states + [t];
  }

  /** The bound is not the account's: one login of five succeeds and clears the counter
      while the others are in flight, and five more are granted. */
  lemma AccountBurst() returns (steps: seq<Step>, states: seq<State>)
    ensures IsRun(steps, states) && |Holders(states[|steps|], ACCOUNT)| == 9 > Max(ACCOUNT)
  {
    steps, states := OneOfFiveSucceeds();
    steps, states := MoreAttempts(LOGIN, steps, states, 5, 5);
    assert ACCOUNT in Keys(LOGIN);
  }
}
