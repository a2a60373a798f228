/**
 The creation-time cache: filled at a Launch, consulted and purged at a Terminate,
 looked up by network records, and swept of processes that are gone by a thread
 that does not hold the lock while it probes them.
 */
module CreatedTimeCache {
  import opened Common
  import Delivery
  import DeliveryLedger

  type Pid = nat
  type Nanos = nat

  const U64_MAX: nat := 0xFFFF_FFFF_FFFF_FFFF
  const FILETIME_TO_UNIX_100NS: int := 116_444_736_000_000_000

  // -------------------------------------------------------------------- times

  /** A FILETIME as Unix nanoseconds; there are none before 1970, and at 64 bits the
      product saturates. */
  function FiletimeToUnixNanos(filetime: int): Option<Nanos> {
    var unix := filetime - FILETIME_TO_UNIX_100NS;
    if unix < 0 then None
    else if unix * 100 > U64_MAX then Some(U64_MAX)
    else Some(unix * 100)
  }

  /** Distinct times stay distinct, and in order, exactly until the product saturates. */
  lemma NanosAreInOrder(f: int, g: int)
    requires FILETIME_TO_UNIX_100NS <= f < g
    ensures FiletimeToUnixNanos(f).Some? && FiletimeToUnixNanos(g).Some?
    ensures FiletimeToUnixNanos(f).value < FiletimeToUnixNanos(g).value
            <==> (f - FILETIME_TO_UNIX_100NS) * 100 < U64_MAX
  {
  }

  // ---------------------------------------------------------------- identities

  function Digit(d: nat): char
    requires d < 10
  {
    "0123456789"[d]
  }

  function Decimal(n: nat): (s: string)
    ensures s != [] && forall i | 0 <= i < |s| :: '0' <= s[i] <= '9'
  {
    if n < 10 then [Digit(n)] else Decimal(n / 10) + [Digit(n % 10)]
  }

  /** `<agent_id>:<pid>:<created_time>`. */
  function ProcessUid(agentId: string, pid: Pid, created: Nanos): string {
    agentId + ":" + Decimal(pid) + ":" + Decimal(created)
  }

  function Value(s: string): nat
    requires forall i | 0 <= i < |s| :: '0' <= s[i] <= '9'
  {
    if s == [] then 0 else Value(s[..|s| - 1]) * 10 + (s[|s| - 1] as int - '0' as int)
  }

  lemma {:induction false} DecimalHasValue(n: nat)
    ensures Value(Decimal(n)) == n
  {
    if n >= 10 {
      DecimalHasValue(n / 10);
      var s := Decimal(n);
      assert s[..|s| - 1] == Decimal(n / 10);
    } else {
      assert Decimal(n)[..0] == [];
    }
  }

  lemma SplitIsUnique(a: string, b: string, c: string, d: string)
    requires ':' !in a && ':' !in c && a + ":" + b == c + ":" + d
    ensures a == c && b == d
  {
    var s := a + ":" + b;
    assert s[|a|] == ':' && s[|c|] == ':';
    assert forall i | 0 <= i < |a| :: s[i] == a[i];
    assert forall i | 0 <= i < |c| :: s[i] == c[i];
    assert a == s[..|a|] && c == s[..|c|];
    assert b == s[|a| + 1..] && d == s[|c| + 1..];
  }

  /** Two processes of an agent have the same uid only when they are one. */
  lemma UidIsUnique(agentId: string, pid: Pid, created: Nanos, pid': Pid, created': Nanos)
    requires ProcessUid(agentId, pid, created) == ProcessUid(agentId, pid', created')
    ensures pid == pid' && created == created'
  {
    var rest, rest' := Decimal(pid) + ":" + Decimal(created), Decimal(pid') + ":" + Decimal(created');
    var u := ProcessUid(agentId, pid, created);
    assert u == (agentId + ":") + rest && u == (agentId + ":") + rest';
    assert rest == u[|agentId| + 1..] && rest' == u[|agentId| + 1..];
    SplitIsUnique(Decimal(pid), Decimal(created), Decimal(pid'), Decimal(created'));
    DecimalHasValue(pid);
    DecimalHasValue(pid');
    DecimalHasValue(created);
    DecimalHasValue(created');
  }

  // ------------------------------------------------------------------ the cache

  type Entries = map<Pid, Nanos>

  /** The entries but for those of `gone` that still hold the time they had. */
  function Evicted(entries: Entries, gone: seq<(Pid, Nanos)>): Entries {
    map pid | pid in entries && (pid, entries[pid]) !in gone :: entries[pid]
  }

  /** The snapshot's entries whose process is not alive. */
  predicate AreGone(snapshot: Entries, alive: Pid -> bool, gone: seq<(Pid, Nanos)>) {
    && (forall pid | pid in snapshot && !alive(pid) :: (pid, snapshot[pid]) in gone)
    && (forall g | g in gone :: g.0 in snapshot && snapshot[g.0] == g.1 && !alive(g.0))
  }

  class Cache {
    var entries: Entries

    constructor ()
      ensures entries == map[]
    {
      entries := map[];
    }

    method Insert(pid: Pid, created: Nanos)
      modifies this
      ensures entries == old(entries)[pid := created]
    {
      entries := entries[pid := created];
    }

    method ConsultAndPurge(pid: Pid) returns (created: Option<Nanos>)
      modifies this
      ensures created == if pid in old(entries) then Some(old(entries)[pid]) else None
      ensures entries == old(entries) - {pid}
    {
      created := if pid in entries then Some(entries[pid]) else None;
      entries := entries - {pid};
    }

    /** The sweep's last part, under the lock again. */
    method Evict(gone: seq<(Pid, Nanos)>) returns (evicted: nat)
      modifies this
      ensures entries == Evicted(old(entries), gone)
      ensures |entries| + evicted == |old(entries)|
    {
      evicted := 0;
      assert Evicted(entries, gone[..0]) == entries;
      for i := 0 to |gone|
        invariant entries == Evicted(old(entries), gone[..i])
        invariant |entries| + evicted == |old(entries)|
      {
        var (pid, time) := gone[i];
        assert gone[..i + 1] == gone[..i] + [gone[i]];
        if pid in entries && entries[pid] == time {
          ghost var before := entries;
          entries := entries - {pid};
          evicted := evicted + 1;
          assert before.Keys == entries.Keys + {pid};
        }
        assert entries == Evicted(old(entries), gone[..i + 1]);
      }
      assert gone[..|gone|] == gone;
    }
  }

  /** The sweep's middle part, with no lock held: each process of the snapshot probed. */
  method Probe(snapshot: Entries, alive: Pid -> bool) returns (gone: seq<(Pid, Nanos)>)
    ensures AreGone(snapshot, alive, gone)
  {
    gone := [];
    var todo := snapshot.Keys;
    while todo != {}
      invariant todo <= snapshot.Keys
      invariant forall pid | pid in snapshot && pid !in todo && !alive(pid) :: (pid, snapshot[pid]) in gone
      invariant forall g | g in gone :: g.0 in snapshot && snapshot[g.0] == g.1 && !alive(g.0)
      decreases todo
    {
      var pid :| pid in todo;
      if !alive(pid) {
        gone := gone + [(pid, snapshot[pid])];
      }
      todo := todo - {pid};
    }
  }

  /** A process record as it is enqueued. */
  type Captured = e: DeliveryLedger.Event | e.ProcessEvent?
    witness DeliveryLedger.ProcessEvent(0, true, "", 0, 0, None)

  /** The uid an event is rendered with: of its creation, or of itself on a miss. */
  function UidOf(agentId: string, e: Captured): string {
    ProcessUid(agentId, e.pid, if e.created.Some? then e.created.value else e.time)
  }

  /** A process record's dispatch: a record from before 1970 is dropped and leaves the
      cache and the ring alone; otherwise its creation time is settled here, whatever the
      PID does before the batch is formed, and the event comes to the ring. */
  method DispatchRecord(
      id: nat, isLaunch: bool, pid: Pid, filetime: int, image: string, cache: Cache, ring: Delivery.EventRing,
      now: int)
    returns (e: Option<Captured>)
    requires ring.Valid()
    modifies cache, ring
    ensures ring.Valid()
    ensures e.None? <==> filetime < FILETIME_TO_UNIX_100NS
    ensures e.None? ==> cache.entries == old(cache.entries) && ring.ledger == old(ring.ledger)
    ensures e.Some? ==>
      ring.ledger == Delivery.Arrived(old(ring.ledger), e.value, |old(ring.events)| == ring.capacity)
    ensures e.Some? ==>
      && e.value.id == id && e.value.isLaunch == isLaunch && e.value.image == image && e.value.pid == pid
      && Some(e.value.time) == FiletimeToUnixNanos(filetime)
    ensures e.Some? && isLaunch ==>
      e.value.created == Some(e.value.time) && cache.entries == old(cache.entries)[pid := e.value.time]
    ensures e.Some? && !isLaunch ==>
      && e.value.created == (if pid in old(cache.entries) then Some(old(cache.entries)[pid]) else None)
      && cache.entries == old(cache.entries) - {pid}
  {
    var time := FiletimeToUnixNanos(filetime);
    if time.None? { return None; }
    var created;
    if isLaunch {
      cache.Insert(pid, time.value);
      created := time;
    } else {
      created := cache.ConsultAndPurge(pid);
    }
    var event := DeliveryLedger.ProcessEvent(id, isLaunch, image, pid, time.value, created);
    ring.EnqueueOrDrop(event, now);
    return Some(event);
  }

  // ------------------------------------------------------------ any interleaving

  datatype Step =
    | Launch(pid: Pid, time: Nanos)
    | Terminate(pid: Pid)
    | Lookup(pid: Pid)
    | Snapshot(sweep: nat)
    | Sweep(sweep: nat, gone: seq<(Pid, Nanos)>)

  /** `taken`: the snapshots of the sweeps under way. */
  datatype State = State(entries: Entries, taken: map<nat, Entries>)

  ghost function Next(s: State, step: Step): Option<State> {
    match step
    case Launch(pid, time) => Some(s.(entries := s.entries[pid := time]))
    case Terminate(pid) => Some(s.(entries := s.entries - {pid}))
    case Lookup(pid) => Some(s)
    case Snapshot(x) => if x !in s.taken then Some(s.(taken := s.taken[x := s.entries])) else None
    case Sweep(x, gone) =>
      if x in s.taken && exists alive :: AreGone(s.taken[x], alive, gone)
      then Some(s.(entries := Evicted(s.entries, gone))) else None
  }

  ghost predicate IsRun(steps: seq<Step>, states: seq<State>) {
    && |states| == |steps| + 1 && states[0] == State(map[], map[])
    && forall i {:trigger steps[i]} | 0 <= i < |steps| :: Next(states[i], steps[i]) == Some(states[i + 1])
  }

  /** The time of the latest Launch of `pid` that no Terminate has followed. */
  function LastLaunch(steps: seq<Step>, pid: Pid): Option<Nanos> {
    if steps == [] then None
    else
      match steps[|steps| - 1]
      case Launch(p, time) => if p == pid then Some(time) else LastLaunch(steps[..|steps| - 1], pid)
      case Terminate(p) => if p == pid then None else LastLaunch(steps[..|steps| - 1], pid)
      case _ => LastLaunch(steps[..|steps| - 1], pid)
  }

  /** A Terminate or a lookup finds nothing, or exactly the time of that process's
      latest unterminated Launch; never one of another process with its PID. */
  lemma {:induction false} HitIsTheLastLaunch(steps: seq<Step>, states: seq<State>, i: nat, pid: Pid)
    requires IsRun(steps, states) && i < |states|
    ensures pid in states[i].entries ==> LastLaunch(steps[..i], pid) == Some(states[i].entries[pid])
  {
    if i > 0 {
      HitIsTheLastLaunch(steps, states, i - 1, pid);
      assert steps[..i][..i - 1] == steps[..i - 1];
      assert Next(states[i - 1], steps[i - 1]) == Some(states[i]);
    }
  }

  /** A Terminate that hits has the uid of the process's latest Launch, and of no
      other process of the agent. */
  lemma HitGivesTheSameUid(
      steps: seq<Step>, states: seq<State>, i: nat, pid: Pid, agentId: string, terminate: Captured, other: Captured)
    requires IsRun(steps, states) && i < |steps| && steps[i] == Terminate(pid) && pid in states[i].entries
    requires terminate.pid == pid && terminate.created == Some(states[i].entries[pid])
    requires other.created == Some(other.time)
    ensures LastLaunch(steps[..i], pid).Some?
    ensures UidOf(agentId, terminate) == UidOf(agentId, other)
            <==> other.pid == pid && LastLaunch(steps[..i], pid) == Some(other.time)
  {
    HitIsTheLastLaunch(steps, states, i, pid);
    if UidOf(agentId, terminate) == UidOf(agentId, other) {
      UidIsUnique(agentId, pid, states[i].entries[pid], other.pid, other.time);
    }
  }

  /** The times of a PID's Launches are distinct. */
  ghost predicate LaunchesAreDistinct(steps: seq<Step>) {
    forall i, j | 0 <= i < j < |steps| && steps[i].Launch? && steps[j].Launch? && steps[i].pid == steps[j].pid ::
      steps[i].time != steps[j].time
  }

  /** What a snapshot holds was launched before it. */
  lemma {:induction false} EntriesWereLaunched(steps: seq<Step>, states: seq<State>, i: nat, pid: Pid) returns (k: nat)
    requires IsRun(steps, states) && i < |states| && pid in states[i].entries
    ensures k < i && steps[k] == Launch(pid, states[i].entries[pid])
  {
    assert i > 0;
    var step := steps[i - 1];
    assert Next(states[i - 1], step) == Some(states[i]);
    if step.Launch? && step.pid == pid {
      k := i - 1;
    } else {
      k := EntriesWereLaunched(steps, states, i - 1, pid);
    }
  }

  lemma {:induction false} SnapshotStays(steps: seq<Step>, states: seq<State>, i: nat, j: nat, x: nat)
    requires IsRun(steps, states) && i < j < |states| && steps[i] == Snapshot(x)
    ensures x in states[j].taken && states[j].taken[x] == states[i].entries
    decreases j
  {
    assert Next(states[j - 1], steps[j - 1]) == Some(states[j]);
    if i < j - 1 {
      SnapshotStays(steps, states, i, j - 1, x);
    } else {
      assert Next(states[i], steps[i]) == Some(states[i + 1]);
    }
  }

  /** A Launch made between a sweep's snapshot and its eviction is never evicted by
      it, even when the probe found the PID's earlier process gone. */
  lemma NewLaunchIsNotEvicted(steps: seq<Step>, states: seq<State>, i: nat, j: nat, x: nat, k: nat, pid: Pid)
    requires IsRun(steps, states) && LaunchesAreDistinct(steps)
    requires i < k < j < |steps| && steps[i] == Snapshot(x) && steps[j].Sweep? && steps[j].sweep == x
    requires steps[k].Launch? && steps[k].pid == pid
    requires pid in states[j].entries && states[j].entries[pid] == steps[k].time
    ensures pid in states[j + 1].entries && states[j + 1].entries[pid] == steps[k].time
  {
    SnapshotStays(steps, states, i, j, x);
    assert Next(states[j], steps[j]) == Some(states[j + 1]);
    var gone := steps[j].gone;
    if (pid, steps[k].time) in gone {
      var m := EntriesWereLaunched(steps, states, i, pid);
      assert false;
    }
  }
}
