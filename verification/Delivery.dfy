/**
 The ring of captured events and the loop that delivers them: one POST in flight,
 retried under two budgets, while capture goes on enqueuing. Both keep the account
 of `DeliveryLedger`. Times are milliseconds.
 */
module Delivery {
  import opened Common
  import opened DeliveryLedger
  import opened DeliveryPosts

  const MAX_BATCH_LATENCY: int := 5000

  function EventsOf(timed: seq<(int, Event)>): seq<Event> {
    if timed == [] then [] else [timed[0].1] + EventsOf(timed[1..])
  }

  lemma {:induction false} EventsOfBoth(a: seq<(int, Event)>, b: seq<(int, Event)>)
    ensures EventsOf(a + b) == EventsOf(a) + EventsOf(b) && |EventsOf(a)| == |a|
    decreases |a|
  {
    if a == [] {
      Empty(b);
      Empty(EventsOf(b));
    } else {
      EventsOfBoth(a[1..], b);
      assert (a + b)[1..] == a[1..] + b;
      Assoc([a[0].1], EventsOf(a[1..]), EventsOf(b));
    }
  }

  lemma EventsOfParts(timed: seq<(int, Event)>, n: nat)
    requires n <= |timed|
    ensures |EventsOf(timed)| == |timed|
    ensures EventsOf(timed[n..]) == EventsOf(timed)[n..] && EventsOf(timed[..n]) == EventsOf(timed)[..n]
  {
    EventsOfBoth(timed, []);
    EventsOfBoth(timed[..n], timed[n..]);
    assert timed[..n] + timed[n..] == timed;
  }

  lemma EventsOfMore(timed: seq<(int, Event)>, last: (int, Event))
    ensures EventsOf(timed + [last]) == EventsOf(timed) + [last.1]
  {
    EventsOfBoth(timed, [last]);
  }

  /** A process event whose name would be empty is not accepted. */
  predicate IsAnomaly(e: Event) {
    e.ProcessEvent? && e.image == ""
  }

  /** The account once an event has come to the ring. */
  function Arrived(l: Ledger, e: Event, full: bool): Ledger {
    if IsAnomaly(e) then l else Accept(if full then Overflow(l) else l, e)
  }

  class EventRing {
    const capacity: nat
    var events: seq<(int, Event)>
    var dropped: nat
    ghost var ledger: Account
    /** The entries the account is made of. */
    ghost var entries: seq<Entry>

    /** The ring is the accepted events with no fate yet, within its capacity. */
    ghost predicate Valid()
      reads this
    {
      && capacity > 0 && |events| <= capacity
      && After(entries) == Some(ledger) && EventsOf(events) == Ring(ledger)
      && dropped == ledger.dropped
    }

    constructor (capacity: nat)
      requires capacity > 0
      ensures Valid() && ledger == EMPTY
    {
      this.capacity := capacity;
      events, dropped := [], 0;
      ledger, entries := EMPTY, [];
    }

    /** Enqueue at the back; full, the oldest is dropped and counted. */
    method EnqueueOrDrop(e: Event, now: int)
      requires Valid()
      modifies this
      ensures Valid() && ledger == Arrived(old(ledger), e, |old(events)| == capacity)
    {
      if IsAnomaly(e) { return; }
      if |events| >= capacity {
        PopFront();
      }
      PushBack(e, now);
    }

    method PushBack(e: Event, now: int)
      requires Valid() && |events| < capacity
      modifies this`events, this`ledger, this`entries
      ensures Valid() && ledger == Accept(old(ledger), e)
    {
      EventsOfMore(events, (now, e));
      ledger := AcceptEntry(entries, ledger, e);
      entries := entries + [Accepting(e)];
      events := events + [(now, e)];
    }

    method PopFront()
      requires Valid() && events != []
      modifies this`events, this`dropped, this`ledger, this`entries
      ensures Valid() && |events| == |old(events)| - 1
      ensures ledger == Overflow(old(ledger))
    {
      EventsOfParts(events, 1);
      ledger := OverflowEntry(entries, ledger);
      entries := entries + [Overflowing];
      events := events[1..];
      dropped := dropped + 1;
    }

    /** The oldest events, at most `MAX_BATCH_EVENTS`, as the next batch. */
    method DrainUpTo(max: nat) returns (drained: seq<Event>)
      requires Valid() && max <= MAX_BATCH_EVENTS
      modifies this
      ensures Valid() && ledger.accepted == old(ledger.accepted) && ledger.outside == old(ledger.outside)
      ensures ledger.batches == old(ledger.batches) + [Batch(|old(ledger.fate)|, drained, InFlight)]
      ensures |drained| == if max < |old(events)| then max else |old(events)|
    {
      var n := if max < |events| then max else |events|;
      EventsOfParts(events, n);
      drained := EventsOf(events[..n]);
      ledger := FormEntry(entries, ledger, n);
      entries := entries + [Forming(n)];
      events := events[n..];
    }

    method AddDropped(n: nat)
      requires Valid()
      modifies this`dropped, this`ledger, this`entries
      ensures Valid() && ledger == Counted(old(ledger), n)
    {
      dropped := dropped + n;
      ledger := CountEntry(entries, ledger, n);
      entries := entries + [Counting(n)];
    }

    /** The account's entry for how the last batch ended. */
    ghost method Close(end: End)
      requires Valid() && ledger.batches != []
      modifies this`ledger, this`entries
      ensures Valid() && ledger == Finish(old(ledger), end)
    {
      ledger := FinishEntry(entries, ledger, end);
      entries := entries + [Ending(end)];
    }
  }

  // ------------------------------------------------------------------ the loop

  datatype Pending = Pending(batch: Flight, backoffMs: nat)

  function Flying(p: Option<Pending>): Option<Flight> {
    if p.None? then None else Some(p.value.batch)
  }

  /** The events that come to the ring while the loop waits, and how the wait ends. */
  datatype Round = Round(now: int, before: seq<Event>, during: seq<Event>, attempt: Attempt,
                         stopIdle: bool, stopAttempt: bool, stopBackoff: bool)

  /** The loop's schedule: the next tick, a tick not served yet, and whether a batch
      POST was formed since the last tick. */
  datatype Clock = Clock(tickAt: int, heartbeatDue: bool, batchPostSinceTick: bool)

  /** The first tick after `now`, on the schedule of `tickAt`. */
  function TickAfter(tickAt: int, now: int, interval: nat): int
    requires interval > 0
    decreases if tickAt > now then 0 else now - tickAt + 1
  {
    if tickAt > now then tickAt else TickAfter(tickAt + interval, now, interval)
  }

  /** The schedule never shifts, and no tick that is still to come is passed over. */
  lemma {:induction false} TickIsOnSchedule(tickAt: int, now: int, interval: nat) returns (k: nat)
    requires interval > 0
    ensures TickAfter(tickAt, now, interval) == tickAt + k * interval > now
    ensures k > 0 ==> tickAt + (k - 1) * interval <= now
    decreases if tickAt > now then 0 else now - tickAt + 1
  {
    if tickAt > now {
      k := 0;
    } else {
      var j := TickIsOnSchedule(tickAt + interval, now, interval);
      k := j + 1;
      assert k * interval == j * interval + interval;
      if j > 0 {
        assert j * interval == (j - 1) * interval + interval;
      }
    }
  }

  /** The schedule once a round has begun at `now`: a tick waits while a POST is in
      flight, and one is not served by a heartbeat when a batch POST was formed since
      the tick before it. */
  function ClockAfter(clock: Clock, now: int, interval: nat, inFlight: bool, formed: bool): Clock
    requires interval > 0
  {
    Clock(TickAfter(clock.tickAt, now, interval), HeartbeatDue(clock, now) && inFlight,
          (clock.batchPostSinceTick && now < clock.tickAt) || (formed && !HeartbeatDue(clock, now)))
  }

  predicate HeartbeatDue(clock: Clock, now: int) {
    clock.heartbeatDue || (now >= clock.tickAt && !clock.batchPostSinceTick)
  }

  // --------------------------------------------------------------- whole runs

  /** What a round did: the attempt it made, and whether the POST is tried again. */
  datatype Turn = Turn(post: Option<Post>, again: bool)

  /** The loop goes on after a round, unless the stop comes in a wait of its. */
  predicate GoesOn(r: Round, t: Turn) {
    if t.post.None? then !r.stopIdle
    else !r.stopAttempt && !r.attempt.Fatal? && !(t.again && r.stopBackoff)
  }

  function Outcome(r: Round): Option<Attempt> {
    if r.stopAttempt then None else Some(r.attempt)
  }

  function Wanted(arrivals: seq<Event>): seq<Event> {
    if arrivals == [] then []
    else
      var last := arrivals[|arrivals| - 1];
      Wanted(arrivals[..|arrivals| - 1]) + if IsAnomaly(last) then [] else [last]
  }

  lemma OneWantedMore(before: seq<Event>, arrivals: seq<Event>, i: nat)
    requires i < |arrivals|
    ensures before + Wanted(arrivals[..i + 1])
         == before + Wanted(arrivals[..i]) + if IsAnomaly(arrivals[i]) then [] else [arrivals[i]]
  {
    assert arrivals[..i + 1][..i] == arrivals[..i];
  }

  /** What capture brought the ring in a round. */
  function Captured(r: Round, t: Turn): seq<Event> {
    Wanted(r.before) + if t.post.Some? then Wanted(r.during) else []
  }

  function AllCaptured(rounds: seq<Round>, turns: seq<Turn>): seq<Event>
    requires |turns| <= |rounds|
    decreases |turns|
  {
    if turns == [] then []
    else
      var n := |turns| - 1;
      AllCaptured(rounds, turns[..n]) + Captured(rounds[n], turns[n])
  }

  function Made(t: Turn): seq<Post> {
    if t.post.Some? then [t.post.value] else []
  }

  function AllMade(turns: seq<Turn>): seq<Post> {
    if turns == [] then [] else AllMade(turns[..|turns| - 1]) + Made(turns[|turns| - 1])
  }

  /** The turns are those of the first rounds, up to the one that ends the loop; each
      attempt has its round's outcome. */
  predicate AreTurns(rounds: seq<Round>, turns: seq<Turn>) {
    && |turns| <= |rounds|
    && (forall i | 0 <= i < |turns| - 1 :: GoesOn(rounds[i], turns[i]))
    && (forall i | 0 <= i < |turns| && turns[i].post.Some? :: turns[i].post.value.outcome == Outcome(rounds[i]))
  }

  lemma OneTurnMore(rounds: seq<Round>, turns: seq<Turn>, t: Turn)
    requires AreTurns(rounds, turns) && |turns| < |rounds|
    requires turns != [] ==> GoesOn(rounds[|turns| - 1], turns[|turns| - 1])
    requires t.post.Some? ==> t.post.value.outcome == Outcome(rounds[|turns|])
    ensures AreTurns(rounds, turns + [t])
  {
  }

  lemma OneCapturedMore(rounds: seq<Round>, turns: seq<Turn>, t: Turn, before: seq<Event>)
    requires |turns| < |rounds|
    ensures before + AllCaptured(rounds, turns + [t])
         == before + AllCaptured(rounds, turns) + Captured(rounds[|turns|], t)
  {
    assert (turns + [t])[..|turns|] == turns;
    Assoc(before, AllCaptured(rounds, turns), Captured(rounds[|turns|], t));
  }

  lemma OneMadeMore(turns: seq<Turn>, t: Turn, posts: seq<Post>)
    ensures posts + AllMade(turns + [t]) == posts + AllMade(turns) + Made(t)
  {
    assert (turns + [t])[..|turns|] == turns;
    Assoc(posts, AllMade(turns), Made(t));
  }

  lemma FinalBalance(entries: seq<Entry>, l: Account, posts: seq<Post>, p: Flight, delivered: bool)
    requires After(entries) == Some(l) && InOrder(l.batches, l.outside, posts, Some(p))
    requires Ended(l.batches, LostAtStop) == 0
    ensures var after := Finish(l, if delivered then Delivered else LostAtStop);
            |l.accepted| == Ended(after.batches, Delivered) + l.dropped + |Ring(l)| + if delivered then 0 else |p.events|
  {
    var end := if delivered then Delivered else LostAtStop;
    FinishMoves(l.batches, end, InFlight);
    FinishMoves(l.batches, end, Delivered);
    EveryEventIsAccountedFor(entries, l);
  }

  class Loop {
    const config: Settings
    const ring: EventRing
    var sequence: nat
    ghost var posts: seq<Post>
    /** What the loop has done since it began. */
    ghost var acts: seq<Act>

    ghost predicate Valid(p: Option<Flight>)
      reads this, ring
    {
      && ring.Valid() && sequence == |ring.ledger.batches|
      && Books(acts, config.maxRetries) == Some(Book(ring.ledger.batches, ring.ledger.outside, posts, p, false))
    }

    /** The final POST has been tried. */
    ghost predicate Over()
      reads this, ring
    {
      && ring.Valid() && sequence == |ring.ledger.batches|
      && Books(acts, config.maxRetries) == Some(Book(ring.ledger.batches, ring.ledger.outside, posts, None, true))
    }

    constructor (config: Settings, ring: EventRing)
      requires ring.Valid() && ring.ledger == EMPTY
      ensures Valid(None) && this.ring == ring && this.config == config && posts == []
    {
      this.config, this.ring := config, ring;
      sequence, posts, acts := 0, [], [];
    }

    /** Whenever a loop is valid, every accepted event is in the ring, dropped and
        counted, delivered, or in the POST in flight, and the attempts made explain how
        each batch left flight. */
    lemma AccountsFor(p: Option<Flight>)
      requires Valid(p)
      ensures Holds(Book(ring.ledger.batches, ring.ledger.outside, posts, p, false), config.maxRetries)
      ensures |ring.ledger.accepted|
           == |ring.events| + ring.dropped + Ended(ring.ledger.batches, Delivered)
              + if p.Some? then |p.value.events| else 0
    {
      BooksHold(acts, config.maxRetries);
      EventsOfParts(ring.events, 0);
      EveryEventIsAccountedFor(ring.entries, ring.ledger);
    }

    /** A batch trigger holds. */
    predicate BatchDue(now: int)
      reads this, ring
    {
      || |ring.events| >= MAX_BATCH_EVENTS
      || (ring.events != [] && now - ring.events[0].0 >= MAX_BATCH_LATENCY)
    }

    /** Up to `MAX_BATCH_EVENTS` events under the next number. */
    method FormBatch() returns (p: Pending)
      requires Valid(None)
      modifies this`sequence, this`acts, ring
      ensures Valid(Some(p.batch)) && p.batch.sequence == old(sequence) + 1
      ensures p.batch.transients == p.batch.rejections == 0 && p.backoffMs == config.backoffInitialMs
      ensures p.batch.events == [] <==> old(ring.events) == []
      ensures ring.ledger.accepted == old(ring.ledger.accepted)
    {
      var events := ring.DrainUpTo(MAX_BATCH_EVENTS);
      sequence := sequence + 1;
      p := Pending(Flight(sequence, events, 0, 0), config.backoffInitialMs);
      ghost var act := Formed(ring.ledger.batches[sequence - 1]);
      BooksOneMore(acts, act, config.maxRetries);
      acts := acts + [act];
    }

    /** One attempt's outcome: `None` when the POST leaves flight. */
    method Settle(p: Pending, attempt: Attempt) returns (next: Option<Pending>)
      requires Valid(Some(p.batch)) && !attempt.Fatal?
      modifies this`posts, this`acts, ring`ledger, ring`entries, ring`dropped
      ensures Valid(Flying(next)) && Flying(next) == Next(p.batch, attempt, config.maxRetries)
      ensures next.Some? ==> next.value.backoffMs == NextBackoff(p.backoffMs, config)
      ensures posts == old(posts) + [Post(p.batch.sequence, p.batch.events, Some(attempt))]
      ensures ring.ledger.accepted == old(ring.ledger.accepted)
    {
      Note(p.batch, attempt);
      var batch := Retried(p.batch, attempt);
      next := None;
      if batch.Some? {
        next := Some(Pending(batch.value, NextBackoff(p.backoffMs, config)));
      }
    }

    /** The two budgets: a POST that is not tried again after a rejection is dropped. */
    method Retried(b: Flight, attempt: Attempt) returns (next: Option<Flight>)
      requires ring.Valid() && !attempt.Fatal?
      modifies ring`dropped, ring`ledger, ring`entries
      ensures ring.Valid() && next == Next(b, attempt, config.maxRetries)
      ensures ring.ledger == Counted(old(ring.ledger), NewlyDropped(b, attempt, config.maxRetries))
    {
      match attempt {
        case Accepted =>
          next := None;
        case Transient =>
          if b.events == [] && b.transients + 1 >= config.maxRetries {
            next := None;
          } else {
            next := Some(b.(transients := b.transients + 1));
          }
        case Rejected =>
          if b.rejections + 1 >= config.maxRetries {
            ring.AddDropped(|b.events|);
            next := None;
          } else {
            next := Some(b.(rejections := b.rejections + 1));
          }
      }
    }

    /** The books' entry for an attempt; the dropped are still to be counted. */
    ghost method Note(b: Flight, attempt: Attempt)
      requires Valid(Some(b)) && !attempt.Fatal?
      modifies this`posts, this`acts, ring`ledger, ring`entries
      ensures ring.Valid() && sequence == |ring.ledger.batches|
      ensures posts == old(posts) + [Post(b.sequence, b.events, Some(attempt))]
      ensures ring.ledger.accepted == old(ring.ledger.accepted)
      ensures Books(acts, config.maxRetries)
           == Some(Book(ring.ledger.batches, ring.ledger.outside + NewlyDropped(b, attempt, config.maxRetries), posts,
                        Next(b, attempt, config.maxRetries), false))
    {
      TriedBooks(acts, ring.ledger.batches, ring.ledger.outside, posts, b, attempt, config.maxRetries);
      acts := acts + [Tried(Some(attempt))];
      posts := posts + [Post(b.sequence, b.events, Some(attempt))];
      var end := EndOf(b, attempt, config.maxRetries);
      if !end.InFlight? {
        ring.Close(end);
      }
    }

    /** Capture enqueues while the loop goes on. */
    method Arrive(arrivals: seq<Event>, now: int, ghost p: Option<Flight>)
      requires Valid(p)
      modifies ring
      ensures Valid(p) && ring.ledger.accepted == old(ring.ledger.accepted) + Wanted(arrivals)
    {
      ghost var before := ring.ledger.accepted;
      Empty(before);
      for i := 0 to |arrivals|
        invariant Valid(p) && ring.ledger.accepted == before + Wanted(arrivals[..i])
      {
        ring.EnqueueOrDrop(arrivals[i], now);
        OneWantedMore(before, arrivals, i);
      }
      assert arrivals[..|arrivals|] == arrivals;
    }

    /** An attempt that a stop cuts off, or that ends the loop. */
    ghost method Send(b: Flight, outcome: Option<Attempt>)
      requires Valid(Some(b)) && outcome in {None, Some(Fatal)}
      modifies this`posts, this`acts
      ensures Valid(Some(b)) && posts == old(posts) + [Post(b.sequence, b.events, outcome)]
    {
      FlyingIsLast(acts, config.maxRetries);
      BooksOneMore(acts, Tried(outcome), config.maxRetries);
      acts := acts + [Tried(outcome)];
      posts := posts + [Post(b.sequence, b.events, outcome)];
    }

    /** The part of a round before its attempt: the tick, and a POST formed when none
        is in flight and a tick or a batch calls for one. A POST without events goes
        out only for a tick with no batch POST since the one before. */
    method Begin(clock: Clock, inFlight: Option<Pending>, now: int) returns (after: Clock, p: Option<Pending>)
      requires Valid(Flying(inFlight)) && config.intervalMs > 0
      modifies this`sequence, this`acts, ring
      ensures Valid(Flying(p))
      ensures after == ClockAfter(clock, now, config.intervalMs, inFlight.Some?, inFlight.None? && p.Some?)
      ensures ring.ledger.accepted == old(ring.ledger.accepted)
      ensures inFlight.Some? ==> p == inFlight
      ensures inFlight.None? ==> (p.Some? <==> HeartbeatDue(clock, now) || old(BatchDue(now)))
      ensures p.None? ==> !BatchDue(now)
      ensures inFlight.None? && p.Some? ==> p.value.batch.sequence == old(sequence) + 1
      ensures inFlight.None? && p.Some? && p.value.batch.events == [] ==> HeartbeatDue(clock, now)
    {
      after, p := clock, inFlight;
      if now >= after.tickAt {
        if !after.batchPostSinceTick {
          after := after.(heartbeatDue := true);
        }
        var next := NextTick(after.tickAt, now);
        after := after.(batchPostSinceTick := false, tickAt := next);
      }
      if p.None? {
        var due := BatchDue(now);
        if after.heartbeatDue || due {
          if !after.heartbeatDue {
            after := after.(batchPostSinceTick := true);
          }
          after := after.(heartbeatDue := false);
          var formed := FormBatch();
          p := Some(formed);
        }
      }
    }

    /** A round from its attempt on. */
    method Try(p: Pending, r: Round) returns (next: Option<Pending>, fatal: bool, ghost t: Turn)
      requires Valid(Some(p.batch))
      modifies this`posts, this`acts, ring
      ensures Valid(Flying(next)) && t.post == Some(Post(p.batch.sequence, p.batch.events, Outcome(r)))
      ensures posts == old(posts) + Made(t)
      ensures ring.ledger.accepted == old(ring.ledger.accepted) + Wanted(r.during)
      ensures fatal <==> !r.stopAttempt && r.attempt.Fatal?
      ensures t.again <==> Outcome(r).Some? && !fatal && next.Some?
      ensures Outcome(r) in {None, Some(Fatal)} ==> next == Some(p)
      ensures Outcome(r) !in {None, Some(Fatal)} ==> Flying(next) == Next(p.batch, r.attempt, config.maxRetries)
    {
      Arrive(r.during, r.now, Some(p.batch));
      next, fatal, t := Some(p), false, Turn(Some(Post(p.batch.sequence, p.batch.events, Outcome(r))), false);
      if r.stopAttempt {
        Send(p.batch, None);
      } else if r.attempt.Fatal? {
        Send(p.batch, Some(Fatal));
        fatal := true;
      } else {
        next := Settle(p, r.attempt);
        t := t.(again := next.Some?);
      }
    }

    /** One round. A POST goes out when one is in flight, a tick is due or a batch is;
        one without events only for a tick. */
    method Serve(clock: Clock, inFlight: Option<Pending>, r: Round)
      returns (after: Clock, p: Option<Pending>, fatal: bool, stops: bool, ghost t: Turn)
      requires Valid(Flying(inFlight)) && config.intervalMs > 0
      modifies this, ring
      ensures Valid(Flying(p)) && posts == old(posts) + Made(t)
      ensures ring.ledger.accepted == old(ring.ledger.accepted) + Captured(r, t)
      ensures t.post.Some? ==> t.post.value.outcome == Outcome(r)
      ensures fatal <==> t.post.Some? && Outcome(r) == Some(Fatal)
      ensures t.post.None? ==> inFlight.None? && p.None? && !HeartbeatDue(clock, r.now) && !BatchDue(r.now)
      ensures t.post.Some? && t.post.value.events == [] ==> inFlight.Some? || HeartbeatDue(clock, r.now)
      ensures after == ClockAfter(clock, r.now, config.intervalMs, inFlight.Some?, inFlight.None? && t.post.Some?)
      ensures inFlight.Some? ==>
        t.post == Some(Post(inFlight.value.batch.sequence, inFlight.value.batch.events, Outcome(r)))
      ensures t.again <==> t.post.Some? && Outcome(r).Some? && !fatal && p.Some?
      ensures stops <==> !GoesOn(r, t)
    {
      after, p := Open(clock, inFlight, r);
      fatal, stops, t := false, r.stopIdle, Turn(None, false);
      Empty(ring.ledger.accepted);
      Empty(posts);
      if p.Some? {
        Assoc(old(ring.ledger.accepted), Wanted(r.before), Wanted(r.during));
        p, fatal, t := Try(p.value, r);
        stops := r.stopAttempt || fatal || (p.Some? && r.stopBackoff);
      }
    }

    /** A round up to its attempt. */
    method Open(clock: Clock, inFlight: Option<Pending>, r: Round) returns (after: Clock, p: Option<Pending>)
      requires Valid(Flying(inFlight)) && config.intervalMs > 0
      modifies this`sequence, this`acts, ring
      ensures Valid(Flying(p)) && ring.ledger.accepted == old(ring.ledger.accepted) + Wanted(r.before)
      ensures after == ClockAfter(clock, r.now, config.intervalMs, inFlight.Some?, inFlight.None? && p.Some?)
      ensures inFlight.Some? ==> p == inFlight
      ensures p.None? ==> inFlight.None? && !HeartbeatDue(clock, r.now) && !BatchDue(r.now)
      ensures inFlight.None? && p.Some? && p.value.batch.events == [] ==> HeartbeatDue(clock, r.now)
    {
      Arrive(r.before, r.now, Flying(inFlight));
      after, p := Begin(clock, inFlight, r.now);
    }

    /** The loop, for as many rounds as there are before a stop or a fatal failure.
        `p` is what it leaves unsettled. `AccountsFor` is what is then known of every
        event and every batch. */
    method RunUntil(start: int, rounds: seq<Round>) returns (p: Option<Pending>, fatal: bool, ghost turns: seq<Turn>)
      requires Valid(None) && config.intervalMs > 0
      modifies this, ring
      ensures Valid(Flying(p)) && AreTurns(rounds, turns)
      ensures |turns| < |rounds| ==> turns != [] && !GoesOn(rounds[|turns| - 1], turns[|turns| - 1])
      ensures fatal ==> turns != [] && turns[|turns| - 1].post.Some? && Outcome(rounds[|turns| - 1]) == Some(Fatal)
      ensures ring.ledger.accepted == old(ring.ledger.accepted) + AllCaptured(rounds, turns)
      ensures posts == old(posts) + AllMade(turns)
    {
      var clock := Clock(start, false, false);
      p, fatal, turns := None, false, [];
      ghost var accepted, made := ring.ledger.accepted, posts;
      Empty(accepted);
      Empty(made);
      for i := 0 to |rounds|
        invariant Valid(Flying(p)) && AreTurns(rounds, turns) && |turns| == i && !fatal
        invariant turns != [] ==> GoesOn(rounds[i - 1], turns[i - 1])
        invariant ring.ledger.accepted == accepted + AllCaptured(rounds, turns)
        invariant posts == made + AllMade(turns)
      {
        var stops;
        ghost var t;
        clock, p, fatal, stops, t := Serve(clock, p, rounds[i]);
        OneTurnMore(rounds, turns, t);
        OneCapturedMore(rounds, turns, t, accepted);
        OneMadeMore(turns, t, made);
        turns := turns + [t];
        if stops { return; }
      }
    }

    /** Missed ticks collapse into one. */
    method NextTick(tickAt: int, now: int) returns (next: int)
      requires config.intervalMs > 0
      ensures next == TickAfter(tickAt, now, config.intervalMs)
    {
      next := tickAt;
      while next <= now
        invariant TickAfter(tickAt, now, config.intervalMs) == TickAfter(next, now, config.intervalMs)
        decreases now - next
      {
        next := next + config.intervalMs;
      }
    }

    /** One attempt more, at what is unsettled or the oldest of the ring. What was accepted
        is what was delivered, what was counted as dropped, and what is reported as
        undelivered. */
    method FinalPost(inFlight: Option<Pending>, outcome: Option<Attempt>) returns (undelivered: nat)
      requires Valid(Flying(inFlight))
      modifies this`sequence, this`acts, this`posts, ring
      ensures Over() && |posts| == |old(posts)| + 1 && old(posts) <= posts
      ensures posts[|posts| - 1].outcome == outcome
      ensures inFlight.Some? ==>
        posts[|posts| - 1].sequence == inFlight.value.batch.sequence
        && posts[|posts| - 1].events == inFlight.value.batch.events
      ensures |ring.ledger.accepted|
           == Ended(ring.ledger.batches, Delivered) + ring.dropped + undelivered
      ensures ring.ledger.accepted == old(ring.ledger.accepted)
    {
      var p;
      if inFlight.Some? {
        p := inFlight.value;
      } else {
        p := FormBatch();
      }
      undelivered := Leave(p.batch, outcome);
    }

    /** What is left behind once the last POST has been tried; no outcome when its
        deadline cut it off. */
    method Leave(b: Flight, outcome: Option<Attempt>) returns (undelivered: nat)
      requires Valid(Some(b))
      modifies this`acts, this`posts, ring`ledger, ring`entries
      ensures Over() && posts == old(posts) + [Post(b.sequence, b.events, outcome)]
      ensures undelivered == |ring.events| + if outcome == Some(Accepted) then 0 else |b.events|
      ensures |ring.ledger.accepted|
           == Ended(ring.ledger.batches, Delivered) + ring.dropped + undelivered
      ensures ring.ledger.accepted == old(ring.ledger.accepted)
    {
      var delivered := outcome == Some(Accepted);
      undelivered := |ring.events| + if delivered then 0 else |b.events|;
      EventsOfParts(ring.events, 0);
      BooksHold(acts, config.maxRetries);
      FinalBalance(ring.entries, ring.ledger, posts, b, delivered);
      BooksOneMore(acts, Last(outcome), config.maxRetries);
      acts := acts + [Last(outcome)];
      posts := posts + [Post(b.sequence, b.events, outcome)];
      ring.Close(if delivered then Delivered else LostAtStop);
    }
  }
}
