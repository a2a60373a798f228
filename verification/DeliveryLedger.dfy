/**
 The account of every event the ring accepted: still in the ring, dropped by an
 overflow, or in one numbered batch, and how that batch ended. Each thing the ring
 and the delivery loop do to an event is an entry here, and the account balances
 after every one of them.
 */
module DeliveryLedger {
  import opened Common

  /** A captured event: of a process, with its creation's time as its dispatch found it,
      or of a connection. */
  datatype Event =
    | ProcessEvent(id: nat, isLaunch: bool, image: string, pid: nat, time: nat, created: Option<nat>)
    | NetworkEvent(id: nat)

  const MAX_BATCH_EVENTS: nat := 1024

  /** What became of an accepted event that left the ring. */
  datatype Fate = Overflowed | InBatch(k: nat)

  datatype End = InFlight | Delivered | Dropped | GivenUp | LostAtStop

  /** `from`: how many events were accepted before its first. */
  datatype Batch = Batch(from: nat, events: seq<Event>, end: End)

  /** The batch with sequence number `k + 1` is `batches[k]`; `dropped` is the drop
      counter, and `outside` the part of it that was counted from outside the ring. */
  datatype Ledger = Ledger(accepted: seq<Event>, fate: seq<Fate>, batches: seq<Batch>, dropped: nat, outside: nat)

  const EMPTY := Ledger([], [], [], 0, 0)

  /** The ring: the accepted events with no fate yet, in order. */
  function Ring(l: Ledger): seq<Event>
    requires |l.fate| <= |l.accepted|
  {
    l.accepted[|l.fate|..]
  }

  /** A batch is consecutive accepted events, at most `MAX_BATCH_EVENTS`, and they
      alone are in it. */
  predicate IsWhole(l: Ledger, k: nat)
    requires k < |l.batches|
  {
    var b := l.batches[k];
    && |b.events| <= MAX_BATCH_EVENTS
    && b.from + |b.events| <= |l.fate| <= |l.accepted|
    && b.events == l.accepted[b.from..b.from + |b.events|]
    && forall i | 0 <= i < |l.fate| :: l.fate[i] == InBatch(k) <==> b.from <= i < b.from + |b.events|
  }

  function Overflows(fate: seq<Fate>): nat {
    if fate == [] then 0 else Overflows(fate[..|fate| - 1]) + if fate[|fate| - 1].Overflowed? then 1 else 0
  }

  /** The events of the batches that ended so. */
  function Ended(batches: seq<Batch>, end: End): nat {
    if batches == [] then 0
    else Ended(batches[..|batches| - 1], end)
         + if batches[|batches| - 1].end == end then |batches[|batches| - 1].events| else 0
  }

  function Carried(batches: seq<Batch>): nat {
    if batches == [] then 0 else Carried(batches[..|batches| - 1]) + |batches[|batches| - 1].events|
  }

  ghost predicate IsBalanced(l: Ledger) {
    && |l.fate| <= |l.accepted|
    && |l.fate| == Overflows(l.fate) + Carried(l.batches)
    && l.dropped == Overflows(l.fate) + l.outside
    && (forall k | 0 <= k < |l.batches| :: IsWhole(l, k))
    && (forall i | 0 <= i < |l.fate| && l.fate[i].InBatch? :: l.fate[i].k < |l.batches|)
    // in the order of the batches
    && (forall j, k | 0 <= j < k < |l.batches| :: l.batches[j].from + |l.batches[j].events| <= l.batches[k].from)
  }

  // -------------------------------------------------------------- the entries

  function Accept(l: Ledger, e: Event): Ledger {
    l.(accepted := l.accepted + [e])
  }

  /** The oldest event of the ring is dropped. */
  function Overflow(l: Ledger): Ledger {
    l.(fate := l.fate + [Overflowed], dropped := l.dropped + 1)
  }

  function Counted(l: Ledger, n: nat): Ledger {
    l.(dropped := l.dropped + n, outside := l.outside + n)
  }

  function Marks(k: nat, count: nat): (r: seq<Fate>)
    ensures |r| == count
  {
    if count == 0 then [] else Marks(k, count - 1) + [InBatch(k)]
  }

  /** The oldest `count` events of the ring are the next batch. */
  function Form(l: Ledger, count: nat): Ledger
    requires |l.fate| + count <= |l.accepted|
  {
    var from := |l.fate|;
    l.(fate := l.fate + Marks(|l.batches|, count),
       batches := l.batches + [Batch(from, l.accepted[from..from + count], InFlight)])
  }

  /** The last batch ends. */
  function Finish(l: Ledger, end: End): Ledger
    requires l.batches != []
  {
    var k := |l.batches| - 1;
    l.(batches := l.batches[k := l.batches[k].(end := end)])
  }

  // ------------------------------------------------------- the account balances

  lemma AcceptBalances(l: Ledger, e: Event)
    requires IsBalanced(l)
    ensures IsBalanced(Accept(l, e))
  {
    var l' := Accept(l, e);
    forall k | 0 <= k < |l'.batches| ensures IsWhole(l', k) {
      assert IsWhole(l, k);
    }
  }

  lemma OverflowBalances(l: Ledger)
    requires IsBalanced(l) && Ring(l) != []
    ensures IsBalanced(Overflow(l))
  {
    var l' := Overflow(l);
    assert l'.fate[..|l.fate|] == l.fate;
    forall k | 0 <= k < |l'.batches| ensures IsWhole(l', k) {
      assert IsWhole(l, k);
    }
  }

  lemma {:induction false} NoMoreOverflows(fate: seq<Fate>, k: nat, count: nat)
    ensures Overflows(fate + Marks(k, count)) == Overflows(fate)
  {
    if count == 0 {
      Empty(fate);
    } else {
      NoMoreOverflows(fate, k, count - 1);
      var longer := fate + Marks(k, count);
      assert longer[..|longer| - 1] == fate + Marks(k, count - 1);
    }
  }

  lemma {:induction false} MarksAre(k: nat, count: nat)
    ensures forall i | 0 <= i < count :: Marks(k, count)[i] == InBatch(k)
  {
    if count > 0 {
      MarksAre(k, count - 1);
    }
  }

  lemma FormKeepsBatches(l: Ledger, count: nat, k: nat)
    requires IsBalanced(l) && |l.fate| + count <= |l.accepted| && count <= MAX_BATCH_EVENTS && k <= |l.batches|
    ensures IsWhole(Form(l, count), k)
  {
    MarksAre(|l.batches|, count);
    if k < |l.batches| {
      assert IsWhole(l, k);
    }
  }

  lemma FormKeepsOrder(l: Ledger, count: nat, j: nat, k: nat)
    requires IsBalanced(l) && |l.fate| + count <= |l.accepted| && j < k <= |l.batches|
    ensures var b := Form(l, count).batches; b[j].from + |b[j].events| <= b[k].from
  {
    assert IsWhole(l, j);
  }

  /** What is marked as in the new batch is what the batch carries. */
  lemma FormKeepsSums(l: Ledger, count: nat)
    requires |l.fate| + count <= |l.accepted|
    requires |l.fate| == Overflows(l.fate) + Carried(l.batches)
    requires forall i | 0 <= i < |l.fate| && l.fate[i].InBatch? :: l.fate[i].k < |l.batches|
    ensures var l' := Form(l, count);
            && Overflows(l'.fate) == Overflows(l.fate) && |l'.fate| == Overflows(l'.fate) + Carried(l'.batches)
            && forall i | 0 <= i < |l'.fate| && l'.fate[i].InBatch? :: l'.fate[i].k < |l'.batches|
  {
    MarksAre(|l.batches|, count);
    NoMoreOverflows(l.fate, |l.batches|, count);
    assert Form(l, count).batches[..|l.batches|] == l.batches;
  }

  lemma FormBalances(l: Ledger, count: nat)
    requires IsBalanced(l) && count <= |Ring(l)| && count <= MAX_BATCH_EVENTS
    ensures IsBalanced(Form(l, count))
  {
    FormKeepsSums(l, count);
    forall k | 0 <= k <= |l.batches| ensures IsWhole(Form(l, count), k) {
      FormKeepsBatches(l, count, k);
    }
    forall j, k | 0 <= j < k <= |l.batches|
      ensures var b := Form(l, count).batches; b[j].from + |b[j].events| <= b[k].from
    {
      FormKeepsOrder(l, count, j, k);
    }
  }

  /** Ending the last batch moves its events from one column to another. */
  lemma FinishMoves(batches: seq<Batch>, end: End, other: End)
    requires batches != []
    ensures var b := batches[|batches| - 1];
            var after := batches[|batches| - 1 := b.(end := end)];
            && Carried(after) == Carried(batches)
            && Ended(after, other) ==
               Ended(batches, other) - (if b.end == other then |b.events| else 0) + (if end == other then |b.events| else 0)
  {
    var k := |batches| - 1;
    assert batches[k := batches[k].(end := end)][..k] == batches[..k];
  }

  /** A new batch adds to the column of those in flight alone. */
  lemma FormAdds(batches: seq<Batch>, b: Batch, other: End)
    ensures Ended(batches + [b], other) == Ended(batches, other) + if b.end == other then |b.events| else 0
  {
    assert (batches + [b])[..|batches|] == batches;
  }

  lemma FinishBalances(l: Ledger, end: End)
    requires IsBalanced(l) && l.batches != []
    ensures IsBalanced(Finish(l, end))
  {
    var l' := Finish(l, end);
    FinishMoves(l.batches, end, end);
    forall k | 0 <= k < |l'.batches| ensures IsWhole(l', k) {
      assert IsWhole(l, k);
    }
  }

  lemma CountedBalances(l: Ledger, n: nat)
    requires IsBalanced(l)
    ensures IsBalanced(Counted(l, n))
  {
    forall k | 0 <= k < |l.batches| ensures IsWhole(Counted(l, n), k) {
      assert IsWhole(l, k);
    }
  }

  lemma {:induction false} CarriedIsEnded(batches: seq<Batch>)
    ensures Carried(batches) == Ended(batches, InFlight) + Ended(batches, Delivered) + Ended(batches, Dropped)
                                + Ended(batches, GivenUp) + Ended(batches, LostAtStop)
  {
    if batches != [] {
      CarriedIsEnded(batches[..|batches| - 1]);
    }
  }

  // ------------------------------------------------------------ runs of entries

  datatype Entry = Accepting(e: Event) | Overflowing | Forming(count: nat) | Ending(end: End) | Counting(n: nat)

  /** The account after an entry, when there is something for it. */
  function Enter(l: Ledger, entry: Entry): Option<Ledger> {
    match entry
    case Accepting(e) => Some(Accept(l, e))
    case Overflowing => if |l.fate| < |l.accepted| then Some(Overflow(l)) else None
    case Forming(count) =>
      if count <= MAX_BATCH_EVENTS && |l.fate| + count <= |l.accepted| then Some(Form(l, count)) else None
    case Ending(end) => if l.batches != [] then Some(Finish(l, end)) else None
    case Counting(n) => Some(Counted(l, n))
  }

  function After(entries: seq<Entry>): Option<Ledger>
    decreases |entries|, 1
  {
    if entries == [] then Some(EMPTY) else AfterLast(entries)
  }

  function AfterLast(entries: seq<Entry>): Option<Ledger>
    requires entries != []
    decreases |entries|, 0
  {
    var l := After(entries[..|entries| - 1]);
    if l.None? then None else Enter(l.value, entries[|entries| - 1])
  }

  lemma AfterOneMore(entries: seq<Entry>, entry: Entry)
    requires After(entries).Some?
    ensures After(entries + [entry]) == Enter(After(entries).value, entry)
  {
    assert (entries + [entry])[..|entries|] == entries;
    assert After(entries + [entry]) == AfterLast(entries + [entry]);
  }

  lemma EnterBalances(l: Ledger, entry: Entry)
    requires IsBalanced(l) && Enter(l, entry).Some?
    ensures IsBalanced(Enter(l, entry).value)
  {
    match entry
    case Accepting(e) => AcceptBalances(l, e);
    case Overflowing => OverflowBalances(l);
    case Forming(count) => FormBalances(l, count);
    case Ending(end) => FinishBalances(l, end);
    case Counting(n) => CountedBalances(l, n);
  }

  /** The account balances after every run of entries. */
  lemma {:induction false} AlwaysBalanced(entries: seq<Entry>)
    requires After(entries).Some?
    ensures IsBalanced(After(entries).value)
  {
    if entries != [] {
      assert After(entries) == AfterLast(entries);
      AlwaysBalanced(entries[..|entries| - 1]);
      EnterBalances(After(entries[..|entries| - 1]).value, entries[|entries| - 1]);
    }
  }

  /** Conservation, over every run: each accepted event is in the ring, dropped by an
      overflow, or in a batch, and each batch is counted under the one way it ended; the
      drop counter is the overflows and what was counted from outside. */
  lemma EveryEventIsAccountedFor(entries: seq<Entry>, l: Ledger)
    requires After(entries) == Some(l)
    ensures |l.fate| <= |l.accepted|
    ensures l.dropped == Overflows(l.fate) + l.outside
    ensures |l.accepted| == |Ring(l)| + Overflows(l.fate)
                            + Ended(l.batches, InFlight) + Ended(l.batches, Delivered) + Ended(l.batches, Dropped)
                            + Ended(l.batches, GivenUp) + Ended(l.batches, LostAtStop)
  {
    AlwaysBalanced(entries);
    CarriedIsEnded(l.batches);
  }

  /** Every batch, over every run, is consecutive accepted events, at most
      `MAX_BATCH_EVENTS`, and they alone have its number. */
  lemma EveryBatchIsWhole(entries: seq<Entry>, l: Ledger, k: nat)
    requires After(entries) == Some(l) && k < |l.batches|
    ensures IsWhole(l, k)
  {
    AlwaysBalanced(entries);
  }

  /** Order, over every run: an event of an earlier batch was accepted before one of a
      later batch. */
  lemma BatchesAreInOrder(entries: seq<Entry>, l: Ledger, i: nat, j: nat)
    requires After(entries) == Some(l)
    requires i < |l.fate| && j < |l.fate| && l.fate[i].InBatch? && l.fate[j].InBatch? && l.fate[i].k < l.fate[j].k
    ensures i < j
  {
    AlwaysBalanced(entries);
    assert IsWhole(l, l.fate[i].k) && IsWhole(l, l.fate[j].k);
  }

  // --------------------------------------------- what the ring and the loop enter

  type Account = l: Ledger | |l.fate| <= |l.accepted| witness EMPTY

  lemma AcceptEntry(entries: seq<Entry>, l: Account, e: Event) returns (r: Account)
    requires After(entries) == Some(l)
    ensures After(entries + [Accepting(e)]) == Some(r)
    ensures r == Accept(l, e) && Ring(r) == Ring(l) + [e]
  {
    AfterOneMore(entries, Accepting(e));
    r := Accept(l, e);
  }

  lemma OverflowEntry(entries: seq<Entry>, l: Account) returns (r: Account)
    requires After(entries) == Some(l) && Ring(l) != []
    ensures After(entries + [Overflowing]) == Some(r)
    ensures r == Overflow(l) && Ring(r) == Ring(l)[1..]
  {
    AfterOneMore(entries, Overflowing);
    r := Overflow(l);
  }

  lemma FormEntry(entries: seq<Entry>, l: Account, count: nat) returns (r: Account)
    requires After(entries) == Some(l) && count <= |Ring(l)| && count <= MAX_BATCH_EVENTS
    ensures After(entries + [Forming(count)]) == Some(r)
    ensures r.accepted == l.accepted && Ring(r) == Ring(l)[count..]
    ensures r.dropped == l.dropped && r.outside == l.outside
    ensures r.batches == l.batches + [Batch(|l.fate|, Ring(l)[..count], InFlight)]
  {
    AfterOneMore(entries, Forming(count));
    r := Form(l, count);
    assert l.accepted[|l.fate|..|l.fate| + count] == Ring(l)[..count];
  }

  lemma FinishEntry(entries: seq<Entry>, l: Account, end: End) returns (r: Account)
    requires After(entries) == Some(l) && l.batches != []
    ensures After(entries + [Ending(end)]) == Some(r)
    ensures r == Finish(l, end) && Ring(r) == Ring(l)
  {
    AfterOneMore(entries, Ending(end));
    r := Finish(l, end);
  }

  lemma CountEntry(entries: seq<Entry>, l: Account, n: nat) returns (r: Account)
    requires After(entries) == Some(l)
    ensures After(entries + [Counting(n)]) == Some(r)
    ensures r == Counted(l, n) && Ring(r) == Ring(l)
  {
    AfterOneMore(entries, Counting(n));
    r := Counted(l, n);
  }
}
