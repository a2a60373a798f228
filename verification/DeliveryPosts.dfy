/**
 The attempts the delivery loop makes at its POSTs, and what they explain: a retry
 repeats its number and events, and a batch leaves flight only by a delivery or by
 exactly as many failures as its budget allows.
 */
module DeliveryPosts {
  import opened Common
  import opened DeliveryLedger

  /** The POST in flight, and how often it has failed. */
  datatype Flight = Flight(sequence: nat, events: seq<Event>, transients: nat, rejections: nat)

  datatype Attempt = Accepted | Transient | Rejected | Fatal

  /** One attempt at a POST; no outcome when a stop cut it off. */
  datatype Post = Post(sequence: nat, events: seq<Event>, outcome: Option<Attempt>)

  /** A 64-bit float that is not below 0. */
  datatype Float = Finite(value: real) | Infinite | NotANumber

  const EXACT: nat := 0x20_0000_0000_0000

  /** The rounding of 64-bit floats: it keeps order, and integers up to 2^53. */
  type Rounding = f: real -> real |
      (forall x, y :: x <= y ==> f(x) <= f(y)) && (forall n: nat | n <= EXACT :: f(n as real) == n as real)
    witness (x: real) => x

  datatype Config = Config(
    intervalMs: nat, maxRetries: nat, backoffInitialMs: nat, backoffFactor: Float, backoffMaxMs: nat,
    round: Rounding)

  /** What the configuration's check accepts: a factor that is not below 1. */
  type Settings = c: Config | c.backoffFactor.Finite? ==> c.backoffFactor.value >= 1.0
    witness Config(0, 0, 0, Infinite, 0, (x: real) => x)

  function Product(x: real, factor: real): (r: real)
    ensures x >= 0.0 && factor >= 1.0 ==> r >= x
  {
    x * factor
  }

  lemma Grown(current: nat, factor: real, round: Rounding)
    requires factor >= 1.0
    ensures round(Product(round(current as real), factor)) >= round(round(current as real)) >= 0.0
  {
    assert round(0 as real) == 0.0;
  }

  /** The factor, then the cap; what is not a number is no wait. */
  function NextBackoff(current: nat, c: Settings): nat {
    match c.backoffFactor
    case Finite(factor) =>
      Grown(current, factor, c.round);
      var grown := c.round(Product(c.round(current as real), factor)).Floor;
      if grown < c.backoffMaxMs then grown else c.backoffMaxMs
    case Infinite => if current == 0 then 0 else c.backoffMaxMs
    case NotANumber => 0
  }

  /** The wait never passes the cap; and it never shrinks below the cap, up to 2^53 ms,
      exactly when the factor is a number, which the configuration's check does not ask. */
  lemma BackoffGrows(current: nat, c: Settings)
    ensures NextBackoff(current, c) <= c.backoffMaxMs
    ensures 0 < current <= EXACT && c.backoffMaxMs > 0 ==>
      (NextBackoff(current, c) >= (if current < c.backoffMaxMs then current else c.backoffMaxMs)
       <==> !c.backoffFactor.NotANumber?)
  {
    if c.backoffFactor.Finite? {
      Grown(current, c.backoffFactor.value, c.round);
    }
  }

  /** How a POST ends with an attempt; `InFlight` when it is tried again. */
  function EndOf(p: Flight, attempt: Attempt, max: nat): End {
    match attempt
    case Accepted => Delivered
    case Transient => if p.events == [] && p.transients + 1 >= max then GivenUp else InFlight
    case Rejected => if p.rejections + 1 >= max then Dropped else InFlight
    case Fatal => InFlight
  }

  /** The events a rejection drops. */
  function NewlyDropped(p: Flight, attempt: Attempt, max: nat): nat {
    if EndOf(p, attempt, max).Dropped? then |p.events| else 0
  }

  function Again(p: Flight, attempt: Attempt): Flight {
    match attempt
    case Transient => p.(transients := p.transients + 1)
    case Rejected => p.(rejections := p.rejections + 1)
    case _ => p
  }

  /** What stays in flight after an attempt. */
  function Next(p: Flight, attempt: Attempt, max: nat): Option<Flight> {
    if EndOf(p, attempt, max).InFlight? then Some(Again(p, attempt)) else None
  }

  function BatchesAfter(batches: seq<Batch>, end: End): seq<Batch>
    requires batches != []
  {
    if end.InFlight? then batches else batches[|batches| - 1 := batches[|batches| - 1].(end := end)]
  }

  // ------------------------------------------------------------ the loop's books

  /** Every attempt carries the events of the batch of its number, and the numbers
      never go back. */
  predicate PostsRepeat(posts: seq<Post>, batches: seq<Batch>) {
    && (forall i | 0 <= i < |posts| ::
          && 1 <= posts[i].sequence <= |batches|
          && posts[i].events == batches[posts[i].sequence - 1].events)
    && (forall i, j | 0 <= i < j < |posts| :: posts[i].sequence <= posts[j].sequence)
  }

  predicate IsLast(batches: seq<Batch>, p: Flight) {
    && batches != [] && p.sequence == |batches|
    && batches[|batches| - 1].events == p.events && batches[|batches| - 1].end == InFlight
  }

  /** The POST in flight is the last batch; no other batch is in flight, none with events
      given up; `outside` counts the dropped. */
  predicate InOrder(batches: seq<Batch>, outside: nat, posts: seq<Post>, p: Option<Flight>) {
    && (p.Some? ==> IsLast(batches, p.value))
    && outside == Ended(batches, Dropped)
    && Ended(batches, InFlight) == (if p.Some? then |p.value.events| else 0)
    && Ended(batches, GivenUp) == 0
    && PostsRepeat(posts, batches)
  }

  lemma FormKeepsOrder(batches: seq<Batch>, outside: nat, posts: seq<Post>, b: Batch, p: Flight)
    requires InOrder(batches, outside, posts, None) && b.end == InFlight
    requires p.sequence == |batches| + 1 && p.events == b.events
    ensures InOrder(batches + [b], outside, posts, Some(p))
  {
    FormAdds(batches, b, InFlight);
    FormAdds(batches, b, Dropped);
    FormAdds(batches, b, GivenUp);
  }

  lemma SendKeepsOrder(batches: seq<Batch>, outside: nat, posts: seq<Post>, p: Flight, outcome: Option<Attempt>)
    requires InOrder(batches, outside, posts, Some(p))
    ensures InOrder(batches, outside, posts + [Post(p.sequence, p.events, outcome)], Some(p))
  {
  }

  lemma FinishKeepsOrder(batches: seq<Batch>, outside: nat, posts: seq<Post>, p: Flight, end: End)
    requires InOrder(batches, outside, posts, Some(p))
    requires !end.InFlight? && (end == GivenUp ==> p.events == [])
    ensures InOrder(BatchesAfter(batches, end), outside + (if end == Dropped then |p.events| else 0), posts, None)
  {
    FinishMoves(batches, end, InFlight);
    FinishMoves(batches, end, Dropped);
    FinishMoves(batches, end, GivenUp);
  }

  // ------------------------------------------------------- what the attempts explain

  predicate Hits(post: Post, k: nat, a: Attempt) {
    post.sequence == k && post.outcome == Some(a)
  }

  /** How often the POST numbered `k` met that outcome. */
  function Count(posts: seq<Post>, k: nat, a: Attempt): nat {
    if posts == [] then 0
    else Count(posts[..|posts| - 1], k, a) + if Hits(posts[|posts| - 1], k, a) then 1 else 0
  }

  /** A budget of 0 allows one failure, as one of 1 does. */
  function Budget(max: nat): nat {
    if max == 0 then 1 else max
  }

  /** A batch was delivered by one attempt; it was dropped by its last allowed
      rejection; only without events was it given up, by its last allowed failure. */
  predicate Explains(posts: seq<Post>, k: nat, b: Batch, max: nat) {
    && Count(posts, k, Accepted) == (if b.end.Delivered? then 1 else 0)
    && (b.end.Dropped? ==> Count(posts, k, Rejected) == Budget(max))
    && (b.end.GivenUp? ==> b.events == [] && Count(posts, k, Transient) == Budget(max))
  }

  predicate InBudget(posts: seq<Post>, p: Flight, max: nat) {
    && Count(posts, p.sequence, Rejected) == p.rejections < Budget(max)
    && Count(posts, p.sequence, Transient) == p.transients
    && (p.events == [] ==> p.transients < Budget(max))
  }

  predicate Explained(batches: seq<Batch>, posts: seq<Post>, p: Option<Flight>, max: nat) {
    && (forall k | 0 <= k < |batches| :: Explains(posts, k + 1, batches[k], max))
    && (p.Some? ==> InBudget(posts, p.value, max))
  }

  lemma CountAfter(posts: seq<Post>, post: Post, k: nat, a: Attempt)
    ensures Count(posts + [post], k, a) == Count(posts, k, a) + if Hits(post, k, a) then 1 else 0
  {
    assert (posts + [post])[..|posts|] == posts;
  }

  lemma CountsAfter(posts: seq<Post>, post: Post, k: nat)
    ensures forall a :: Count(posts + [post], k, a) == Count(posts, k, a) + if Hits(post, k, a) then 1 else 0
  {
    forall a ensures Count(posts + [post], k, a) == Count(posts, k, a) + if Hits(post, k, a) then 1 else 0 {
      CountAfter(posts, post, k, a);
    }
  }

  lemma {:induction false} NoneYet(posts: seq<Post>, k: nat, a: Attempt)
    requires forall i | 0 <= i < |posts| :: posts[i].sequence < k
    ensures Count(posts, k, a) == 0
  {
    if posts != [] {
      NoneYet(posts[..|posts| - 1], k, a);
    }
  }

  lemma FormExplained(batches: seq<Batch>, outside: nat, posts: seq<Post>, b: Batch, p: Flight, max: nat)
    requires InOrder(batches, outside, posts, None) && Explained(batches, posts, None, max)
    requires b.end == InFlight && p.sequence == |batches| + 1 && p.transients == p.rejections == 0
    ensures Explained(batches + [b], posts, Some(p), max)
  {
    NoneYet(posts, p.sequence, Accepted);
    NoneYet(posts, p.sequence, Rejected);
    NoneYet(posts, p.sequence, Transient);
  }

  lemma OthersExplained(batches: seq<Batch>, posts: seq<Post>, post: Post, k: nat, max: nat)
    requires k < |batches| && k + 1 != post.sequence && Explains(posts, k + 1, batches[k], max)
    ensures Explains(posts + [post], k + 1, batches[k], max)
  {
    CountsAfter(posts, post, k + 1);
  }

  /** An attempt that a stop cuts off, or that ends the loop, counts for nothing. */
  lemma CutOffExplained(batches: seq<Batch>, posts: seq<Post>, p: Flight, post: Post, max: nat)
    requires Explained(batches, posts, Some(p), max)
    requires post.outcome in {None, Some(Fatal)}
    ensures Explained(batches, posts + [post], Some(p), max)
  {
    CountsAfter(posts, post, p.sequence);
    forall k | 0 <= k < |batches| ensures Explains(posts + [post], k + 1, batches[k], max) {
      CountsAfter(posts, post, k + 1);
    }
  }

  lemma SettleExplained(batches: seq<Batch>, posts: seq<Post>, p: Flight, attempt: Attempt, max: nat)
    requires IsLast(batches, p) && Explained(batches, posts, Some(p), max) && !attempt.Fatal?
    ensures Explained(BatchesAfter(batches, EndOf(p, attempt, max)),
                      posts + [Post(p.sequence, p.events, Some(attempt))], Next(p, attempt, max), max)
  {
    var post := Post(p.sequence, p.events, Some(attempt));
    var after := BatchesAfter(batches, EndOf(p, attempt, max));
    forall k | 0 <= k < |batches| - 1 ensures Explains(posts + [post], k + 1, after[k], max) {
      OthersExplained(batches, posts, post, k, max);
    }
    LastExplained(batches, posts, p, attempt, max);
  }

  lemma LastExplained(batches: seq<Batch>, posts: seq<Post>, p: Flight, attempt: Attempt, max: nat)
    requires IsLast(batches, p) && InBudget(posts, p, max) && !attempt.Fatal?
    requires Explains(posts, |batches|, batches[|batches| - 1], max)
    ensures var after := BatchesAfter(batches, EndOf(p, attempt, max));
            var all, next := posts + [Post(p.sequence, p.events, Some(attempt))], Next(p, attempt, max);
            && Explains(all, |batches|, after[|batches| - 1], max)
            && (next.Some? ==> InBudget(all, next.value, max))
  {
    CountsAfter(posts, Post(p.sequence, p.events, Some(attempt)), p.sequence);
  }

  // ------------------------------------------------------------------ runs of acts

  /** `over`: the final POST has been tried. */
  datatype Book = Book(batches: seq<Batch>, outside: nat, posts: seq<Post>, p: Option<Flight>, over: bool)

  /** A batch formed while none is in flight, an attempt at the one in flight, or the last
      attempt of all. */
  datatype Act = Formed(b: Batch) | Tried(outcome: Option<Attempt>) | Last(outcome: Option<Attempt>)

  function WithBatch(book: Book, b: Batch): Book {
    book.(batches := book.batches + [b],
          p := Some(Flight(|book.batches| + 1, b.events, 0, 0)))
  }

  /** A stop or a fatal failure leaves the POST in flight. */
  function WithAttempt(book: Book, p: Flight, outcome: Option<Attempt>, max: nat): Book
    requires book.batches != []
  {
    var posts := book.posts + [Post(p.sequence, p.events, outcome)];
    if outcome in {None, Some(Fatal)} then book.(posts := posts)
    else
      var end := EndOf(p, outcome.value, max);
      Book(BatchesAfter(book.batches, end), book.outside + NewlyDropped(p, outcome.value, max),
           posts, Next(p, outcome.value, max), false)
  }

  /** Whatever the last attempt met but a delivery, its batch is lost. */
  function WithLast(book: Book, p: Flight, outcome: Option<Attempt>): Book
    requires book.batches != []
  {
    Book(BatchesAfter(book.batches, LastEnd(outcome)), book.outside,
         book.posts + [Post(p.sequence, p.events, outcome)], None, true)
  }

  function LastEnd(outcome: Option<Attempt>): End {
    if outcome == Some(Accepted) then Delivered else LostAtStop
  }

  function AfterAct(book: Book, act: Act, max: nat): Option<Book> {
    match act
    case Formed(b) =>
      if !book.over && book.p.None? && b.end.InFlight? then Some(WithBatch(book, b)) else None
    case Tried(outcome) =>
      if !book.over && book.p.Some? && book.batches != []
      then Some(WithAttempt(book, book.p.value, outcome, max)) else None
    case Last(outcome) =>
      if !book.over && book.p.Some? && book.batches != []
      then Some(WithLast(book, book.p.value, outcome)) else None
  }

  function Books(acts: seq<Act>, max: nat): Option<Book>
    decreases |acts|, 1
  {
    if acts == [] then Some(Book([], 0, [], None, false)) else BooksAfterLast(acts, max)
  }

  function BooksAfterLast(acts: seq<Act>, max: nat): Option<Book>
    requires acts != []
    decreases |acts|, 0
  {
    var book := Books(acts[..|acts| - 1], max);
    if book.None? then None else AfterAct(book.value, acts[|acts| - 1], max)
  }

  lemma BooksOneMore(acts: seq<Act>, act: Act, max: nat)
    requires Books(acts, max).Some?
    ensures Books(acts + [act], max) == AfterAct(Books(acts, max).value, act, max)
  {
    assert (acts + [act])[..|acts|] == acts;
    assert Books(acts + [act], max) == BooksAfterLast(acts + [act], max);
  }

  ghost predicate Holds(book: Book, max: nat) {
    && InOrder(book.batches, book.outside, book.posts, book.p)
    && Explained(book.batches, book.posts, book.p, max)
    && (!book.over ==> Ended(book.batches, LostAtStop) == 0)
  }

  lemma FormHolds(book: Book, b: Batch, max: nat)
    requires Holds(book, max) && !book.over && book.p.None? && b.end.InFlight?
    ensures Holds(WithBatch(book, b), max)
  {
    var p := Flight(|book.batches| + 1, b.events, 0, 0);
    FormKeepsOrder(book.batches, book.outside, book.posts, b, p);
    FormExplained(book.batches, book.outside, book.posts, b, p, max);
    FormAdds(book.batches, b, LostAtStop);
  }

  lemma TryHolds(book: Book, p: Flight, outcome: Option<Attempt>, max: nat)
    requires Holds(book, max) && !book.over && book.p == Some(p)
    ensures book.batches != [] && Holds(WithAttempt(book, p, outcome, max), max)
  {
    var post := Post(p.sequence, p.events, outcome);
    SendKeepsOrder(book.batches, book.outside, book.posts, p, outcome);
    if outcome in {None, Some(Fatal)} {
      CutOffExplained(book.batches, book.posts, p, post, max);
    } else {
      var end := EndOf(p, outcome.value, max);
      SettleExplained(book.batches, book.posts, p, outcome.value, max);
      if !end.InFlight? {
        FinishKeepsOrder(book.batches, book.outside, book.posts + [post], p, end);
        FinishMoves(book.batches, end, LostAtStop);
      }
    }
  }

  lemma LastHolds(book: Book, p: Flight, outcome: Option<Attempt>, max: nat)
    requires Holds(book, max) && book.p == Some(p)
    ensures book.batches != [] && Holds(WithLast(book, p, outcome), max)
  {
    SendKeepsOrder(book.batches, book.outside, book.posts, p, outcome);
    FinishKeepsOrder(
      book.batches, book.outside, book.posts + [Post(p.sequence, p.events, outcome)], p, LastEnd(outcome));
    if outcome == Some(Accepted) {
      SettleExplained(book.batches, book.posts, p, Accepted, max);
    } else {
      LostExplained(book.batches, book.posts, p, outcome, max);
    }
  }

  /** A last attempt that does not deliver says nothing of how its batch ended. */
  lemma LostExplained(batches: seq<Batch>, posts: seq<Post>, p: Flight, outcome: Option<Attempt>, max: nat)
    requires IsLast(batches, p) && Explained(batches, posts, Some(p), max) && outcome != Some(Accepted)
    ensures Explained(BatchesAfter(batches, LostAtStop), posts + [Post(p.sequence, p.events, outcome)], None, max)
  {
    var post := Post(p.sequence, p.events, outcome);
    var after := BatchesAfter(batches, LostAtStop);
    forall k | 0 <= k < |batches| - 1 ensures Explains(posts + [post], k + 1, after[k], max) {
      OthersExplained(batches, posts, post, k, max);
    }
    CountAfter(posts, post, p.sequence, Accepted);
  }

  lemma FlyingIsLast(acts: seq<Act>, max: nat)
    requires Books(acts, max).Some? && Books(acts, max).value.p.Some?
    ensures Books(acts, max).value.batches != []
  {
    BooksHold(acts, max);
  }

  lemma TriedBooks(acts: seq<Act>, batches: seq<Batch>, outside: nat, posts: seq<Post>, b: Flight, a: Attempt, max: nat)
    requires Books(acts, max) == Some(Book(batches, outside, posts, Some(b), false)) && !a.Fatal?
    ensures batches != []
    ensures var end := EndOf(b, a, max);
            Books(acts + [Tried(Some(a))], max)
            == Some(Book(BatchesAfter(batches, end), outside + NewlyDropped(b, a, max),
                         posts + [Post(b.sequence, b.events, Some(a))], Next(b, a, max), false))
  {
    FlyingIsLast(acts, max);
    BooksOneMore(acts, Tried(Some(a)), max);
  }

  /** Over every run of the loop: one POST in flight at most and it is the last batch, a
      retry repeats its number and events, and every batch that left flight did so by a
      delivery or by as many failures as its budget allows. */
  lemma {:induction false} BooksHold(acts: seq<Act>, max: nat)
    requires Books(acts, max).Some?
    ensures Holds(Books(acts, max).value, max)
  {
    if acts != [] {
      var n := |acts| - 1;
      assert Books(acts, max) == BooksAfterLast(acts, max);
      BooksHold(acts[..n], max);
      var book := Books(acts[..n], max).value;
      match acts[n]
      case Formed(b) => FormHolds(book, b, max);
      case Tried(outcome) => TryHolds(book, book.p.value, outcome, max);
      case Last(outcome) => LastHolds(book, book.p.value, outcome, max);
    }
  }
}
