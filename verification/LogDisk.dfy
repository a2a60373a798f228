/**
 The log's directory: the active file, the rotating one and five archives, and the
 file operations a rotation and a write are made of. Any operation may fail and the
 process may stop after any of them, so a history of the directory is any sequence
 of operations; what this module proves holds of every one.
 */
module LogDisk {
  import opened Common

  const ARCHIVES: nat := 5

  type Bytes = seq<byte>

  datatype Name = Active | Rotating | Archive(n: nat)

  type Files = map<Name, Bytes>

  datatype Op =
    | RenameActive          // the active file to the rotating name
    | Shift(n: nat)         // archive `n` to `n + 1`
    | Settle                // the rotating file to archive 1
    | DropOldest            // archive 5 removed
    | Create                // a new active file
    | Append(bytes: Bytes)  // to the active file: a record, or the part a failed write left

  /** The operation, where there is something for it. A rename replaces a file that
      has the new name; an archive is removed only with every place taken and a file
      waiting for one. */
  function Next(d: Files, op: Op): Option<Files> {
    match op
    case RenameActive =>
      if Active in d then Some((d - {Active})[Rotating := d[Active]]) else None
    case Shift(n) =>
      if 1 <= n < ARCHIVES && Archive(n) in d
      then Some((d - {Archive(n)})[Archive(n + 1) := d[Archive(n)]]) else None
    case Settle =>
      if Rotating in d then Some((d - {Rotating})[Archive(1) := d[Rotating]]) else None
    case DropOldest =>
      if Rotating in d && AllTaken(d) then Some(d - {Archive(ARCHIVES)}) else None
    case Create => if Active !in d then Some(d[Active := []]) else None
    case Append(bytes) => if Active in d then Some(d[Active := d[Active] + bytes]) else None
  }

  /** The name a rename gives, or that of the file removed. */
  function Target(op: Op): Name {
    match op
    case RenameActive => Rotating
    case Shift(n) => Archive(n + 1)
    case Settle => Archive(1)
    case DropOldest => Archive(ARCHIVES)
    case _ => Active
  }

  /** The operation is a rename onto a file that is there. */
  predicate Replaces(d: Files, op: Op) {
    (op.RenameActive? || op.Shift? || op.Settle?) && Target(op) in d
  }

  predicate AllTaken(d: Files) {
    forall n | 1 <= n <= ARCHIVES :: Archive(n) in d
  }

  function At(d: Files, name: Name): Bytes {
    if name in d then d[name] else []
  }

  /** The archives from `n` up, the oldest first. */
  function ArchivesFrom(d: Files, n: nat): Bytes
    decreases ARCHIVES - n
  {
    if n > ARCHIVES then [] else ArchivesFrom(d, n + 1) + At(d, Archive(n))
  }

  /** Everything the directory holds, in the order it was written. */
  function Chronicle(d: Files): Bytes {
    ArchivesFrom(d, 1) + At(d, Rotating) + At(d, Active)
  }

  lemma {:induction false} SameArchives(d: Files, e: Files, n: nat)
    requires forall m | n <= m <= ARCHIVES :: At(d, Archive(m)) == At(e, Archive(m))
    ensures ArchivesFrom(d, n) == ArchivesFrom(e, n)
    decreases ARCHIVES - n
  {
    if n <= ARCHIVES {
      SameArchives(d, e, n + 1);
    }
  }

  lemma {:induction false} ShiftKeepsOrder(d: Files, n: nat, from: nat)
    requires Next(d, Shift(n)).Some? && Archive(n + 1) !in d && from <= n
    ensures ArchivesFrom(Next(d, Shift(n)).value, from) == ArchivesFrom(d, from)
    decreases n - from
  {
    var e := Next(d, Shift(n)).value;
    if from == n {
      SameArchives(d, e, n + 2);
      assert ArchivesFrom(e, n + 1) == ArchivesFrom(d, n + 2) + d[Archive(n)];
      assert ArchivesFrom(d, n + 1) == ArchivesFrom(d, n + 2) + [];
      assert At(e, Archive(n)) == [];
      assert ArchivesFrom(e, n) == ArchivesFrom(e, n + 1) + [];
    } else {
      ShiftKeepsOrder(d, n, from + 1);
      assert At(e, Archive(from)) == At(d, Archive(from));
    }
  }

  lemma {:induction false} DropTakesTheOldest(d: Files, from: nat)
    requires Next(d, DropOldest).Some? && from <= ARCHIVES
    ensures ArchivesFrom(d, from) == d[Archive(ARCHIVES)] + ArchivesFrom(Next(d, DropOldest).value, from)
    decreases ARCHIVES - from
  {
    var e := Next(d, DropOldest).value;
    if from == ARCHIVES {
      assert ArchivesFrom(d, ARCHIVES + 1) == [] && ArchivesFrom(e, ARCHIVES + 1) == [];
      assert ArchivesFrom(d, from) == [] + d[Archive(ARCHIVES)];
    } else {
      DropTakesTheOldest(d, from + 1);
      assert At(e, Archive(from)) == At(d, Archive(from));
      Assoc(d[Archive(ARCHIVES)], ArchivesFrom(e, from + 1), At(d, Archive(from)));
    }
  }

  /** The file an operation removes or replaces, and what it adds at the newest end. */
  function Lost(d: Files, op: Op): Bytes {
    if op.Create? || op.Append? then [] else At(d, Target(op))
  }

  function Added(op: Op): Bytes {
    if op.Append? then op.bytes else []
  }

  /** The three parts of a chronicle, at most one of them moved or changed. */
  lemma DropOp(d: Files, e: Files)
    requires Next(d, DropOldest) == Some(e)
    ensures At(d, Archive(ARCHIVES)) + Chronicle(e) == Chronicle(d)
  {
    DropTakesTheOldest(d, 1);
    var oldest := d[Archive(ARCHIVES)];
    assert At(e, Rotating) == At(d, Rotating) && At(e, Active) == At(d, Active);
    Assoc(oldest, ArchivesFrom(e, 1), At(e, Rotating));
    Assoc(oldest, ArchivesFrom(e, 1) + At(e, Rotating), At(e, Active));
  }

  lemma SettleOp(d: Files, e: Files)
    requires Next(d, Settle) == Some(e) && Archive(1) !in d
    ensures Chronicle(e) == Chronicle(d)
  {
    SameArchives(d, e, 2);
    Empty(ArchivesFrom(d, 2));
    Empty(ArchivesFrom(e, 1));
    assert ArchivesFrom(e, 1) == ArchivesFrom(d, 1) + At(d, Rotating);
  }

  lemma RenameOp(d: Files, e: Files)
    requires Next(d, RenameActive) == Some(e) && Rotating !in d
    ensures Chronicle(e) == Chronicle(d)
  {
    SameArchives(d, e, 1);
    Empty(ArchivesFrom(d, 1));
    Empty(ArchivesFrom(d, 1) + d[Active]);
  }

  lemma AppendOp(d: Files, bytes: Bytes, e: Files)
    requires Next(d, Append(bytes)) == Some(e)
    ensures Chronicle(e) == Chronicle(d) + bytes
  {
    SameArchives(d, e, 1);
    Assoc(ArchivesFrom(d, 1) + At(d, Rotating), d[Active], bytes);
  }

  lemma OneOp(d: Files, op: Op, e: Files)
    requires Next(d, op) == Some(e) && !Replaces(d, op)
    ensures Lost(d, op) + Chronicle(e) == Chronicle(d) + Added(op)
  {
    Empty(Chronicle(e));
    Empty(Chronicle(d));
    match op
    case Shift(n) => ShiftKeepsOrder(d, n, 1);
    case DropOldest => DropOp(d, e);
    case Settle => SettleOp(d, e);
    case Append(bytes) => AppendOp(d, bytes, e);
    case Create => SameArchives(d, e, 1);
    case RenameActive => RenameOp(d, e);
  }

  /** The directory after a history, all that was appended in it, all that was removed
      or replaced, and whether a rename ever replaced a file. */
  datatype Trace = Trace(files: Files, appended: Bytes, lost: Bytes, replaced: bool)

  function After(t: Trace, op: Op): Option<Trace> {
    var d := Next(t.files, op);
    if d.None? then None
    else Some(Trace(d.value, t.appended + Added(op), t.lost + Lost(t.files, op), t.replaced || Replaces(t.files, op)))
  }

  function Ran(start: Files, ops: seq<Op>): Option<Trace>
    decreases |ops|, 1
  {
    if ops == [] then Some(Trace(start, [], [], false)) else RanToLast(start, ops)
  }

  function RanToLast(start: Files, ops: seq<Op>): Option<Trace>
    requires ops != []
    decreases |ops|, 0
  {
    var t := Ran(start, ops[..|ops| - 1]);
    if t.None? then None else After(t.value, ops[|ops| - 1])
  }

  lemma RanOneMore(start: Files, ops: seq<Op>, op: Op)
    requires Ran(start, ops).Some?
    ensures Ran(start, ops + [op]) == After(Ran(start, ops).value, op)
  {
    assert (ops + [op])[..|ops|] == ops;
    assert Ran(start, ops + [op]) == RanToLast(start, ops + [op]);
  }

  /** Rotation never reorders and, while no rename replaces a file, never loses but from
      the oldest archive: what was dropped, then what the directory holds, is what it
      held at first, then all that was appended. */
  lemma {:induction false} HistoryIsKept(start: Files, ops: seq<Op>, t: Trace)
    requires Ran(start, ops) == Some(t) && !t.replaced
    ensures t.lost + Chronicle(t.files) == Chronicle(start) + t.appended
  {
    if ops == [] {
      Empty(Chronicle(start));
    } else {
      var n := |ops| - 1;
      assert Ran(start, ops) == RanToLast(start, ops);
      var before := Ran(start, ops[..n]).value;
      HistoryIsKept(start, ops[..n], before);
      OneOp(before.files, ops[n], t.files);
      Assoc(before.lost, Lost(before.files, ops[n]), Chronicle(t.files));
      Assoc(before.lost, Chronicle(before.files), Added(ops[n]));
      Assoc(Chronicle(start), before.appended, Added(ops[n]));
    }
  }

  // ------------------------------------------------------ when a rename replaces a file

  /** `a` is `b` with some of its bytes left out. */
  predicate IsThinned(a: Bytes, b: Bytes) {
    a == [] ||
    (b != [] && ((a[|a| - 1] == b[|b| - 1] && IsThinned(a[..|a| - 1], b[..|b| - 1])) || IsThinned(a, b[..|b| - 1])))
  }

  lemma {:induction false} ThinnedLonger(a: Bytes, b: Bytes, x: Bytes)
    requires IsThinned(a, b)
    ensures IsThinned(a + x, b + x) && IsThinned(a, b + x)
  {
    if x == [] {
      Empty(a);
      Empty(b);
    } else {
      var n := |x| - 1;
      ThinnedLonger(a, b, x[..n]);
      assert (a + x)[..|a + x| - 1] == a + x[..n] && (b + x)[..|b + x| - 1] == b + x[..n];
    }
  }

  lemma {:induction false} ThinnedTwice(a: Bytes, b: Bytes, c: Bytes)
    requires IsThinned(a, b) && IsThinned(b, c)
    ensures IsThinned(a, c)
  {
    if a != [] {
      var a', b', c' := a[..|a| - 1], b[..|b| - 1], c[..|c| - 1];
      if IsThinned(b, c') {
        ThinnedTwice(a, b, c');
      } else if IsThinned(a, b') {
        ThinnedTwice(a, b', c');
      } else {
        ThinnedTwice(a', b', c');
      }
    }
  }

  lemma {:induction false} ThinnedSelf(a: Bytes)
    ensures IsThinned(a, a)
  {
    if a != [] {
      ThinnedSelf(a[..|a| - 1]);
    }
  }

  /** Leaving out a middle part. */
  lemma Cut(p: Bytes, x: Bytes, q: Bytes)
    ensures IsThinned(p + q, p + x + q)
  {
    ThinnedSelf(p);
    ThinnedLonger(p, p, x);
    ThinnedLonger(p, p + x, q);
  }

  /** Without archive `k`, the archives are without its part. */
  lemma {:induction false} WithoutArchive(d: Files, k: nat, from: nat) returns (p: Bytes, q: Bytes)
    requires from <= k <= ARCHIVES
    ensures ArchivesFrom(d, from) == p + At(d, Archive(k)) + q
    ensures ArchivesFrom(d - {Archive(k)}, from) == p + q
    decreases k - from
  {
    var e := d - {Archive(k)};
    if from == k {
      SameArchives(d, e, k + 1);
      p, q := ArchivesFrom(d, k + 1), [];
      assert ArchivesFrom(e, k) == p + At(e, Archive(k)) == p + q;
      Empty(p + At(d, Archive(k)));
    } else {
      p, q := WithoutArchive(d, k, from + 1);
      var last := At(d, Archive(from));
      assert At(e, Archive(from)) == last;
      Assoc(p + At(d, Archive(k)), q, last);
      Assoc(p, q, last);
      q := q + last;
    }
  }

  lemma CutThenMore(p: Bytes, x: Bytes, q: Bytes, r: Bytes, s: Bytes)
    ensures IsThinned(p + q + r + s, p + x + q + r + s)
    ensures |x| + |p + q + r + s| == |p + x + q + r + s|
  {
    Cut(p, x, q);
    ThinnedLonger(p + q, p + x + q, r);
    ThinnedLonger(p + q + r, p + x + q + r, s);
  }

  lemma WithoutRotating(d: Files)
    ensures IsThinned(Chronicle(d - {Rotating}), Chronicle(d))
    ensures |At(d, Rotating)| + |Chronicle(d - {Rotating})| == |Chronicle(d)|
  {
    SameArchives(d, d - {Rotating}, 1);
    var p := ArchivesFrom(d, 1);
    Empty(p);
    Cut(p, At(d, Rotating), At(d, Active));
  }

  /** Without one file, the chronicle is without its part. */
  lemma WithoutFile(d: Files, name: Name)
    requires name == Rotating || (name.Archive? && 1 <= name.n <= ARCHIVES)
    ensures IsThinned(Chronicle(d - {name}), Chronicle(d))
    ensures |At(d, name)| + |Chronicle(d - {name})| == |Chronicle(d)|
  {
    if name == Rotating {
      WithoutRotating(d);
    } else {
      var p, q := WithoutArchive(d, name.n, 1);
      CutThenMore(p, At(d, name), q, At(d, Rotating), At(d, Active));
    }
  }

  /** A rename that replaces a file is the file's removal, then the rename. */
  lemma ReplacingOp(d: Files, op: Op, e: Files)
    requires Next(d, op) == Some(e) && Replaces(d, op)
    ensures IsThinned(Chronicle(e), Chronicle(d)) && |Lost(d, op)| + |Chronicle(e)| == |Chronicle(d)|
  {
    var without := d - {Target(op)};
    WithoutFile(d, Target(op));
    assert Next(without, op).value == e;
    OneOp(without, op, e);
    assert Lost(without, op) == [] && Added(op) == [];
    Empty(Chronicle(e));
    Empty(Chronicle(without));
  }

  /** Whatever a rename replaces, what the directory holds is in the order it was written,
      and what is missing is as long as what was removed or replaced. */
  lemma {:induction false} HistoryIsInOrder(start: Files, ops: seq<Op>, t: Trace)
    requires Ran(start, ops) == Some(t)
    ensures IsThinned(Chronicle(t.files), Chronicle(start) + t.appended)
    ensures |t.lost| + |Chronicle(t.files)| == |Chronicle(start)| + |t.appended|
  {
    if ops == [] {
      Empty(Chronicle(start));
      ThinnedSelf(Chronicle(start));
    } else {
      var n := |ops| - 1;
      assert Ran(start, ops) == RanToLast(start, ops);
      var before := Ran(start, ops[..n]).value;
      HistoryIsInOrder(start, ops[..n], before);
      var all := Chronicle(start) + before.appended;
      OpIsInOrder(before.files, ops[n], t.files);
      ThinnedLonger(Chronicle(before.files), all, Added(ops[n]));
      ThinnedTwice(Chronicle(t.files), Chronicle(before.files) + Added(ops[n]), all + Added(ops[n]));
      Assoc(Chronicle(start), before.appended, Added(ops[n]));
    }
  }

  lemma OpIsInOrder(d: Files, op: Op, e: Files)
    requires Next(d, op) == Some(e)
    ensures IsThinned(Chronicle(e), Chronicle(d) + Added(op))
    ensures |Lost(d, op)| + |Chronicle(e)| == |Chronicle(d)| + |Added(op)|
  {
    if Replaces(d, op) {
      ReplacingOp(d, op, e);
      Empty(Chronicle(d));
    } else {
      OneOp(d, op, e);
      Cut([], Lost(d, op), Chronicle(e));
      Empty(Chronicle(e));
      Empty(Lost(d, op));
    }
  }
}
