/**
 The rotating log: lines received in any chunks become records, each written to
 the active file within its bound. `watch` says how each file operation ends; a
 failed write leaves any part of its bytes.
 */
module RotatingLog {
  import opened Common
  import opened LogDisk
  import opened LogLines

  const MAX_FILE_BYTES: nat := 10 * 1024 * 1024
  const ROTATION_RETRY_EVERY: int := 1000

  datatype Point =
    | OpenAtStart | RenameToRotating | OpenInRotate | Remove | ShiftFile(n: nat) | SettleFile
    | OpenAfterRotate | FirstWrite | OpenForRetry | NewlineWrite | SecondWrite
    | See(name: Name)

  /** `left`: how many of a failed write's bytes reached the file. */
  datatype Fate = Done | Fails(left: nat)

  /** One record's circumstances: the time, in milliseconds, and the operations' fates. */
  datatype Moment = Moment(now: int, watch: Point -> Fate)

  ghost predicate Quiet(watch: Point -> Fate) {
    forall p :: watch(p).Done?
  }

  /** Every operation succeeds but inspections. */
  ghost predicate Works(watch: Point -> Fate) {
    forall p: Point :: p.See? || watch(p).Done?
  }

  /** Every name can be inspected. */
  ghost predicate SeesAll(watch: Point -> Fate) {
    forall name :: watch(See(name)).Done?
  }

  /** `exists`: a name that cannot be inspected counts as free. */
  predicate Sees(d: Files, name: Name, watch: Point -> Fate) {
    name in d && watch(See(name)).Done?
  }

  /** The first place that counts as free is taken. */
  predicate MissesArchive(d: Files, watch: Point -> Fate) {
    exists n | 1 <= n <= ARCHIVES ::
      && Archive(n) in d && !Sees(d, Archive(n), watch)
      && forall m | 1 <= m < n :: Sees(d, Archive(m), watch)
  }

  /** A rotation would take a name for free that is not. */
  predicate Misses(d: Files, watch: Point -> Fate) {
    (Rotating in d && !Sees(d, Rotating, watch)) || MissesArchive(d, watch)
  }

  ghost predicate AllQuiet(moments: nat -> Moment) {
    forall n: nat :: Quiet(moments(n).watch)
  }

  predicate WithinBound(d: Files) {
    forall name | name in d :: |d[name]| <= MAX_FILE_BYTES
  }

  /** Only archives moved, each as it was. */
  predicate ArchivesMoved(was: Files, files: Files) {
    && (Rotating in files <==> Rotating in was) && At(files, Rotating) == At(was, Rotating)
    && (Active in files <==> Active in was) && At(files, Active) == At(was, Active)
    && (WithinBound(was) ==> WithinBound(files))
  }

  /** The places up to `n` are taken. */
  predicate TakenUpTo(files: Files, n: nat) {
    forall m | 1 <= m <= n :: Archive(m) in files
  }

  lemma ShiftMoves(files: Files, n: nat) returns (moved: Files)
    requires 1 <= n < ARCHIVES && TakenUpTo(files, n)
    ensures Next(files, Shift(n)) == Some(moved)
    ensures ArchivesMoved(files, moved) && TakenUpTo(moved, n - 1) && Archive(n) !in moved
  {
    moved := Next(files, Shift(n)).value;
  }

  lemma RenameMoves(files: Files) returns (moved: Files)
    requires Active in files
    ensures Next(files, RenameActive) == Some(moved)
    ensures Active !in moved && Rotating in moved && SameTaken(files, moved)
    ensures WithinBound(files) ==> WithinBound(moved)
  {
    moved := Next(files, RenameActive).value;
  }

  /** The same archives. */
  ghost predicate SameTaken(was: Files, files: Files) {
    forall n :: Archive(n) in files <==> Archive(n) in was
  }

  predicate EndsALine(s: Bytes) {
    s == [] || s[|s| - 1] == NEWLINE
  }

  /** What replaces a record of that length is one line that fits in a record. */
  type Diagnostic = f: nat -> Bytes | forall n :: |f(n)| + 1 <= MAX_RECORD_BYTES && IsPlain(f(n))
    witness (n: nat) => []

  datatype Health = AtRest | Troubled

  class Log {
    var files: Files
    var active: bool
    var size: nat
    var failed: bool
    var unfinished: bool
    /** The times of a failing rotation: its first failure and its latest try. */
    var failing: Option<(int, int)>
    const retryLimit: int
    const diagnostic: Diagnostic

    /** What came in after the last newline: the bytes themselves, or no more than their
        number when they are too many for a record. */
    var pending: Bytes
    var discarding: bool
    var lineLen: nat

    ghost const start: Files
    ghost var ops: seq<Op>
    /** All that was appended to the active file, and all that was removed or replaced. */
    ghost var appended: Bytes
    ghost var lost: Bytes
    /** A rename replaced a file. */
    ghost var replaced: bool
    /** Every byte received, and every record handed on for writing. */
    ghost var received: Bytes
    ghost var handed: seq<Record>
    /** Of each record handed on, the part of it a failed first write left. */
    ghost var parts: seq<Bytes>

    /** A rotation known to be unfinished is one. */
    ghost predicate Sound()
      reads this`ops, this`files, this`appended, this`lost, this`replaced, this`unfinished
    {
      Ran(start, ops) == Some(Trace(files, appended, lost, replaced)) && (unfinished ==> Rotating in files)
    }

    /** The tracked size is the active file's. */
    ghost predicate Valid()
      reads this`ops, this`files, this`appended, this`lost, this`replaced, this`unfinished, this`active, this`size
    {
      Sound() && (active ==> Active in files && size == |files[Active]|)
    }

    /** The records handed on are those of the lines received; what is kept is the
        line without a newline yet. */
    ghost predicate Framed()
      reads this`handed, this`received, this`lineLen, this`discarding, this`pending
    {
      Frame(handed, pending, discarding, lineLen) == FrameOf(received)
    }

    /** Until the log stops: what was appended is each record handed on as a line, after
        the ended part a failed write left of it. */
    ghost predicate Kept()
      reads this`failed, this`appended, this`handed, this`parts
    {
      failed || (|parts| == |handed| && appended == Entries(handed, parts, diagnostic))
    }

    /** Until the log stops: the active file ends a line. */
    ghost predicate Whole()
      reads this`failed, this`active, this`files
    {
      !failed && active ==> EndsALine(At(files, Active))
    }

    /** At rest: nothing has failed, every file is within its bound, and what was
        appended is the records handed on, each a line. */
    ghost function Health(): Health
      reads this`files, this`unfinished, this`failing, this`active, this`failed
      reads this`appended, this`handed, this`replaced
    {
      if !failed && !replaced && Rests(files, unfinished, failing, active) && WithinBound(files)
         && appended == Texts(handed, diagnostic)
      then AtRest else Troubled
    }

    constructor (disk: Files, retryLimit: int, diagnostic: Diagnostic, watch: Point -> Fate)
      ensures Valid() && Framed() && Kept() && files == start == disk && ops == [] && received == [] && handed == []
      ensures appended == [] && (unfinished <==> Sees(disk, Rotating, watch)) && failing.None?
      ensures !active && !failed && !replaced
    {
      files, start, ops, appended, lost, replaced := disk, disk, [], [], [], false;
      active, size, failed, failing := false, 0, false, None;
      unfinished := Sees(disk, Rotating, watch);
      pending, discarding, lineLen := [], false, 0;
      received, handed, parts := [], [], [];
      this.retryLimit, this.diagnostic := retryLimit, diagnostic;
    }

    /** A full active file, or a rotation left over, is dealt with before any record. */
    method Open(watch: Point -> Fate) returns (ok: bool)
      requires Valid() && !active
      modifies this`files, this`ops, this`appended, this`lost, this`replaced, this`active, this`size, this`unfinished
      ensures Valid() && old(ops) <= ops && appended == old(appended)
      ensures WithinBound(old(files)) ==> WithinBound(files)
      ensures SeesAll(watch) && replaced ==> old(replaced)
      ensures ok ==> active
      ensures EndsALine(At(old(files), Active)) ==> Whole()
      ensures ok && !old(unfinished) && |At(old(files), Active)| < MAX_FILE_BYTES ==>
        files == if Active in old(files) then old(files) else old(files)[Active := []]
      ensures Works(watch) ==> ok
      ensures ok && |At(old(files), Active)| >= MAX_FILE_BYTES ==>
        (replaced <==> old(replaced) || Misses(old(files), watch))
      ensures ok && (old(unfinished) <==> Rotating in old(files)) ==> Rotating !in files && !unfinished
      ensures
        (&& ok && (old(unfinished) <==> Rotating in old(files)) && WithinBound(old(files))
         && !failed && !replaced && failing.None? && appended == Texts(handed, diagnostic)) ==> Health().AtRest?
    {
      ok := Reopen(watch(OpenAtStart));
      if !ok { return; }
      if size >= MAX_FILE_BYTES || unfinished {
        ok := Rotate(watch);
      }
    }

    /** Whatever failed, until the log stops: what was dropped, then all the directory
        holds from its oldest archive to the active file, is what it held at first, then
        each complete line received, or its diagnostic, in order, after the ended part a
        failed write left of it; and while nothing failed, no part. After a rename that
        replaced a file, the directory still holds it in order, without what was lost. */
    lemma ChronicleIsTheStream()
      requires Valid() && Framed() && Kept() && !failed
      ensures |parts| == |RecordsOf(Lines(received))|
      ensures var all := Chronicle(start) + Entries(RecordsOf(Lines(received)), parts, diagnostic);
              && (!replaced ==> lost + Chronicle(files) == all)
              && IsThinned(Chronicle(files), all) && |lost| + |Chronicle(files)| == |all|
      ensures Health().AtRest? ==>
        lost + Chronicle(files) == Chronicle(start) + Texts(RecordsOf(Lines(received)), diagnostic)
    {
      if !replaced {
        HistoryIsKept(start, ops, Trace(files, appended, lost, replaced));
      }
      HistoryIsInOrder(start, ops, Trace(files, appended, lost, replaced));
      FrameMeans(received);
    }

    /** Windows carries out one operation. */
    method Do(op: Op)
      requires Ran(start, ops) == Some(Trace(files, appended, lost, replaced)) && Next(files, op).Some?
      modifies this`files, this`ops, this`appended, this`lost, this`replaced
      ensures Ran(start, ops) == Some(Trace(files, appended, lost, replaced)) && old(ops) <= ops
      ensures Some(files) == Next(old(files), op)
      ensures appended == if op.Append? then old(appended) + op.bytes else old(appended)
      ensures replaced == (old(replaced) || Replaces(old(files), op))
    {
      RanOneMore(start, ops, op);
      Empty(appended);
      lost, replaced := lost + Lost(files, op), replaced || Replaces(files, op);
      appended := appended + Added(op);
      files := Next(files, op).value;
      ops := ops + [op];
    }

    method Reopen(fate: Fate) returns (ok: bool)
      requires Sound()
      modifies this`files, this`ops, this`appended, this`lost, this`replaced, this`active, this`size
      ensures Valid() && old(ops) <= ops && appended == old(appended) && replaced == old(replaced)
      ensures ok == active == fate.Done?
      ensures files == if ok && Active !in old(files) then old(files)[Active := []] else old(files)
    {
      active := false;
      if !fate.Done? { return false; }
      if Active !in files {
        Do(Create);
      }
      active, size := true, |files[Active]|;
      ok := true;
    }

    /** From wherever an earlier call was interrupted to the end, or to the next failure.
        A rename replaces a file exactly when a name that is taken counts as free. */
    method Rotate(watch: Point -> Fate) returns (ok: bool)
      requires Valid()
      modifies this`files, this`ops, this`appended, this`lost, this`replaced, this`active, this`size, this`unfinished
      ensures Valid() && old(ops) <= ops && appended == old(appended)
      ensures WithinBound(old(files)) ==> WithinBound(files)
      ensures ok ==> Rotating !in files && !unfinished && (old(active) || Rotating !in old(files) ==> active)
      ensures ok && Rotating !in old(files) ==> active && files[Active] == []
      ensures GoesOn(old(files), files)
      ensures ok ==> (replaced <==> old(replaced) || Misses(old(files), watch))
      ensures replaced ==> old(replaced) || Misses(old(files), watch)
      ensures Works(watch) && Active in old(files) ==> ok
    {
      if !Sees(files, Rotating, watch) {
        ok := SetAside(watch);
        if !ok { return; }
      }
      ok := MakeRoom(watch);
      if !ok { return; }
      if !watch(SettleFile).Done? { return false; }
      Do(Settle);
      unfinished := false;
    }

    /** The active file to the rotating name, and a new one in its place. */
    method SetAside(watch: Point -> Fate) returns (ok: bool)
      requires Valid()
      modifies this`files, this`ops, this`appended, this`lost, this`replaced, this`active, this`size, this`unfinished
      ensures Valid() && old(ops) <= ops && appended == old(appended)
      ensures WithinBound(old(files)) ==> WithinBound(files)
      ensures ok ==> Rotating in files && unfinished && active && files[Active] == []
      ensures GoesOn(old(files), files)
      ensures SameTaken(old(files), files)
      ensures ok ==> (replaced <==> old(replaced) || Rotating in old(files))
      ensures replaced ==> old(replaced) || Rotating in old(files)
      ensures Works(watch) && Active in old(files) ==> ok
    {
      active := false;
      var renamed := Active in files && watch(RenameToRotating).Done?;
      if renamed {
        ghost var moved := RenameMoves(files);
        Do(RenameActive);
      }
      ok := Reopen(watch(OpenInRotate));
      if !ok || !renamed { return false; }
      unfinished := true;
    }

    /** Archive 1 becomes free: by the gap nearest to it, or by removing the oldest. */
    method MakeRoom(watch: Point -> Fate) returns (ok: bool)
      requires Valid() && Rotating in files
      modifies this`files, this`ops, this`appended, this`lost, this`replaced
      ensures Valid() && old(ops) <= ops && appended == old(appended) && ArchivesMoved(old(files), files)
      ensures ok ==> (replaced || Archive(1) in files <==> old(replaced) || MissesArchive(old(files), watch))
      ensures replaced ==> old(replaced) || MissesArchive(old(files), watch)
      ensures Works(watch) ==> ok
    {
      var free := FirstFree(watch);
      if free > ARCHIVES {
        if !watch(Remove).Done? { return false; }
        Do(DropOldest);
        free := ARCHIVES;
      }
      ok := ShiftUp(free, watch);
    }

    method FirstFree(watch: Point -> Fate) returns (free: nat)
      ensures 1 <= free <= ARCHIVES + 1 && (free <= ARCHIVES ==> !Sees(files, Archive(free), watch))
      ensures forall n | 1 <= n < free :: Sees(files, Archive(n), watch)
    {
      free := 1;
      while free <= ARCHIVES && Sees(files, Archive(free), watch)
        invariant 1 <= free <= ARCHIVES + 1
        invariant forall n | 1 <= n < free :: Sees(files, Archive(n), watch)
      {
        free := free + 1;
      }
    }

    /** The archives before a free place, the oldest first, each into the next. */
    method ShiftUp(free: nat, watch: Point -> Fate) returns (ok: bool)
      requires Valid() && 1 <= free <= ARCHIVES && TakenUpTo(files, free - 1)
      modifies this`files, this`ops, this`appended, this`lost, this`replaced
      ensures Valid() && old(ops) <= ops && appended == old(appended) && ArchivesMoved(old(files), files)
      ensures ok ==> (replaced || Archive(1) in files <==> old(replaced) || Archive(free) in old(files))
      ensures replaced ==> old(replaced) || Archive(free) in old(files)
      ensures Works(watch) ==> ok
    {
      ok := true;
      var n := free - 1;
      while ok && n > 0
        invariant 0 <= n < ARCHIVES && (Works(watch) ==> ok)
        invariant Valid() && old(ops) <= ops && appended == old(appended) && ArchivesMoved(old(files), files)
        invariant ok ==> TakenUpTo(files, n)
        invariant ok ==> (replaced || Archive(n + 1) in files <==> old(replaced) || Archive(free) in old(files))
        invariant replaced ==> old(replaced) || Archive(free) in old(files)
        decreases n, ok
      {
        ok := ShiftOne(n, watch);
        if ok {
          n := n - 1;
        }
      }
    }

    method ShiftOne(n: nat, watch: Point -> Fate) returns (ok: bool)
      requires Valid() && 1 <= n < ARCHIVES && TakenUpTo(files, n)
      modifies this`files, this`ops, this`appended, this`lost, this`replaced
      ensures Valid() && old(ops) <= ops && appended == old(appended) && ArchivesMoved(old(files), files)
      ensures ok == watch(ShiftFile(n)).Done?
      ensures ok ==> TakenUpTo(files, n - 1) && Archive(n) !in files
      ensures replaced == (old(replaced) || (ok && Archive(n + 1) in old(files)))
    {
      ok := watch(ShiftFile(n)).Done?;
      if ok {
        ghost var moved := ShiftMoves(files, n);
        Do(Shift(n));
      }
    }

    /** A rotation that keeps failing is tried once a second, and refuses the record only
        after `retryLimit`. */
    method RotateIfDue(len: nat, m: Moment) returns (ok: bool)
      requires Valid()
      modifies this`files, this`ops, this`appended, this`lost, this`replaced
      modifies this`active, this`size, this`unfinished, this`failing
      ensures Valid() && old(ops) <= ops && appended == old(appended)
      ensures WithinBound(old(files)) ==> WithinBound(files)
      ensures ok && old(active) ==> active
      ensures GoesOn(old(files), files)
      ensures Rests(old(files), old(unfinished), old(failing), old(active)) && Quiet(m.watch) ==>
        && ok && Rests(files, unfinished, failing, active)
        && (files[Active] == [] || |files[Active]| + len <= MAX_FILE_BYTES)
      ensures !old(unfinished) && old(active) && |At(old(files), Active)| + len <= MAX_FILE_BYTES ==>
        ok && files == old(files)
      ensures !ok ==> Persists(old(failing), m) || !m.watch(OpenAfterRotate).Done?
      ensures replaced ==> old(replaced) || Misses(old(files), m.watch)
    {
      var full := size > 0 && size + len > MAX_FILE_BYTES;
      if !unfinished && !full { return true; }
      if failing.Some? && m.now - failing.value.1 < ROTATION_RETRY_EVERY { return true; }
      var rotated := Rotate(m.watch);
      if rotated {
        failing := None;
        return true;
      }
      var since := if failing.Some? then failing.value.0 else m.now;
      failing := Some((since, m.now));
      if m.now - since >= retryLimit { return false; }
      if !active {
        ok := Reopen(m.watch(OpenAfterRotate));
      } else {
        ok := true;
      }
    }

    /** Rotation has been failing for the limit. */
    ghost predicate Persists(was: Option<(int, int)>, m: Moment) {
      if was.Some? then m.now - was.value.0 >= retryLimit else retryLimit <= 0
    }

    /** A write of `bytes` to the active file: all of them, or a part. */
    method AppendRaw(bytes: Bytes, fate: Fate) returns (ok: bool)
      requires Valid()
      modifies this`files, this`ops, this`appended, this`lost, this`replaced, this`active
      ensures Sound() && old(ops) <= ops && replaced == old(replaced)
      ensures ok ==> old(active) && active && fate.Done? && files == old(files)[Active := old(files)[Active] + bytes]
      ensures ok ==> appended == old(appended) + bytes
      ensures old(active) ==> Active in files
      ensures !ok && old(active) ==>
        exists n | 0 <= n <= |bytes| ::
          && files == old(files)[Active := old(files)[Active] + bytes[..n]]
          && appended == old(appended) + bytes[..n]
      ensures !old(active) ==> !ok && files == old(files)
      ensures active == old(active) && (old(active) && fate.Done? ==> ok)
    {
      if !active { return false; }
      if fate.Done? {
        Do(Append(bytes));
        return true;
      }
      var n := if fate.left < |bytes| then fate.left else |bytes|;
      Do(Append(bytes[..n]));
      return false;
    }

    /** The line goes to the file in two tries at most; `base` is what that file held, and
        `part` what the first try put there in vain. */
    method WriteRecord(record: Bytes, m: Moment) returns (ghost base: Bytes, ghost part: Bytes)
      requires Valid() && (failed || active)
      modifies this`files, this`ops, this`appended, this`lost, this`replaced
      modifies this`active, this`size, this`unfinished, this`failing, this`failed
      ensures Valid() && old(ops) <= ops && (failed || active)
      ensures old(failed) ==> failed && files == old(files)
      ensures !failed ==> appended == old(appended) + Repaired(part) + (Written(record) + [NEWLINE])
      ensures !failed ==>
        && part <= Written(record) + [NEWLINE]
        && files[Active] == base + Repaired(part) + (Written(record) + [NEWLINE])
        && (base == [] || (Active in old(files) && base == old(files)[Active]))
      ensures !failed ==> EndsALine(files[Active])
      ensures SeesAll(m.watch) && replaced ==> old(replaced)
      ensures !failed && !old(unfinished) && |At(old(files), Active)| + |Written(record)| + 1 <= MAX_FILE_BYTES ==>
        Active in old(files) && base == old(files)[Active]
      ensures Quiet(m.watch) && !old(failed) && Rests(old(files), old(unfinished), old(failing), old(active)) ==>
        && !failed && part == [] && Rests(files, unfinished, failing, active)
        && (WithinBound(old(files)) ==> WithinBound(files))
      ensures failed && !old(failed) ==>
        || Persists(old(failing), m) || !m.watch(OpenAfterRotate).Done?
        || (!m.watch(FirstWrite).Done?
            && !(m.watch(OpenForRetry).Done? && m.watch(NewlineWrite).Done? && m.watch(SecondWrite).Done?))
    {
      base, part := [], [];
      if failed { return; }
      var line := (if |record| + 1 > MAX_RECORD_BYTES then diagnostic(|record|) else record) + [NEWLINE];
      var ok := RotateIfDue(|line|, m);
      if !ok {
        failed, active := true, false;
        return;
      }
      base := files[Active];
      ok, part := WriteLine(line, m);
      if !ok {
        failed, active := true, false;
      }
    }

    /** The bytes of a record: its own, or the diagnostic's. */
    function Written(record: Bytes): Bytes {
      if |record| + 1 > MAX_RECORD_BYTES then diagnostic(|record|) else record
    }

    /** The line, or the line again after the end of its failed first part. */
    method WriteLine(line: Bytes, m: Moment) returns (ok: bool, ghost part: Bytes)
      requires Valid() && active && line != []
      modifies this`files, this`ops, this`appended, this`lost, this`replaced, this`active, this`size
      ensures Sound() && old(ops) <= ops && replaced == old(replaced)
      ensures ok ==> appended == old(appended) + Repaired(part) + line
      ensures ok ==>
        && Valid() && active && part <= line
        && files == old(files)[Active := old(files)[Active] + Repaired(part) + line]
      ensures m.watch(FirstWrite).Done? ==> ok && part == []
      ensures m.watch(OpenForRetry).Done? && m.watch(NewlineWrite).Done? && m.watch(SecondWrite).Done? ==> ok
    {
      ghost var base := files[Active];
      part := [];
      ok := AppendRaw(line, m.watch(FirstWrite));
      if ok {
        size := size + |line|;
        Empty(base);
        Empty(old(appended));
      } else {
        ghost var n :| 0 <= n <= |line| && files == old(files)[Active := base + line[..n]]
                       && appended == old(appended) + line[..n];
        part := line[..n];
        ok := Retry(line, m, base, part, old(appended));
      }
    }

    /** The reopened file, longer than it was tracked exactly when a part was left. */
    method Retry(line: Bytes, m: Moment, ghost base: Bytes, ghost part: Bytes, ghost before: Bytes) returns (ok: bool)
      requires Sound() && Active in files && files[Active] == base + part && size == |base|
      requires appended == before + part
      modifies this`files, this`ops, this`appended, this`lost, this`replaced, this`active, this`size
      ensures Sound() && old(ops) <= ops && replaced == old(replaced)
      ensures ok ==> appended == before + Repaired(part) + line
      ensures ok ==> Valid() && active && files == old(files)[Active := base + Repaired(part) + line]
      ensures m.watch(OpenForRetry).Done? && m.watch(NewlineWrite).Done? && m.watch(SecondWrite).Done? ==> ok
    {
      var tracked := size;
      ok := Reopen(m.watch(OpenForRetry));
      if !ok { return; }
      if size > tracked {
        ok := AppendRaw([NEWLINE], m.watch(NewlineWrite));
        if !ok { return; }
        size := size + 1;
      }
      Assoc(base, part, [NEWLINE]);
      Assoc(before, part, [NEWLINE]);
      ok := AppendRaw(line, m.watch(SecondWrite));
      if !ok { return; }
      size := size + |line|;
    }

    // ---------------------------------------------------------------- framing

    method Take(bytes: Bytes)
      requires Framed() && IsPlain(bytes)
      modifies this`pending, this`discarding, this`lineLen, this`received
      ensures Framed() && received == old(received) + bytes
    {
      FrameAfterPlain(received, Frame(handed, pending, discarding, lineLen), bytes);
      received := received + bytes;
      lineLen := lineLen + |bytes|;
      if discarding { return; }
      if |pending| + |bytes| + 1 > MAX_RECORD_BYTES {
        discarding, pending := true, [];
      } else {
        pending := pending + bytes;
      }
    }

    method EndLine(m: Moment)
      requires Valid() && (failed || active) && Framed() && Kept()
      modifies this
      ensures Valid() && (failed || active) && Kept() && Whole()
      ensures Framed() && received == old(received) + [NEWLINE]
      ensures SeesAll(m.watch) && replaced ==> old(replaced)
      ensures old(Health()).AtRest? && Quiet(m.watch) ==> Health().AtRest?
    {
      FrameAfterNewline(received, Frame(handed, pending, discarding, lineLen));
      HandOn(if discarding then Oversized(lineLen) else Line(pending), m);
      Forget();
    }

    /** The line is over. */
    method Forget()
      modifies this`pending, this`discarding, this`lineLen, this`received
      ensures pending == [] && !discarding && lineLen == 0 && received == old(received) + [NEWLINE]
    {
      pending, discarding, lineLen := [], false, 0;
      received := received + [NEWLINE];
    }

    /** A record is handed on as its bytes, or as the diagnostic of its length; it is
        appended as a line, after the end of whatever a failed first write left. */
    method HandOn(record: Record, m: Moment)
      requires Valid() && (failed || active) && Kept()
      requires record.Line? ==> |record.bytes| + 1 <= MAX_RECORD_BYTES
      modifies this`files, this`ops, this`appended, this`lost, this`replaced
      modifies this`active, this`size, this`unfinished, this`failing
      modifies this`failed, this`handed, this`parts
      ensures Valid() && (failed || active) && Kept() && Whole()
      ensures handed == old(handed) + [record] && old(parts) <= parts
      ensures SeesAll(m.watch) && replaced ==> old(replaced)
      ensures old(Health()).AtRest? && Quiet(m.watch) ==> Health().AtRest?
    {
      ghost var before, text := appended, Text(record, diagnostic);
      ghost var base, part := WriteRecord(if record.Line? then record.bytes else diagnostic(record.len), m);
      OneMore(before, handed, parts, record, part, diagnostic);
      handed, parts := handed + [record], parts + [part];
    }

    /** What is handed on is a function of the stream, not of the writes it came in. */
    method Write(buf: Bytes, moments: nat -> Moment)
      requires Valid() && (failed || active) && Framed() && Kept()
      modifies this
      ensures Valid() && (failed || active) && Kept()
      ensures received == old(received) + buf
      ensures Framed()
      ensures old(Whole()) ==> Whole()
      ensures (forall n :: SeesAll(moments(n).watch)) && replaced ==> old(replaced)
      ensures old(Health()).AtRest? && AllQuiet(moments) ==> Health().AtRest?
    {
      var done, count, more := 0, 0, true;
      Empty(received);
      while more
        invariant 0 <= done <= |buf| && (!more ==> done == |buf|)
        invariant Valid() && (failed || active) && Framed() && Kept()
        invariant old(Whole()) ==> Whole()
        invariant received == old(received) + buf[..done]
        invariant (forall n :: SeesAll(moments(n).watch)) && replaced ==> old(replaced)
        invariant old(Health()).AtRest? && AllQuiet(moments) ==> Health().AtRest?
        decreases more, |buf| - done
      {
        var next;
        next, more := TakeLine(buf, done, moments(count));
        TakenSoFar(old(received), buf, done, next);
        done, count := next, count + 1;
      }
    }

    /** The rest of `buf` up to its next newline, and the record that ends there. */
    method TakeLine(buf: Bytes, from: nat, m: Moment) returns (next: nat, more: bool)
      requires Valid() && (failed || active) && Framed() && Kept() && from <= |buf|
      modifies this
      ensures Valid() && (failed || active) && Framed() && Kept()
      ensures more || old(Whole()) ==> Whole()
      ensures from <= next <= |buf| && received == old(received) + buf[from..next]
      ensures if more then from < next else next == |buf|
      ensures SeesAll(m.watch) && replaced ==> old(replaced)
      ensures old(Health()).AtRest? && Quiet(m.watch) ==> Health().AtRest?
    {
      next := Position(buf, from);
      Take(buf[from..next]);
      more := next < |buf|;
      if more {
        EndLine(m);
        LineTaken(old(received), buf, from, next);
        next := next + 1;
      }
    }

    /** The stream in chunks. */
    method WriteAll(chunks: seq<Bytes>, moments: (nat, nat) -> Moment)
      requires Valid() && (failed || active) && Framed() && Kept() && received == []
      modifies this
      ensures Valid() && (failed || active) && Framed() && Kept() && received == Concatenated(chunks)
      ensures old(Whole()) ==> Whole()
      ensures handed == RecordsOf(Lines(Concatenated(chunks)))
      ensures (forall i, n :: SeesAll(moments(i, n).watch)) && replaced ==> old(replaced)
      ensures old(Health()).AtRest? && (forall i, n :: Quiet(moments(i, n).watch)) ==> Health().AtRest?
    {
      for i := 0 to |chunks|
        invariant Valid() && (failed || active) && Framed() && Kept()
        invariant old(Whole()) ==> Whole()
        invariant (forall i, n :: SeesAll(moments(i, n).watch)) && replaced ==> old(replaced)
        invariant old(Health()).AtRest? && (forall i, n :: Quiet(moments(i, n).watch)) ==> Health().AtRest?
        invariant received == Concatenated(chunks[..i])
      {
        assert chunks[..i + 1][..i] == chunks[..i];
        Write(chunks[i], (n: nat) => moments(i, n));
      }
      assert chunks[..|chunks|] == chunks;
      FrameMeans(received);
    }
  }

  function Concatenated(chunks: seq<Bytes>): Bytes {
    if chunks == [] then [] else Concatenated(chunks[..|chunks| - 1]) + chunks[|chunks| - 1]
  }

  lemma TakenSoFar(before: Bytes, buf: Bytes, done: nat, end: nat)
    requires done <= end <= |buf|
    ensures before + buf[..done] + buf[done..end] == before + buf[..end]
    ensures end == |buf| ==> buf[..end] == buf
  {
  }

  lemma LineTaken(before: Bytes, buf: Bytes, from: nat, end: nat)
    requires from <= end < |buf| && buf[end] == NEWLINE
    ensures before + buf[from..end] + [NEWLINE] == before + buf[from..end + 1]
  {
  }

  /** The next newline from `from` on, or the end. */
  method Position(buf: Bytes, from: nat) returns (end: nat)
    requires from <= |buf|
    ensures from <= end <= |buf| && IsPlain(buf[from..end])
    ensures end < |buf| ==> buf[end] == NEWLINE
  {
    end := from;
    while end < |buf| && buf[end] != NEWLINE
      invariant from <= end <= |buf| && IsPlain(buf[from..end])
    {
      end := end + 1;
    }
  }

  /** The bytes of a record's line, without its newline. */
  function Text(record: Record, diagnostic: Diagnostic): Bytes {
    if record.Line? then record.bytes else diagnostic(record.len)
  }

  /** The lines of the records, one after the other. */
  function Texts(records: seq<Record>, diagnostic: Diagnostic): Bytes
    decreases |records|, 1
  {
    if records == [] then [] else TextsUpToLast(records, diagnostic)
  }

  function TextsUpToLast(records: seq<Record>, diagnostic: Diagnostic): Bytes
    requires records != []
    decreases |records|, 0
  {
    Texts(records[..|records| - 1], diagnostic) + (Text(records[|records| - 1], diagnostic) + [NEWLINE])
  }

  /** The lines of the records, each after the ended part of its first write. */
  function Entries(records: seq<Record>, parts: seq<Bytes>, diagnostic: Diagnostic): Bytes
    requires |records| == |parts|
    decreases |records|, 1
  {
    if records == [] then [] else EntriesUpToLast(records, parts, diagnostic)
  }

  function EntriesUpToLast(records: seq<Record>, parts: seq<Bytes>, diagnostic: Diagnostic): Bytes
    requires |records| == |parts| > 0
    decreases |records|, 0
  {
    var n := |records| - 1;
    Entries(records[..n], parts[..n], diagnostic) + (Repaired(parts[n]) + (Text(records[n], diagnostic) + [NEWLINE]))
  }

  lemma OneEntryMore(records: seq<Record>, parts: seq<Bytes>, record: Record, part: Bytes, diagnostic: Diagnostic)
    requires |records| == |parts|
    ensures Entries(records + [record], parts + [part], diagnostic)
         == Entries(records, parts, diagnostic) + (Repaired(part) + (Text(record, diagnostic) + [NEWLINE]))
  {
    var all, left := records + [record], parts + [part];
    assert all[..|records|] == records && left[..|parts|] == parts;
    assert Entries(all, left, diagnostic) == EntriesUpToLast(all, left, diagnostic);
  }

  /** One record more, in what was appended. */
  lemma OneMore(before: Bytes, handed: seq<Record>, parts: seq<Bytes>, record: Record, part: Bytes, diagnostic: Diagnostic)
    ensures var after := before + Repaired(part) + (Text(record, diagnostic) + [NEWLINE]);
            && (|parts| == |handed| && before == Entries(handed, parts, diagnostic) ==>
                  after == Entries(handed + [record], parts + [part], diagnostic))
            && (part == [] && before == Texts(handed, diagnostic) ==> after == Texts(handed + [record], diagnostic))
  {
    var line := Text(record, diagnostic) + [NEWLINE];
    if |parts| == |handed| {
      OneEntryMore(handed, parts, record, part, diagnostic);
    }
    OneTextMore(handed, record, diagnostic);
    Assoc(before, Repaired(part), line);
    Empty(before);
  }

  lemma OneTextMore(records: seq<Record>, record: Record, diagnostic: Diagnostic)
    ensures Texts(records + [record], diagnostic) == Texts(records, diagnostic) + (Text(record, diagnostic) + [NEWLINE])
  {
    assert (records + [record])[..|records|] == records;
    assert Texts(records + [record], diagnostic) == TextsUpToLast(records + [record], diagnostic);
  }

  /** What a failed write left is ended by a newline. */
  function Repaired(part: Bytes): Bytes {
    if part == [] then [] else part + [NEWLINE]
  }

  /** The active file is the same, or a new one. */
  predicate GoesOn(was: Files, files: Files) {
    Active in files ==> files[Active] == [] || (Active in was && files[Active] == was[Active])
  }

  lemma TailOfEnded(s: Bytes)
    ensures EndsALine(s) <==> Tail(s) == []
  {
  }

  /** A record is a line of its own exactly on a file that ends a line, or after the
      ended part of a failed first write; and the file ends a line again. */
  lemma RecordIsALine(base: Bytes, part: Bytes, line: Bytes)
    requires IsPlain(line)
    ensures var content := base + Repaired(part) + (line + [NEWLINE]);
            && (Lines(content) == Lines(base + Repaired(part)) + [line] <==> EndsALine(base) || part != [])
            && EndsALine(content)
  {
    var before := base + Repaired(part);
    var last := Tail(before) + line;
    TailOfEnded(before);
    AppendPlain(before, line);
    Assoc(before, line, [NEWLINE]);
    AppendNewline(before + line);
    assert EndsALine(before) <==> EndsALine(base) || part != [];
    Empty(line);
    assert last == line <==> Tail(before) == [];
    var lines := Lines(before);
    assert (lines + [last])[|lines|] == last && (lines + [line])[|lines|] == line;
  }

  /** A log with nothing failed and nothing left to finish. */
  predicate Rests(files: Files, unfinished: bool, failing: Option<(int, int)>, active: bool) {
    active && Active in files && Rotating !in files && !unfinished && failing.None?
  }

  const QUIET: Moment := Moment(0, _ => Done)

  /** A directory whose log was cut off in a write. */
  method CutOff() returns (files: Files)
    ensures Active in files && files[Active] == [0x41] && Rotating !in files
  {
    var log := new Log(map[], 60_000, n => [], QUIET.watch);
    var ok := log.Reopen(Done);
    log.Do(Append([0x41]));
    files := log.files;
    Empty<byte>([0x41]);
  }

  /** A write cut off by a crash, and the next start's record: the two are one line. */
  method JoinedLines() returns (log: Log)
    ensures log.Valid() && !log.failed && Active in log.files && Active in log.start
    ensures !EndsALine(log.start[Active])
    ensures Lines(log.files[Active]) == [[0x41, 0x42]]
  {
    var files := CutOff();
    log := new Log(files, 60_000, n => [], QUIET.watch);
    var ok := log.Open(QUIET.watch);
    ghost var base, part := log.WriteRecord([0x42], QUIET);
    JoinedIsOneLine();
  }

  /** A full log beside an archive that cannot be inspected: its rotation replaces it. */
  method ReplacedArchive() returns (log: Log)
    ensures log.Valid() && log.active && Archive(1) in log.start && log.replaced
  {
    var full := seq(MAX_FILE_BYTES, i => 0x41);
    var watch: Point -> Fate := p => if p == See(Archive(1)) then Fails(0) else Done;
    log := new Log(map[Active := full, Archive(1) := [0x42, NEWLINE]], 60_000, n => [], watch);
    assert At(log.files, Active) == full;
    assert Archive(1) in log.files && !Sees(log.files, Archive(1), watch);
    var ok := log.Open(watch);
  }

  lemma JoinedIsOneLine()
    ensures Lines([0x41] + [] + ([0x42] + [NEWLINE])) == [[0x41, 0x42]]
  {
    AppendPlain([], [0x41, 0x42]);
    AppendNewline([0x41, 0x42]);
    assert [] + [0x41, 0x42] == [0x41, 0x42];
    assert [0x41] + [] + ([0x42] + [NEWLINE]) == [0x41, 0x42] + [NEWLINE];
  }
}
