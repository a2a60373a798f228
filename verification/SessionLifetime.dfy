/**
 A session's lifetime: `createSession`, `resolveSession` and the revocations over
 Redis entries that end at an instant, against a plain specification over the
 history of issues, uses and revocations. Times are milliseconds of one clock,
 the service's and Redis's.
 */
module SessionLifetime {
  import opened Common

  type Token = string

  datatype Info = Info(user: string, org: string, role: string, csrf: string)

  /** A stored entry; `Unreadable` is not a JSON object, `Undated` has no readable
      `issued_at`. */
  datatype Raw = Entry(info: Info, issuedAt: int, lastSeen: int) | Undated(info: Info) | Unreadable

  datatype Stored = Stored(raw: Raw, endsAt: int)

  /** The idle lifetime and the cap a configuration sets. */
  datatype Lifetimes = Lifetimes(idleMs: int, capMs: int)

  function Min(a: int, b: int): int {
    if a < b then a else b
  }

  // --------------------------------------------------------- the specification

  datatype Op =
    | Issue(token: Token, info: Info, at: int)
    | Use(token: Token, at: int)
    | Revoke(token: Token)
    | RevokeAll(user: string)

  /** What a history makes of a token. */
  datatype Life = Life(info: Info, issuedAt: int, lastUse: int)

  predicate IsAlive(life: Life, lifetimes: Lifetimes, at: int) {
    at - life.lastUse < lifetimes.idleMs && at - life.issuedAt < lifetimes.capMs
  }

  /** The token's life after `history`: none before its issue and after its
      revocation; a use of a session that is alive is its last use. */
  function LifeOf(history: seq<Op>, lifetimes: Lifetimes, token: Token): Option<Life> {
    if history == [] then None
    else
      var before := LifeOf(history[..|history| - 1], lifetimes, token);
      match history[|history| - 1]
      case Issue(t, info, at) => if t == token then Some(Life(info, at, at)) else before
      case Use(t, at) =>
        if t == token && before.Some? && IsAlive(before.value, lifetimes, at)
        then Some(before.value.(lastUse := at)) else before
      case Revoke(t) => if t == token then None else before
      case RevokeAll(user) => if before.Some? && before.value.info.user == user then None else before
  }

  lemma LifeAfter(history: seq<Op>, op: Op, lifetimes: Lifetimes, token: Token)
    ensures (history + [op])[..|history|] == history
    ensures LifeOf(history + [op], lifetimes, token) ==
            var before := LifeOf(history, lifetimes, token);
            match op
            case Issue(t, info, at) => if t == token then Some(Life(info, at, at)) else before
            case Use(t, at) =>
              if t == token && before.Some? && IsAlive(before.value, lifetimes, at)
              then Some(before.value.(lastUse := at)) else before
            case Revoke(t) => if t == token then None else before
            case RevokeAll(user) => if before.Some? && before.value.info.user == user then None else before
  {
    assert (history + [op])[..|history|] == history;
  }

  // ------------------------------------------------------------------ the store

  class Sessions {
    var entries: map<Token, Stored>
    /** The latest time seen. */
    var now: int
    const lifetimes: Lifetimes
    ghost var history: seq<Op>

    /** An entry stands exactly for a life that time has not ended yet. */
    ghost predicate Stands(token: Token)
      reads this
    {
      var life := LifeOf(history, lifetimes, token);
      if life.Some? then
        && life.value.issuedAt <= life.value.lastUse <= now
        && (token in entries ==>
              && entries[token].raw == Entry(life.value.info, life.value.issuedAt, life.value.lastUse)
              && Min(life.value.lastUse + lifetimes.idleMs, life.value.issuedAt + lifetimes.capMs)
                 <= entries[token].endsAt <= life.value.lastUse + lifetimes.idleMs)
        && (token !in entries ==> !IsAlive(life.value, lifetimes, now))
      else
        token !in entries
    }

    ghost predicate Valid()
      reads this
    {
      lifetimes.idleMs > 0 && lifetimes.capMs > 0 && forall token :: Stands(token)
    }

    constructor (lifetimes: Lifetimes, start: int)
      requires lifetimes.idleMs > 0 && lifetimes.capMs > 0
      ensures Valid() && history == [] && this.lifetimes == lifetimes && now == start
    {
      entries, now, history := map[], start, [];
      this.lifetimes := lifetimes;
    }

    /** `GET`: an entry past its end is not there. */
    function Get(token: Token, at: int): Option<Raw>
      reads this
    {
      if token in entries && at < entries[token].endsAt then Some(entries[token].raw) else None
    }

    /** A new token, never seen. */
    method Create(token: Token, info: Info, at: int)
      requires Valid() && now <= at && token !in entries
      modifies this
      ensures Valid() && history == old(history) + [Issue(token, info, at)] && now == at
    {
      entries := entries[token := Stored(Entry(info, at, at), at + lifetimes.idleMs)];
      now := at;
      history := history + [Issue(token, info, at)];
      forall t ensures Stands(t) {
        assert old(Stands(t));
        LifeAfter(old(history), Issue(token, info, at), lifetimes, t);
      }
    }

    /** Resolving is a use: it answers exactly when the specification has the
        session alive, and then the session's idle time starts anew. */
    method Resolve(token: Token, at: int) returns (r: Option<Info>)
      requires Valid() && now <= at
      modifies this
      ensures Valid() && history == old(history) + [Use(token, at)] && now == at
      ensures var life := LifeOf(old(history), lifetimes, token);
              && (r.Some? <==> life.Some? && IsAlive(life.value, lifetimes, at))
              && (r.Some? ==> r.value == life.value.info)
    {
      assert Stands(token);
      history := history + [Use(token, at)];
      now := at;
      var raw := Get(token, at);
      if raw.None? {
        r := None;
      } else {
        var left := if raw.value.Entry? then raw.value.issuedAt + lifetimes.capMs - at else 0;
        if left <= 0 {
          entries := entries - {token};
          r := None;
        } else {
          var again := raw.value.(lastSeen := at);
          if token in entries {
            entries := entries[token := Stored(again, at + Min(lifetimes.idleMs, left))];
          }
          r := Some(again.info);
        }
      }
      forall t ensures Stands(t) {
        assert old(Stands(t));
        LifeAfter(old(history), Use(token, at), lifetimes, t);
      }
    }

    method Revoke(token: Token)
      requires Valid()
      modifies this
      ensures Valid() && history == old(history) + [Op.Revoke(token)] && now == old(now)
      ensures token !in entries
    {
      entries := entries - {token};
      history := history + [Op.Revoke(token)];
      forall t ensures Stands(t) {
        assert old(Stands(t));
        LifeAfter(old(history), Op.Revoke(token), lifetimes, t);
      }
    }

    /** The scan of every session, in batches the server chooses. */
    method RevokeAllForUser(user: string, batches: seq<seq<Token>>)
      requires Valid()
      requires forall t | t in entries :: exists i :: 0 <= i < |batches| && t in batches[i]
      modifies this
      ensures Valid() && history == old(history) + [RevokeAll(user)] && now == old(now)
      ensures forall t | t in entries :: !(entries[t].raw.Entry? && entries[t].raw.info.user == user)
    {
      var i := 0;
      while i < |batches|
        invariant 0 <= i <= |batches|
        invariant history == old(history) && now == old(now)
        invariant IsPurged(old(entries), entries, user)
        invariant forall j, t | 0 <= j < i && t in batches[j] && t in entries :: !IsOf(entries[t].raw, user)
      {
        var k := 0;
        while k < |batches[i]|
          invariant 0 <= k <= |batches[i]|
          invariant history == old(history) && now == old(now)
          invariant IsPurged(old(entries), entries, user)
          invariant forall j, t | 0 <= j < i && t in batches[j] && t in entries :: !IsOf(entries[t].raw, user)
          invariant forall m | 0 <= m < k && batches[i][m] in entries :: !IsOf(entries[batches[i][m]].raw, user)
        {
          var key := batches[i][k];
          if key in entries && IsOf(entries[key].raw, user) {
            entries := entries - {key};
          }
          k := k + 1;
        }
        i := i + 1;
      }
      history := history + [RevokeAll(user)];
      forall t ensures Stands(t) {
        assert old(Stands(t));
        LifeAfter(old(history), RevokeAll(user), lifetimes, t);
      }
    }
  }

  predicate IsOf(raw: Raw, user: string) {
    !raw.Unreadable? && raw.info.user == user
  }

  /** Only entries of `user` are gone; the others are as they were. */
  predicate IsPurged(was: map<Token, Stored>, entries: map<Token, Stored>, user: string) {
    && (forall t | t in entries :: t in was && entries[t] == was[t])
    && (forall t | t in was && t !in entries :: IsOf(was[t].raw, user))
  }

  // --------------------------------------------- what the specification amounts to

  predicate Ends(op: Op, token: Token, user: string) {
    op == Op.Revoke(token) || op == RevokeAll(user) || (op.Issue? && op.token == token)
  }

  /** A life is that of the token's last issue, which no revocation followed; its
      last use is the last that found it alive. */
  lemma {:induction false} LifeMeans(history: seq<Op>, lifetimes: Lifetimes, token: Token) returns (i: nat, j: nat)
    requires LifeOf(history, lifetimes, token).Some?
    ensures var life := LifeOf(history, lifetimes, token).value;
            && i <= j < |history|
            && history[i] == Issue(token, life.info, life.issuedAt)
            && (forall k | i < k < |history| :: !Ends(history[k], token, life.info.user))
            && (if i == j then life.lastUse == life.issuedAt else history[j] == Use(token, life.lastUse))
            && (forall k | j < k < |history| && history[k].Use? && history[k].token == token ::
                  !IsAlive(life, lifetimes, history[k].at))
  {
    var n := |history| - 1;
    var op := history[n];
    if op.Issue? && op.token == token {
      i, j := n, n;
    } else {
      i, j := LifeMeans(history[..n], lifetimes, token);
      var before := LifeOf(history[..n], lifetimes, token).value;
      if op.Use? && op.token == token && IsAlive(before, lifetimes, op.at) {
        j := n;
      }
      assert forall k | i < k < n :: history[k] == history[..n][k];
    }
  }

  /** A token is gone for good once it is revoked, unless it is issued again. */
  lemma {:induction false} RevokedIsOver(history: seq<Op>, lifetimes: Lifetimes, token: Token, i: nat)
    requires i < |history| && history[i] == Op.Revoke(token)
    requires forall k | i < k < |history| :: !(history[k].Issue? && history[k].token == token)
    ensures LifeOf(history, lifetimes, token).None?
  {
    var n := |history| - 1;
    if i < n {
      RevokedIsOver(history[..n], lifetimes, token, i);
    }
  }

  // -------------------------------------------------- reads and rewrites interleaved

  /** A use that has taken the time, and one that has read its entry too and is to
      rewrite it. */
  datatype Pending = Taken(token: Token, at: int) | Read(token: Token, raw: Raw, at: int)

  datatype State = State(entries: map<Token, Stored>, now: int, issued: map<Token, int>, uses: map<nat, Pending>)

  datatype Step =
    | StepIssue(token: Token, info: Info)
    | StepClock(use: nat, token: Token)  // the time a use goes by,
    | StepGet(use: nat)                  // then its `GET`, of a session within its cap at that time,
    | StepSet(use: nat)                  // then the rewrite, `XX`, and the answer
    | StepDelete(token: Token)           // a revocation, or a use past the cap
    | StepTick(ms: nat)

  /** The use's `GET` finds its entry there, and within its cap at the time it took. */
  predicate Finds(s: State, use: nat, lifetimes: Lifetimes) {
    && use in s.uses && s.uses[use].Taken? && s.uses[use].token in s.entries
    && (var e := s.entries[s.uses[use].token];
        s.now < e.endsAt && e.raw.Entry? && e.raw.issuedAt + lifetimes.capMs - s.uses[use].at > 0)
  }

  function Next(s: State, step: Step, lifetimes: Lifetimes): Option<State> {
    match step
    case StepIssue(t, info) =>
      if t in s.issued then None
      else Some(s.(issued := s.issued[t := s.now],
                   entries := s.entries[t := Stored(Entry(info, s.now, s.now), s.now + lifetimes.idleMs)]))
    case StepClock(x, t) =>
      if x !in s.uses then Some(s.(uses := s.uses[x := Taken(t, s.now)])) else None
    case StepGet(x) =>
      if Finds(s, x, lifetimes) then
        var p := s.uses[x];
        Some(s.(uses := s.uses[x := Read(p.token, s.entries[p.token].raw, p.at)]))
      else None
    case StepSet(x) =>
      if Answers(s, x) then
        var p := s.uses[x];
        var again := Stored(p.raw.(lastSeen := p.at), s.now + Min(lifetimes.idleMs, Left(p, lifetimes)));
        var there := p.token in s.entries && s.now < s.entries[p.token].endsAt;
        Some(s.(entries := if there then s.entries[p.token := again] else s.entries, uses := s.uses - {x}))
      else None
    case StepDelete(t) => Some(s.(entries := s.entries - {t}))
    case StepTick(ms) => Some(s.(now := s.now + ms))
  }

  /** What is left of the cap at the time the use took. */
  function Left(p: Pending, lifetimes: Lifetimes): int
    requires p.Read? && p.raw.Entry?
  {
    p.raw.issuedAt + lifetimes.capMs - p.at
  }

  /** The use has only its rewrite to make, and answers whatever that finds. */
  predicate Answers(s: State, use: nat) {
    use in s.uses && s.uses[use].Read? && s.uses[use].raw.Entry?
  }

  ghost predicate IsRun(steps: seq<Step>, states: seq<State>, lifetimes: Lifetimes) {
    && |states| == |steps| + 1 && states[0].entries == map[] && states[0].issued == map[] && states[0].uses == map[]
    && forall i {:trigger steps[i]} | 0 <= i < |steps| :: Next(states[i], steps[i], lifetimes) == Some(states[i + 1])
  }

  /** `issued_at` never changes, and no use is ahead of the clock. */
  ghost predicate IssuedStays(s: State) {
    && (forall t | t in s.entries ::
          t in s.issued && s.entries[t].raw.Entry? && s.entries[t].raw.issuedAt == s.issued[t])
    && (forall x | x in s.uses && s.uses[x].Read? ::
          s.uses[x].token in s.issued && s.uses[x].raw.Entry? && s.uses[x].raw.issuedAt == s.issued[s.uses[x].token])
    && (forall x | x in s.uses :: s.uses[x].at <= s.now)
  }

  lemma {:induction false} IssuedStaysAt(steps: seq<Step>, states: seq<State>, lifetimes: Lifetimes, i: nat)
    requires IsRun(steps, states, lifetimes) && i < |states|
    ensures IssuedStays(states[i])
  {
    if i > 0 {
      IssuedStaysAt(steps, states, lifetimes, i - 1);
      var step := steps[i - 1];
    }
  }

  lemma {:induction false} IssueTimeStays(steps: seq<Step>, states: seq<State>, lifetimes: Lifetimes, i: nat, j: nat, t: Token)
    requires IsRun(steps, states, lifetimes) && i <= j < |states| && t in states[i].issued
    ensures t in states[j].issued && states[j].issued[t] == states[i].issued[t]
    ensures t !in states[i].entries ==> t !in states[j].entries
    decreases j
  {
    if i < j {
      IssueTimeStays(steps, states, lifetimes, i, j - 1, t);
      var step := steps[j - 1];
    }
  }

  /** The `GET` of the use that is to answer at `j` was step `g`. */
  predicate IsReadAt(steps: seq<Step>, g: nat, j: nat, x: nat) {
    g < j <= |steps| && steps[g] == StepGet(x) && forall k | g < k < j :: steps[k] != StepSet(x)
  }

  lemma {:induction false} AnswerWasRead(steps: seq<Step>, states: seq<State>, lifetimes: Lifetimes, j: nat, x: nat)
    returns (g: nat)
    requires IsRun(steps, states, lifetimes) && j < |states| && Answers(states[j], x)
    ensures IsReadAt(steps, g, j, x) && Finds(states[g], x, lifetimes)
    ensures states[g].uses[x].token == states[j].uses[x].token && states[g].uses[x].at == states[j].uses[x].at
  {
    assert j > 0;
    var step := steps[j - 1];
    if step == StepGet(x) {
      g := j - 1;
    } else {
      g := AnswerWasRead(steps, states, lifetimes, j - 1, x);
    }
  }

  lemma {:induction false} ReadStays(steps: seq<Step>, states: seq<State>, lifetimes: Lifetimes, g: nat, j: nat, x: nat)
    requires IsRun(steps, states, lifetimes) && IsReadAt(steps, g, j, x)
    ensures x in states[g].uses && Answers(states[j], x) && states[j].uses[x].token == states[g].uses[x].token
    decreases j
  {
    if g + 1 == j {
      assert Next(states[g], steps[g], lifetimes) == Some(states[j]);
    } else {
      ReadStays(steps, states, lifetimes, g, j - 1, x);
      var step := steps[j - 1];
      assert step != StepSet(x);
    }
  }

  /** However reads and rewrites interleave, a use that answers took its time within the
      cap of the session's issue: no use that began past the cap answers. */
  lemma CapHolds(steps: seq<Step>, states: seq<State>, lifetimes: Lifetimes, i: nat, j: nat, x: nat)
    requires IsRun(steps, states, lifetimes) && i <= j < |states|
    requires Answers(states[j], x) && states[j].uses[x].token in states[i].issued
    ensures states[j].uses[x].at < states[i].issued[states[j].uses[x].token] + lifetimes.capMs
    ensures states[j].uses[x].at <= states[j].now
  {
    var g := AnswerWasRead(steps, states, lifetimes, j, x);
    IssuedStaysAt(steps, states, lifetimes, g);
    IssuedStaysAt(steps, states, lifetimes, j);
    IssueTimeStays(steps, states, lifetimes, g, j, states[j].uses[x].token);
    IssueTimeStays(steps, states, lifetimes, i, j, states[j].uses[x].token);
  }

  /** However they interleave, no use finds a session after it was revoked. */
  lemma RevokedIsNotFound(steps: seq<Step>, states: seq<State>, lifetimes: Lifetimes, i: nat, j: nat, t: Token, x: nat)
    requires IsRun(steps, states, lifetimes) && i < j < |states|
    requires t in states[i].issued && steps[i] == StepDelete(t)
    ensures x in states[j].uses && states[j].uses[x].token == t ==> !Finds(states[j], x, lifetimes)
  {
    assert Next(states[i], steps[i], lifetimes) == Some(states[i + 1]);
    IssueTimeStays(steps, states, lifetimes, i + 1, j, t);
  }

  /** After its revocation a session is answered from by exactly the uses whose `GET`
      came before it. */
  lemma RevokedAnswers(steps: seq<Step>, states: seq<State>, lifetimes: Lifetimes, i: nat, j: nat, t: Token, x: nat)
    requires IsRun(steps, states, lifetimes) && i < j < |states|
    requires t in states[i].issued && steps[i] == StepDelete(t)
    ensures Answers(states[j], x) && states[j].uses[x].token == t
       <==> exists g | 0 <= g < i :: IsReadAt(steps, g, j, x) && x in states[g].uses && states[g].uses[x].token == t
  {
    if Answers(states[j], x) && states[j].uses[x].token == t {
      var g := AnswerWasRead(steps, states, lifetimes, j, x);
      if g > i {
        RevokedIsNotFound(steps, states, lifetimes, i, g, t, x);
      }
    }
    forall g | 0 <= g < i && IsReadAt(steps, g, j, x) && x in states[g].uses && states[g].uses[x].token == t
      ensures Answers(states[j], x) && states[j].uses[x].token == t
    {
      ReadStays(steps, states, lifetimes, g, j, x);
    }
  }

  /** A rewrite gives an entry an end past its cap exactly when it comes later, after the
      time its use took, than the idle lifetime leaves of the cap. */
  lemma RewriteOutlivesTheCap(s: State, x: nat, lifetimes: Lifetimes, t: State)
    requires Next(s, StepSet(x), lifetimes) == Some(t) && IssuedStays(s)
    requires s.uses[x].token in s.entries && s.now < s.entries[s.uses[x].token].endsAt
    ensures var p := s.uses[x];
            t.entries[p.token].endsAt > s.issued[p.token] + lifetimes.capMs
            <==> s.now - p.at > Left(p, lifetimes) - Min(lifetimes.idleMs, Left(p, lifetimes))
  {
  }

  lemma OneMore(steps: seq<Step>, states: seq<State>, lifetimes: Lifetimes, step: Step, t: State)
    returns (all: seq<Step>, longer: seq<State>)
    requires IsRun(steps, states, lifetimes) && Next(states[|steps|], step, lifetimes) == Some(t)
    ensures IsRun(all, longer, lifetimes) && all == steps + [step] && longer == states + [t]
  {
    all, longer := steps + [step], states + [t];
    forall i {:trigger all[i]} | 0 <= i < |all| ensures Next(longer[i], all[i], lifetimes) == Some(longer[i + 1]) {
      if i < |steps| {
        assert all[i] == steps[i];
      }
    }
  }

  /** 8 hours idle and 24 in all, unless a configuration sets less. */
  const HOUR: nat := 60 * 60 * 1000
  const DEFAULT_LIFETIMES := Lifetimes(8 * HOUR, 24 * HOUR)

  /** A use `ms` from now, and its rewrite `late` after the time it took. */
  lemma Used(
      steps: seq<Step>, states: seq<State>, lifetimes: Lifetimes, x: nat, token: Token, ms: nat, late: nat)
    returns (more: seq<Step>, later: seq<State>)
    requires IsRun(steps, states, lifetimes)
    requires var s := states[|steps|];
             && x !in s.uses && token in s.entries && s.entries[token].raw.Entry?
             && s.now + ms + late < s.entries[token].endsAt
             && s.now + ms < s.entries[token].raw.issuedAt + lifetimes.capMs
    ensures IsRun(more, later, lifetimes)
    ensures var s, t := states[|steps|], later[|more|];
            && t.now == s.now + ms + late && t.uses == s.uses && t.issued == s.issued
            && token in t.entries
            && t.entries[token] ==
               Stored(s.entries[token].raw.(lastSeen := s.now + ms),
                      t.now + Min(lifetimes.idleMs, s.entries[token].raw.issuedAt + lifetimes.capMs - s.now - ms))
  {
    ghost var first := states[|steps|];
    var at := first.now + ms;
    var s := first.(now := at);
    more, later := OneMore(steps, states, lifetimes, StepTick(ms), s);
    s := s.(uses := s.uses[x := Taken(token, at)]);
    more, later := OneMore(more, later, lifetimes, StepClock(x, token), s);
    s := s.(uses := s.uses[x := Read(token, s.entries[token].raw, at)]);
    more, later := OneMore(more, later, lifetimes, StepGet(x), s);
    s := s.(now := at + late);
    more, later := OneMore(more, later, lifetimes, StepTick(late), s);
    var t := Next(s, StepSet(x), lifetimes).value;
    assert t.uses == first.uses;
    more, later := OneMore(more, later, lifetimes, StepSet(x), t);
  }

  /** A session under the default lifetimes, used after 7, 14 and 20 hours, the last time
      with a rewrite 1 ms late: its entry is still there at its cap. */
  lemma EntryPastItsCap() returns (steps: seq<Step>, states: seq<State>)
    ensures IsRun(steps, states, DEFAULT_LIFETIMES)
    ensures var s := states[|steps|];
            && "t" in s.entries && s.now < s.entries["t"].endsAt
            && "t" in s.issued && s.now == s.issued["t"] + DEFAULT_LIFETIMES.capMs
  {
    var s := State(map[], 0, map[], map[]);
    steps, states := [], [s];
    s := Next(s, StepIssue("t", Info("", "", "", "")), DEFAULT_LIFETIMES).value;
    steps, states := OneMore(steps, states, DEFAULT_LIFETIMES, StepIssue("t", Info("", "", "", "")), s);
    steps, states := Used(steps, states, DEFAULT_LIFETIMES, 0, "t", 7 * HOUR, 0);
    steps, states := Used(steps, states, DEFAULT_LIFETIMES, 0, "t", 7 * HOUR, 0);
    steps, states := Used(steps, states, DEFAULT_LIFETIMES, 0, "t", 6 * HOUR, 1);
    s := states[|steps|];
    steps, states := OneMore(steps, states, DEFAULT_LIFETIMES, StepTick(4 * HOUR - 1), s.(now := 24 * HOUR));
  }

  /** A use reads, its session is revoked, and it is still to answer. */
  lemma AnswerAfterRevocation() returns (steps: seq<Step>, states: seq<State>)
    ensures IsRun(steps, states, DEFAULT_LIFETIMES) && |steps| == 4
    ensures steps[3] == StepDelete("t") && "t" in states[3].issued
    ensures Answers(states[4], 0) && states[4].uses[0].token == "t"
  {
    var s := State(map[], 0, map[], map[]);
    steps, states := [], [s];
    s := Next(s, StepIssue("t", Info("", "", "", "")), DEFAULT_LIFETIMES).value;
    steps, states := OneMore(steps, states, DEFAULT_LIFETIMES, StepIssue("t", Info("", "", "", "")), s);
    s := s.(uses := s.uses[0 := Taken("t", 0)]);
    steps, states := OneMore(steps, states, DEFAULT_LIFETIMES, StepClock(0, "t"), s);
    s := s.(uses := s.uses[0 := Read("t", s.entries["t"].raw, 0)]);
    steps, states := OneMore(steps, states, DEFAULT_LIFETIMES, StepGet(0), s);
    s := s.(entries := s.entries - {"t"});
    steps, states := OneMore(steps, states, DEFAULT_LIFETIMES, StepDelete("t"), s);
  }
}
