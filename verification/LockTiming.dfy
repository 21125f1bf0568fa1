/** Lock and Unlock of storage.go on one lock name, as a timed transition system over any
    number of callers in any number of processes.  The lock service keeps one entry, guarded
    by a token, that expires five seconds after it was set or refreshed; a refresh loop extends
    it every three seconds.  Each process keeps the handle of its lock under the lock's name,
    and Unlock takes whatever handle it finds there.  Time is in seconds. */
module LockTiming {
  import opened Common

  /** The Redis key of the lock; it is there while the clock is below `expires`. */
  datatype Entry = Entry(token: nat, expires: real)

  /** Where one caller stands.
      - Granted: the server set the entry at `at`, the answer is on its way;
      - Inside: Lock has returned, Unlock was not called yet;
      - Releasing: Unlock has taken a handle, its release is on its way. */
  datatype Caller =
    | Idle
    | Granted(token: nat, at: real)
    | Inside(token: nat)
    | Releasing(token: nat)

  /** The refresh loop of a handle: the next refresh is due at `due`; `failed` says that the
      one before it had no effect and the loop does not know. */
  datatype Loop = Loop(due: real, failed: bool, home: nat)

  /** `home[i]` is the process of caller i; `handles` is the table of each process, by its
      number; `loops` are the running refresh loops by token; `flying` are refreshes sent by
      loops that have ended, with the time until which they can take effect. */
  datatype Sys = Sys(
    now: real, entry: Option<Entry>, callers: seq<Caller>, home: seq<nat>, handles: map<nat, nat>,
    loops: map<nat, Loop>, flying: map<nat, real>, used: set<nat>)

  datatype Action =
    | Wait(time: real)
    | Obtain(caller: nat, token: nat)
    | Return(caller: nat)
    | Refresh(token: nat)
    | FailRefresh(token: nat)       // the command did not reach the server
    | LostAnswer(token: nat)        // it did, but its answer got lost
    | EndRefreshing(token: nat)     // the client was closed under the loop
    | LateRefresh(token: nat)
    | Unlock(caller: nat)
    | Release(caller: nat)
    | FailRelease(caller: nat)
    | Crash(process: nat)

  /** Bounds on the time from the server's grant to the return of Lock, and from the tick
      of the refresh timer to the refresh on the server. */
  datatype Lags = Lags(obtain: real, refresh: real)

  predicate Live(s: Sys) {
    s.entry.Some? && s.now < s.entry.value.expires
  }

  predicate Owns(s: Sys, token: nat) {
    Live(s) && s.entry.value.token == token
  }

  /** Nobody is late: time may pass up to `now`. */
  ghost predicate InTime(lags: Lags, s: Sys, now: real) {
    && (forall i :: 0 <= i < |s.callers| && s.callers[i].Granted? ==> now <= s.callers[i].at + lags.obtain)
    && (forall t :: t in s.loops ==> now <= s.loops[t].due + lags.refresh)
  }

  predicate Due(s: Sys, token: nat) {
    token in s.loops && s.now >= s.loops[token].due
  }

  /** The failures of a refresh are faults. */
  ghost predicate Enabled(lags: Lags, faults: bool, s: Sys, a: Action) {
    match a
    case Wait(time) => time >= 0.0 && InTime(lags, s, s.now + time)
    case Obtain(i, token) => i < |s.callers| && s.callers[i].Idle? && token !in s.used
    case Return(i) => i < |s.callers| && s.callers[i].Granted?
    case Refresh(token) => Due(s, token)
    case FailRefresh(token) => faults && Due(s, token)
    case LostAnswer(token) => faults && Due(s, token)
    case EndRefreshing(token) => faults && Due(s, token)
    case LateRefresh(token) => token in s.flying && s.now <= s.flying[token]
    case Unlock(i) => i < |s.callers| && s.callers[i].Inside?
    case Release(i) => i < |s.callers| && s.callers[i].Releasing?
    case FailRelease(i) => i < |s.callers| && s.callers[i].Releasing?
    case Crash(_) => true
  }

  /** The entry after a refresh with this token. */
  function Extended(s: Sys, token: nat): Option<Entry> {
    if Owns(s, token) then Some(Entry(token, s.now + 5.0)) else s.entry
  }

  /** The refreshes still on their way when the loops of the given tokens end. */
  function StillFlying(lags: Lags, s: Sys, tokens: set<nat>): map<nat, real> {
    map t | t in s.flying.Keys + s.loops.Keys && (t in s.flying || (t in tokens && Due(s, t))) ::
      if t in s.flying then s.flying[t] else s.loops[t].due + lags.refresh
  }

  function EndLoops(lags: Lags, s: Sys, tokens: set<nat>): Sys {
    s.(loops := s.loops - tokens, flying := StillFlying(lags, s, tokens))
  }

  function SetCaller(s: Sys, i: nat, c: Caller): Sys
    requires i < |s.callers|
  {
    s.(callers := s.callers[i := c])
  }

  function TokensOf(s: Sys, process: nat): set<nat> {
    set t | t in s.loops && s.loops[t].home == process
  }

  /** LoadAndDelete on the table of the caller's process, whoever put the handle there. */
  function DoUnlock(lags: Lags, s: Sys, i: nat): Sys
    requires i < |s.callers| && |s.home| == |s.callers|
  {
    var p := s.home[i];
    if p in s.handles then
      SetCaller(EndLoops(lags, s, {s.handles[p]}), i, Releasing(s.handles[p])).(handles := s.handles - {p})
    else SetCaller(s, i, Idle)
  }

  function DoCrash(lags: Lags, s: Sys, p: nat): Sys
    requires |s.home| == |s.callers|
  {
    EndLoops(lags, s, TokensOf(s, p)).(
      handles := s.handles - {p},
      callers := seq(|s.callers|, i requires 0 <= i < |s.callers| => if s.home[i] == p then Idle else s.callers[i]))
  }

  ghost function Do(lags: Lags, faults: bool, s: Sys, a: Action): Sys
    requires |s.home| == |s.callers|
  {
    if !Enabled(lags, faults, s, a) then s
    else match a
      case Wait(time) => s.(now := s.now + time)
      case Obtain(i, token) =>
        if Live(s) then s
        else SetCaller(s, i, Granted(token, s.now)).(entry := Some(Entry(token, s.now + 5.0)), used := s.used + {token})
      case Return(i) =>
        var t, p := s.callers[i].token, s.home[i];
        SetCaller(s, i, Inside(t)).(handles := s.handles[p := t], loops := s.loops[t := Loop(s.now + 3.0, false, p)])
      case Refresh(token) =>
        if Owns(s, token) then
          s.(loops := s.loops[token := s.loops[token].(due := s.loops[token].due + 3.0, failed := false)],
             entry := Extended(s, token))
        else s.(loops := s.loops - {token})
      case FailRefresh(token) =>
        s.(loops := s.loops[token := s.loops[token].(due := s.loops[token].due + 3.0, failed := true)])
      case LostAnswer(token) =>
        s.(loops := s.loops[token := s.loops[token].(due := s.loops[token].due + 3.0, failed := !Owns(s, token))],
           entry := Extended(s, token))
      case EndRefreshing(token) => s.(loops := s.loops - {token})
      case LateRefresh(token) => s.(entry := Extended(s, token), flying := s.flying - {token})
      case Unlock(i) => DoUnlock(lags, s, i)
      case Release(i) =>
        SetCaller(s, i, Idle).(entry := if Owns(s, s.callers[i].token) then None else s.entry)
      case FailRelease(i) => SetCaller(s, i, Idle)
      case Crash(p) => DoCrash(lags, s, p)
  }

  ghost predicate Start(s: Sys) {
    && s.entry == None && s.used == {} && s.handles == map[] && s.loops == map[] && s.flying == map[]
    && |s.home| == |s.callers| && forall i :: 0 <= i < |s.callers| ==> s.callers[i] == Idle
  }

  lemma SameHome(lags: Lags, faults: bool, s: Sys, a: Action)
    requires |s.home| == |s.callers|
    ensures var t := Do(lags, faults, s, a); t.home == s.home && |t.callers| == |s.callers|
  {}

  ghost function Run(lags: Lags, faults: bool, s: Sys, actions: seq<Action>): (t: Sys)
    requires |s.home| == |s.callers|
    ensures t.home == s.home && |t.callers| == |s.callers|
  {
    if actions == [] then s
    else
      var before := Run(lags, faults, s, actions[..|actions| - 1]);
      SameHome(lags, faults, before, actions[|actions| - 1]);
      Do(lags, faults, before, actions[|actions| - 1])
  }

  /** Every caller inside has a live entry of its own, and there is one inside at most. */
  ghost predicate Safe(s: Sys) {
    && (forall i :: 0 <= i < |s.callers| && s.callers[i].Inside? ==> Owns(s, s.callers[i].token))
    && (forall i, j :: 0 <= i < j < |s.callers| ==> !(s.callers[i].Inside? && s.callers[j].Inside?))
  }

  // ----- what every run keeps, with or without faults -----

  predicate HasToken(c: Caller) { c.Granted? || c.Inside? }

  ghost predicate TokensKnown(s: Sys) {
    && (s.entry.Some? ==> s.entry.value.token in s.used)
    && (forall i :: 0 <= i < |s.callers| && !s.callers[i].Idle? ==> s.callers[i].token in s.used)
    && (forall t :: t in s.loops || t in s.flying ==> t in s.used)
    && (forall p :: p in s.handles ==> s.handles[p] in s.used)
  }

  ghost predicate TokensDiffer(s: Sys) {
    && (forall i, j :: 0 <= i < j < |s.callers| && HasToken(s.callers[i]) && HasToken(s.callers[j]) ==>
          s.callers[i].token != s.callers[j].token)
    && (forall i :: 0 <= i < |s.callers| && s.callers[i].Granted? ==>
          s.callers[i].token !in s.loops && s.callers[i].token !in s.flying)
    && (forall t :: t in s.loops ==> t !in s.flying)
  }

  /** Upper bounds on how long an entry lives. */
  ghost predicate Fading(lags: Lags, s: Sys) {
    && InTime(lags, s, s.now)
    && (s.entry.Some? ==> s.entry.value.expires <= s.now + 5.0)
    && (forall i :: 0 <= i < |s.callers| && s.callers[i].Granted? ==>
          && s.callers[i].at <= s.now
          && (s.entry.Some? && s.entry.value.token == s.callers[i].token ==>
                s.entry.value.expires <= s.callers[i].at + 5.0))
    && (forall t :: t in s.loops && s.entry.Some? && s.entry.value.token == t ==>
          s.entry.value.expires <= s.loops[t].due + lags.refresh + (if s.loops[t].failed then -1.0 else 2.0))
  }

  ghost predicate Inv(lags: Lags, s: Sys) {
    |s.home| == |s.callers| && TokensKnown(s) && TokensDiffer(s) && Fading(lags, s)
  }

  lemma StepKeepsKnown(lags: Lags, faults: bool, s: Sys, a: Action)
    requires |s.home| == |s.callers| && TokensKnown(s)
    ensures TokensKnown(Do(lags, faults, s, a))
  {}

  /** The actions that take effect in a caller or a loop alone, and those that end loops. */
  predicate EndsLoops(a: Action) { a.Unlock? || a.Crash? }

  predicate MovesCaller(a: Action) { a.Obtain? || a.Return? || a.Release? || a.FailRelease? }

  lemma DifferEnds(lags: Lags, faults: bool, s: Sys, a: Action)
    requires |s.home| == |s.callers| && TokensKnown(s) && TokensDiffer(s) && EndsLoops(a)
    ensures TokensDiffer(Do(lags, faults, s, a))
  {}

  lemma DifferMoves(lags: Lags, faults: bool, s: Sys, a: Action)
    requires |s.home| == |s.callers| && TokensKnown(s) && TokensDiffer(s) && MovesCaller(a)
    ensures TokensDiffer(Do(lags, faults, s, a))
  {}

  lemma DifferOther(lags: Lags, faults: bool, s: Sys, a: Action)
    requires |s.home| == |s.callers| && TokensKnown(s) && TokensDiffer(s) && !EndsLoops(a) && !MovesCaller(a)
    ensures TokensDiffer(Do(lags, faults, s, a))
  {}

  /** Ending loops, and moving callers away from Granted, weakens no bound. */
  lemma FadingLess(lags: Lags, s: Sys, t: Sys)
    requires Fading(lags, s) && t.now == s.now && t.entry == s.entry && |t.callers| == |s.callers|
    requires forall i :: 0 <= i < |s.callers| && t.callers[i].Granted? ==> t.callers[i] == s.callers[i]
    requires forall k :: k in t.loops ==> k in s.loops && t.loops[k] == s.loops[k]
    ensures Fading(lags, t)
  {}

  lemma FadingEnds(lags: Lags, faults: bool, s: Sys, a: Action)
    requires Inv(lags, s) && EndsLoops(a)
    ensures Fading(lags, Do(lags, faults, s, a))
  {
    hide Fading, TokensKnown, TokensDiffer, StillFlying, TokensOf;
    FadingLess(lags, s, Do(lags, faults, s, a));
  }

  lemma FadingMoves(lags: Lags, faults: bool, s: Sys, a: Action)
    requires lags.obtain >= 0.0 && lags.refresh >= 0.0 && Inv(lags, s) && MovesCaller(a)
    ensures Fading(lags, Do(lags, faults, s, a))
  {}

  lemma FadingOther(lags: Lags, faults: bool, s: Sys, a: Action)
    requires lags.obtain >= 0.0 && lags.refresh >= 0.0 && Inv(lags, s) && !EndsLoops(a) && !MovesCaller(a)
    ensures Fading(lags, Do(lags, faults, s, a))
  {}

  lemma StepKeeps(lags: Lags, faults: bool, s: Sys, a: Action)
    requires lags.obtain >= 0.0 && lags.refresh >= 0.0 && Inv(lags, s)
    ensures Inv(lags, Do(lags, faults, s, a))
  {
    hide Do, TokensKnown, TokensDiffer, Fading;
    SameHome(lags, faults, s, a);
    StepKeepsKnown(lags, faults, s, a);
    if EndsLoops(a) {
      DifferEnds(lags, faults, s, a);
      FadingEnds(lags, faults, s, a);
    } else if MovesCaller(a) {
      DifferMoves(lags, faults, s, a);
      FadingMoves(lags, faults, s, a);
    } else {
      DifferOther(lags, faults, s, a);
      FadingOther(lags, faults, s, a);
    }
  }

  lemma {:induction false} RunKeeps(lags: Lags, faults: bool, s: Sys, actions: seq<Action>)
    requires lags.obtain >= 0.0 && lags.refresh >= 0.0 && Start(s)
    ensures Inv(lags, Run(lags, faults, s, actions))
  {
    hide Do;
    if actions != [] {
      var front := actions[..|actions| - 1];
      RunKeeps(lags, faults, s, front);
      StepKeeps(lags, faults, Run(lags, faults, s, front), actions[|actions| - 1]);
    }
  }

  // ----- without faults -----

  /** At most one caller has a token, namely `owner`; its entry outlives the latest moment of
      the return of Lock or of the next refresh; its handle is in the table of its process;
      and no other loop runs. */
  ghost predicate AliveAt(lags: Lags, s: Sys, owner: Option<nat>) {
    && |s.home| == |s.callers|
    && (forall i :: 0 <= i < |s.callers| && HasToken(s.callers[i]) ==> owner == Some(i))
    && (owner.None? ==> s.loops == map[])
    && (owner.Some? ==>
          && owner.value < |s.callers| && OwnerAlive(lags, s, s.home[owner.value], s.callers[owner.value])
          && forall i :: 0 <= i < |s.callers| && s.callers[i].Releasing? ==>
               s.callers[i].token != s.callers[owner.value].token)
  }

  predicate OwnerAlive(lags: Lags, s: Sys, home: nat, c: Caller) {
    match c
    case Granted(t, at) => s.entry == Some(Entry(t, at + 5.0)) && s.loops == map[]
    case Inside(t) =>
      && s.loops.Keys == {t} && s.loops[t].home == home && home in s.handles && s.handles[home] == t
      && s.entry.Some? && s.entry.value.token == t && s.loops[t].due + lags.refresh < s.entry.value.expires
    case _ => false
  }

  predicate SmallLags(lags: Lags) {
    lags.obtain >= 0.0 && lags.refresh >= 0.0 && lags.obtain + lags.refresh < 2.0
  }

  /** The owner's entry is alive. */
  lemma OwnerIsLive(lags: Lags, s: Sys, owner: Option<nat>)
    requires SmallLags(lags) && Fading(lags, s) && AliveAt(lags, s, owner) && owner.Some?
    ensures Owns(s, s.callers[owner.value].token)
  {
    var c := s.callers[owner.value];
    assert c.Inside? ==> c.token in s.loops;
  }

  lemma AliveEnters(lags: Lags, s: Sys, owner: Option<nat>, a: Action) returns (owner': Option<nat>)
    requires SmallLags(lags) && Inv(lags, s) && AliveAt(lags, s, owner) && (a.Obtain? || a.Return?)
    ensures AliveAt(lags, Do(lags, false, s, a), owner')
  {
    hide TokensDiffer, Fading;
    if owner.Some? { OwnerIsLive(lags, s, owner); }
    if a.Return? && Enabled(lags, false, s, a) { GrantedInTime(lags, s, a); }
    owner' := if a.Obtain? && Enabled(lags, false, s, a) && !Live(s) then Some(a.caller) else owner;
  }

  lemma AliveLeaves(lags: Lags, s: Sys, owner: Option<nat>, a: Action)
    requires AliveAt(lags, s, owner) && (a.Release? || a.FailRelease?)
    ensures AliveAt(lags, Do(lags, false, s, a), owner)
  {}

  lemma GrantedInTime(lags: Lags, s: Sys, a: Action)
    requires Inv(lags, s) && a.Return? && Enabled(lags, false, s, a)
    ensures s.callers[a.caller].at + lags.obtain >= s.now
  {}

  lemma AliveEnds(lags: Lags, s: Sys, owner: Option<nat>, a: Action) returns (owner': Option<nat>)
    requires AliveAt(lags, s, owner) && EndsLoops(a)
    ensures AliveAt(lags, Do(lags, false, s, a), owner')
  {
    hide StillFlying;
    owner' := owner;
    if Enabled(lags, false, s, a) {
      if a.Unlock? || (a.Crash? && owner.Some? && s.home[owner.value] == a.process) { owner' := None; }
      var t := Do(lags, false, s, a);
      assert owner'.None? ==> t.loops == map[];
      assert owner'.Some? ==> t.loops == s.loops && t.callers[owner.value] == s.callers[owner.value];
    }
  }

  lemma AliveOther(lags: Lags, s: Sys, owner: Option<nat>, a: Action)
    requires SmallLags(lags) && Inv(lags, s) && AliveAt(lags, s, owner) && !EndsLoops(a) && !MovesCaller(a)
    ensures AliveAt(lags, Do(lags, false, s, a), owner)
  {
    if owner.Some? { OwnerIsLive(lags, s, owner); }
    assert a.LateRefresh? && Enabled(lags, false, s, a) && owner.Some? ==> s.callers[owner.value].token != a.token;
  }

  lemma StepKeepsAlive(lags: Lags, s: Sys, owner: Option<nat>, a: Action) returns (owner': Option<nat>)
    requires SmallLags(lags) && Inv(lags, s) && AliveAt(lags, s, owner)
    ensures AliveAt(lags, Do(lags, false, s, a), owner')
  {
    hide Do, Inv, AliveAt;
    if EndsLoops(a) { owner' := AliveEnds(lags, s, owner, a); }
    else if a.Obtain? || a.Return? { owner' := AliveEnters(lags, s, owner, a); }
    else if MovesCaller(a) { AliveLeaves(lags, s, owner, a); owner' := owner; }
    else { AliveOther(lags, s, owner, a); owner' := owner; }
  }

  lemma {:induction false} RunKeepsAlive(lags: Lags, s: Sys, actions: seq<Action>) returns (owner: Option<nat>)
    requires SmallLags(lags) && Start(s)
    ensures AliveAt(lags, Run(lags, false, s, actions), owner)
  {
    if actions == [] { return None; }
    hide Do, AliveAt;
    var front := actions[..|actions| - 1];
    owner := RunKeepsAlive(lags, s, front);
    RunKeeps(lags, false, s, front);
    owner := StepKeepsAlive(lags, Run(lags, false, s, front), owner, actions[|actions| - 1]);
  }

  /** With obtain lag plus refresh lag below two seconds and no faults: whoever is inside has a
      live entry until it calls Unlock, there is one inside at most, and its Unlock finds its
      own handle. */
  lemma HeldLockIsExclusive(lags: Lags, s: Sys, actions: seq<Action>)
    requires SmallLags(lags) && Start(s)
    ensures var now := Run(lags, false, s, actions);
            && Safe(now)
            && forall i :: 0 <= i < |now.callers| && now.callers[i].Inside? ==>
                 now.home[i] in now.handles && now.handles[now.home[i]] == now.callers[i].token
  {
    hide Do, TokensKnown, TokensDiffer;
    RunKeeps(lags, false, s, actions);
    var owner := RunKeepsAlive(lags, s, actions);
    if owner.Some? { OwnerIsLive(lags, Run(lags, false, s, actions), owner); }
  }

  // ----- Unlock by the holder -----

  /** Actions that neither take the lock nor end the Unlock of caller `i`. */
  predicate Bystands(a: Action, i: nat, home: nat) {
    !a.Obtain? && a != Release(i) && a != FailRelease(i) && a != Crash(home)
  }

  /** Caller `i` is about to release the one token the entry can have. */
  ghost predicate ReleasesLast(s: Sys, i: nat, token: nat) {
    && |s.home| == |s.callers| && i < |s.callers| && s.callers[i] == Releasing(token)
    && (s.entry.Some? ==> s.entry.value.token == token)
  }

  lemma BystandKeeps(lags: Lags, faults: bool, s: Sys, a: Action, i: nat, token: nat)
    requires ReleasesLast(s, i, token) && Bystands(a, i, s.home[i])
    ensures ReleasesLast(Do(lags, faults, s, a), i, token)
  {
    hide StillFlying, InTime, TokensOf;
  }

  lemma {:induction false} RunBystands(lags: Lags, faults: bool, s: Sys, between: seq<Action>, i: nat, token: nat)
    requires ReleasesLast(s, i, token) && forall k :: 0 <= k < |between| ==> Bystands(between[k], i, s.home[i])
    ensures ReleasesLast(Run(lags, faults, s, between), i, token)
  {
    hide Do, ReleasesLast;
    assert |s.home| == |s.callers| && i < |s.callers| by { ReleasesLastBounds(s, i, token); }
    if between != [] {
      var front := between[..|between| - 1];
      RunBystands(lags, faults, s, front, i, token);
      BystandKeeps(lags, faults, Run(lags, faults, s, front), between[|between| - 1], i, token);
    }
  }

  lemma ReleasesLastBounds(s: Sys, i: nat, token: nat)
    requires ReleasesLast(s, i, token)
    ensures |s.home| == |s.callers| && i < |s.callers|
  {}

  /** The Unlock of the holder in a fault-free run.  Its refresh loop has ended, and whatever
      happens until its release reaches the server, faults and refreshes still on their way
      included, the lock is free at that instant: the next Obtain gets it. */
  lemma UnlockFreesTheLock(lags: Lags, s: Sys, actions: seq<Action>, i: nat, faults: bool, between: seq<Action>)
    requires SmallLags(lags) && Start(s) && i < |s.callers| && Run(lags, false, s, actions).callers[i].Inside?
    requires forall k :: 0 <= k < |between| ==> Bystands(between[k], i, s.home[i])
    ensures var unlocked := Do(lags, false, Run(lags, false, s, actions), Unlock(i));
            && |unlocked.home| == |unlocked.callers| && unlocked.loops == map[]
            && var end := Do(lags, faults, Run(lags, faults, unlocked, between), Release(i));
               && i < |end.callers| == |end.home| && end.callers[i] == Idle && !Live(end)
               && forall j, token :: 0 <= j < |end.callers| && end.callers[j].Idle? && token !in end.used ==>
                    Owns(Do(lags, faults, end, Obtain(j, token)), token)
  {
    var now := Run(lags, false, s, actions);
    var owner := RunKeepsAlive(lags, s, actions);
    var token := now.callers[i].token;
    UnlockReleasesLast(lags, now, i);
    var unlocked := Do(lags, false, now, Unlock(i));
    RunBystands(lags, faults, unlocked, between, i, token);
    ReleaseFrees(lags, faults, Run(lags, faults, unlocked, between), i, token);
  }

  lemma UnlockReleasesLast(lags: Lags, s: Sys, i: nat)
    requires AliveAt(lags, s, Some(i)) && s.callers[i].Inside?
    ensures var unlocked := Do(lags, false, s, Unlock(i));
      unlocked.home == s.home && unlocked.loops == map[] && ReleasesLast(unlocked, i, s.callers[i].token)
  {
    hide StillFlying;
  }

  lemma ReleaseFrees(lags: Lags, faults: bool, s: Sys, i: nat, token: nat)
    requires ReleasesLast(s, i, token)
    ensures var end := Do(lags, faults, s, Release(i));
      && i < |end.callers| == |end.home| && end.callers[i] == Idle && !Live(end)
      && forall j, token :: 0 <= j < |end.callers| && end.callers[j].Idle? && token !in end.used ==>
           Owns(Do(lags, faults, end, Obtain(j, token)), token)
  {}

  // ----- how the guarantee ends -----

  lemma RunMore(lags: Lags, faults: bool, s: Sys, actions: seq<Action>, a: Action)
    requires |s.home| == |s.callers|
    ensures Run(lags, faults, s, actions + [a]) == Do(lags, faults, Run(lags, faults, s, actions), a)
  {
    hide Do;
    assert (actions + [a])[..|actions + [a]| - 1] == actions;
  }

  /** Caller 0 alone is inside; its loop is the only one. */
  function Solo(s: Sys, now: real, expires: real, due: real, failed: bool): Sys
    requires |s.callers| >= 1 && |s.home| == |s.callers|
  {
    s.(now := now, entry := Some(Entry(0, expires)), callers := s.callers[0 := Inside(0)],
       handles := map[s.home[0] := 0], loops := map[0 := Loop(due, failed, s.home[0])], used := {0})
  }

  /** The steps of such a system. */
  lemma SoloSteps(lags: Lags, faults: bool, s: Sys, now: real, expires: real, due: real, failed: bool)
    requires Start(s) && |s.callers| >= 1
    ensures forall t :: t >= 0.0 && now + t <= due + lags.refresh ==>
              Do(lags, faults, Solo(s, now, expires, due, failed), Wait(t)) == Solo(s, now + t, expires, due, failed)
    ensures due <= now < expires ==>
              Do(lags, faults, Solo(s, now, expires, due, failed), Refresh(0)) ==
              Solo(s, now, now + 5.0, due + 3.0, false)
    ensures faults && due <= now ==>
              Do(lags, faults, Solo(s, now, expires, due, failed), FailRefresh(0)) ==
              Solo(s, now, expires, due + 3.0, true)
  {}

  /** Caller 0 obtains the lock, and Lock returns after `lag`. */
  lemma FirstHolds(lags: Lags, faults: bool, s: Sys, lag: real) returns (actions: seq<Action>)
    requires 0.0 <= lag <= lags.obtain && lags.refresh >= 0.0 && Start(s) && |s.callers| >= 1
    ensures Run(lags, faults, s, actions) == Solo(s, s.now + lag, s.now + 5.0, s.now + lag + 3.0, false)
  {
    hide Run;
    var s1 := s.(entry := Some(Entry(0, s.now + 5.0)), used := {0}, callers := s.callers[0 := Granted(0, s.now)]);
    assert Run(lags, faults, s, []) == s by { RunNothing(lags, faults, s); }
    RunMore(lags, faults, s, [], Obtain(0, 0));
    actions := [] + [Obtain(0, 0)];
    assert Run(lags, faults, s, actions) == s1;
    RunMore(lags, faults, s, actions, Wait(lag));
    actions := actions + [Wait(lag)];
    assert Run(lags, faults, s, actions) == s1.(now := s.now + lag);
    RunMore(lags, faults, s, actions, Return(0));
    actions := actions + [Return(0)];
    assert s1.callers[0 := Inside(0)] == s.callers[0 := Inside(0)];
  }

  lemma RunNothing(lags: Lags, faults: bool, s: Sys)
    requires |s.home| == |s.callers|
    ensures Run(lags, faults, s, []) == s
  {}

  /** With an expired entry, caller 1 enters beside caller 0. */
  lemma SecondEnters(lags: Lags, faults: bool, s: Sys, actions: seq<Action>) returns (more: seq<Action>)
    requires |s.home| == |s.callers|
    requires var now := Run(lags, faults, s, actions);
             |now.callers| >= 2 && now.callers[0].Inside? && now.callers[1] == Idle && !Live(now) && 1 !in now.used
    ensures var now, end := Run(lags, faults, s, actions), Run(lags, faults, s, more);
            && |end.callers| == |now.callers| && end.callers == now.callers[1 := Inside(1)]
            && end.now == now.now && end.entry == Some(Entry(1, now.now + 5.0)) && end.used == now.used + {1}
            && end.handles == now.handles[now.home[1] := 1]
            && end.loops == now.loops[1 := Loop(now.now + 3.0, false, now.home[1])] && end.flying == now.flying
  {
    hide Run;
    RunMore(lags, faults, s, actions, Obtain(1, 1));
    more := actions + [Obtain(1, 1)];
    RunMore(lags, faults, s, more, Return(1));
    more := more + [Return(1)];
    var now := Run(lags, faults, s, actions);
    assert now.callers[1 := Granted(1, now.now)][1 := Inside(1)] == now.callers[1 := Inside(1)];
  }

  /** Two seconds are the exact margin: exclusion holds in every fault-free run exactly when
      the two lags stay below two seconds together. */
  lemma ExclusiveIffLagsBelowTwoSeconds(lags: Lags, s: Sys)
    requires lags.obtain >= 0.0 && lags.refresh >= 0.0 && Start(s) && |s.callers| >= 2
    ensures (forall actions :: Safe(Run(lags, false, s, actions))) <==> lags.obtain + lags.refresh < 2.0
  {
    hide Do, Run;
    if lags.obtain + lags.refresh < 2.0 {
      forall actions ensures Safe(Run(lags, false, s, actions)) { HeldLockIsExclusive(lags, s, actions); }
    } else {
      var t := s.now + lags.obtain;
      var actions := FirstHolds(lags, false, s, lags.obtain);
      SoloSteps(lags, false, s, t, s.now + 5.0, t + 3.0, false);
      RunMore(lags, false, s, actions, Wait(3.0 + lags.refresh));
      actions := actions + [Wait(3.0 + lags.refresh)];
      var more := SecondEnters(lags, false, s, actions);
      var end := Run(lags, false, s, more);
      assert end.callers[0].Inside? && end.callers[1].Inside? && !Safe(end);
    }
  }

  /** With a refresh lag of at most one second, two refresh intervals are longer than the
      lifetime: after a refresh without effect the entry has expired, or belongs to another
      caller, when the retry is due. */
  lemma FailedRefreshLosesTheLock(lags: Lags, s: Sys, actions: seq<Action>, token: nat)
    requires lags.obtain >= 0.0 && 0.0 <= lags.refresh <= 1.0 && Start(s)
    ensures var now := Run(lags, true, s, actions);
            token in now.loops && now.loops[token].failed ==>
              && (now.now >= now.loops[token].due - 1.0 + lags.refresh ==> !Owns(now, token))
              && (RetryIsDue(now, token) ==> RetryFails(lags, now, token))
  {
    RunKeeps(lags, true, s, actions);
  }

  /** The loop of the token is about to retry a refresh that had no effect. */
  predicate RetryIsDue(s: Sys, token: nat) {
    Due(s, token) && s.loops[token].failed
  }

  /** The retry ends the refresh loop. */
  ghost predicate RetryFails(lags: Lags, s: Sys, token: nat) {
    |s.home| == |s.callers| && Do(lags, true, s, Refresh(token)) == s.(loops := s.loops - {token})
  }

  ghost predicate RetriesFail(lags: Lags, s: Sys) {
    forall token :: RetryIsDue(s, token) ==> RetryFails(lags, s, token)
  }

  /** A run in which the retry comes in time: the first refresh succeeds late, the second
      fails, the third finds the entry alive. */
  lemma LateRefreshSavesRetry(lags: Lags, s: Sys) returns (actions: seq<Action>)
    requires lags.obtain >= 0.0 && lags.refresh > 1.0 && Start(s) && |s.callers| >= 1
    ensures !RetriesFail(lags, Run(lags, true, s, actions))
  {
    hide Do, Run;
    var late := if lags.refresh < 2.0 then lags.refresh else 1.5;
    var t := s.now;
    actions := FirstHolds(lags, true, s, 0.0);
    SoloSteps(lags, true, s, t, t + 5.0, t + 3.0, false);
    RunMore(lags, true, s, actions, Wait(3.0 + late));
    actions := actions + [Wait(3.0 + late)];
    SoloSteps(lags, true, s, t + (3.0 + late), t + 5.0, t + 3.0, false);
    RunMore(lags, true, s, actions, Refresh(0));
    actions := actions + [Refresh(0)];
    SoloSteps(lags, true, s, t + 3.0 + late, t + 8.0 + late, t + 6.0, false);
    RunMore(lags, true, s, actions, Wait(3.0 - late));
    actions := actions + [Wait(3.0 - late)];
    SoloSteps(lags, true, s, t + 6.0, t + 8.0 + late, t + 6.0, false);
    RunMore(lags, true, s, actions, FailRefresh(0));
    actions := actions + [FailRefresh(0)];
    SoloSteps(lags, true, s, t + 6.0, t + 8.0 + late, t + 9.0, true);
    RunMore(lags, true, s, actions, Wait(3.0));
    actions := actions + [Wait(3.0)];
    SoloSteps(lags, true, s, t + 9.0, t + 8.0 + late, t + 9.0, true);
    var end := Solo(s, t + 9.0, t + 8.0 + late, t + 9.0, true);
    assert Run(lags, true, s, actions) == end && RetryIsDue(end, 0);
    assert Do(lags, true, end, Refresh(0)) == Solo(s, t + 9.0, t + 14.0, t + 12.0, false);
    assert 0 in Do(lags, true, end, Refresh(0)).loops;
  }

  /** One second is exact: the retry after a refresh without effect ends the refresh loop in
      every run if and only if a refresh never lags more than a second. */
  lemma RetriesFailIffLagAtMostOneSecond(lags: Lags, s: Sys)
    requires lags.obtain >= 0.0 && lags.refresh >= 0.0 && Start(s) && |s.callers| >= 1
    ensures (forall actions :: RetriesFail(lags, Run(lags, true, s, actions))) <==> lags.refresh <= 1.0
  {
    hide Do, Run;
    if lags.refresh <= 1.0 {
      forall actions ensures RetriesFail(lags, Run(lags, true, s, actions)) {
        var now := Run(lags, true, s, actions);
        forall token | RetryIsDue(now, token) ensures RetryFails(lags, now, token) {
          FailedRefreshLosesTheLock(lags, s, actions, token);
        }
      }
    } else {
      var actions := LateRefreshSavesRetry(lags, s);
    }
  }

  /** Caller 0 has missed one refresh, and caller 1 has entered beside it. */
  lemma FailedAndEntered(lags: Lags, s: Sys) returns (actions: seq<Action>)
    requires lags.obtain >= 0.0 && lags.refresh >= 0.0 && Start(s) && |s.callers| >= 2
    ensures var end, t := Run(lags, true, s, actions), s.now + lags.obtain + 5.0;
            && end.callers == s.callers[0 := Inside(0)][1 := Inside(1)] && end.entry == Some(Entry(1, t + 5.0))
            && end.now == t && end.used == {0, 1} && end.handles == map[s.home[0] := 0][s.home[1] := 1]
            && end.loops == map[0 := Loop(t + 1.0, true, s.home[0]), 1 := Loop(t + 3.0, false, s.home[1])]
            && end.flying == map[]
  {
    hide Do, Run;
    var t := s.now + lags.obtain;
    actions := FirstHolds(lags, true, s, lags.obtain);
    SoloSteps(lags, true, s, t, s.now + 5.0, t + 3.0, false);
    RunMore(lags, true, s, actions, Wait(3.0));
    actions := actions + [Wait(3.0)];
    SoloSteps(lags, true, s, t + 3.0, s.now + 5.0, t + 3.0, false);
    RunMore(lags, true, s, actions, FailRefresh(0));
    actions := actions + [FailRefresh(0)];
    SoloSteps(lags, true, s, t + 3.0, s.now + 5.0, t + 6.0, true);
    RunMore(lags, true, s, actions, Wait(2.0));
    actions := actions + [Wait(2.0)];
    assert Run(lags, true, s, actions) == Solo(s, t + 5.0, s.now + 5.0, t + 6.0, true);
    actions := SecondEnters(lags, true, s, actions);
  }

  /** However small the lags, one failed refresh lets a second caller in. */
  lemma OneFailureBreaksExclusion(lags: Lags, s: Sys)
    requires lags.obtain >= 0.0 && lags.refresh >= 0.0 && Start(s) && |s.callers| >= 2
    ensures exists actions :: !Safe(Run(lags, true, s, actions))
  {
    hide Do, Run;
    var actions := FailedAndEntered(lags, s);
    var end := Run(lags, true, s, actions);
    assert end.callers[0].Inside? && end.callers[1].Inside? && !Safe(end);
  }

  // ----- Unlock by a caller that lost the lock -----

  /** Unlock takes the handle it finds under the name.  If that of another caller of the same
      process is there, the other's refresh loop ends, and the release removes the other's live
      entry, while the other is still inside. */
  lemma UnlockTakesOthersHandle(lags: Lags, faults: bool, s: Sys, i: nat, j: nat)
    requires |s.home| == |s.callers| && i < |s.callers| && j < |s.callers| && i != j
    requires s.callers[i].Inside? && s.callers[j].Inside? && s.home[i] == s.home[j]
    requires s.home[i] in s.handles && s.handles[s.home[i]] == s.callers[j].token
    ensures var unlocked := Do(lags, faults, s, Unlock(i));
            && |unlocked.home| == |unlocked.callers|
            && var end := Do(lags, faults, unlocked, Release(i));
               && end.callers == s.callers[i := Idle] && s.callers[j].token !in end.loops
               && s.home[i] !in end.handles && !Owns(end, s.callers[j].token)
               && (Owns(s, s.callers[j].token) ==> end.entry == None)
  {
    var unlocked := Do(lags, faults, s, Unlock(i));
    assert unlocked.callers[i := Idle] == s.callers[i := Idle];
  }

  /** A run to such a state and on from it: caller 0 misses one refresh, caller 1 of the same
      process enters, and the Unlock of caller 0 lets caller 2 in beside caller 1, whose
      refreshes never failed. */
  lemma LostLockSpreads(lags: Lags, s: Sys)
    requires lags.obtain >= 0.0 && lags.refresh >= 0.0 && Start(s) && |s.callers| >= 3 && s.home[0] == s.home[1]
    ensures exists actions :: var end := Run(lags, true, s, actions);
              end.callers[0].Idle? && end.callers[1].Inside? && end.callers[2].Inside?
  {
    hide Do, Run;
    var actions := FailedAndEntered(lags, s);
    var now := Run(lags, true, s, actions);
    UnlockTakesOthersHandle(lags, true, now, 0, 1);
    RunMore(lags, true, s, actions, Unlock(0));
    actions := actions + [Unlock(0)];
    RunMore(lags, true, s, actions, Release(0));
    actions := actions + [Release(0)];
    var released := Run(lags, true, s, actions);
    KeepsUsed(lags, true, now, Unlock(0));
    KeepsUsed(lags, true, Do(lags, true, now, Unlock(0)), Release(0));
    ThirdEnters(lags, released);
    RunMore(lags, true, s, actions, Obtain(2, 2));
    actions := actions + [Obtain(2, 2)];
    RunMore(lags, true, s, actions, Return(2));
    actions := actions + [Return(2)];
    assert Run(lags, true, s, actions).callers[2].Inside?;
  }

  lemma KeepsUsed(lags: Lags, faults: bool, s: Sys, a: Action)
    requires |s.home| == |s.callers| && !a.Obtain?
    ensures Do(lags, faults, s, a).used == s.used
  {}

  lemma ThirdEnters(lags: Lags, s: Sys)
    requires |s.home| == |s.callers| && |s.callers| >= 3 && s.callers[2] == Idle && !Live(s) && 2 !in s.used
    ensures var granted := Do(lags, true, s, Obtain(2, 2));
            && |granted.home| == |granted.callers|
            && Do(lags, true, granted, Return(2)).callers == s.callers[2 := Inside(2)]
  {
    var granted := Do(lags, true, s, Obtain(2, 2));
    assert granted.callers[2 := Inside(2)] == s.callers[2 := Inside(2)];
  }

  // ----- a lock that nobody refreshes any more -----

  /** No caller and no loop touches the entry, and every refresh on its way has landed by `t`. */
  ghost predicate Abandoned(s: Sys, t: real) {
    && (forall i :: 0 <= i < |s.callers| ==> !s.callers[i].Granted?)
    && s.loops == map[] && (forall k :: k in s.flying ==> s.flying[k] <= t)
    && (s.entry.Some? ==> s.entry.value.expires <= t + 5.0)
  }

  lemma StepAbandoned(lags: Lags, faults: bool, s: Sys, a: Action, t: real)
    requires |s.home| == |s.callers| && Abandoned(s, t) && !a.Obtain?
    ensures Abandoned(Do(lags, faults, s, a), t)
  {}

  lemma {:induction false} RunAbandoned(lags: Lags, faults: bool, s: Sys, actions: seq<Action>, t: real)
    requires |s.home| == |s.callers| && Abandoned(s, t) && forall i :: 0 <= i < |actions| ==> !actions[i].Obtain?
    ensures Abandoned(Run(lags, faults, s, actions), t)
  {
    hide Do, Abandoned;
    if actions != [] {
      var front := actions[..|actions| - 1];
      RunAbandoned(lags, faults, s, front, t);
      StepAbandoned(lags, faults, Run(lags, faults, s, front), actions[|actions| - 1], t);
    }
  }

  /** A lock whose refresh loops have all ended, because its callers crashed, called Unlock or
      lost their loop, is free five seconds after the last refresh on its way can have landed,
      whatever else happens, also while a former holder still believes to hold it; the next
      Obtain gets it. */
  lemma AbandonedLockIsFreed(lags: Lags, faults: bool, s: Sys, actions: seq<Action>, more: seq<Action>, t: real)
    requires lags.obtain >= 0.0 && lags.refresh >= 0.0 && Start(s)
    requires var now := Run(lags, faults, s, actions);
             && now.loops == map[] && (forall i :: 0 <= i < |now.callers| ==> !now.callers[i].Granted?)
             && now.now <= t && forall k :: k in now.flying ==> now.flying[k] <= t
    requires forall i :: 0 <= i < |more| ==> !more[i].Obtain?
    ensures var end := Run(lags, faults, Run(lags, faults, s, actions), more);
            end.now >= t + 5.0 ==>
              && !Live(end)
              && forall i, token :: 0 <= i < |end.callers| && end.callers[i].Idle? && token !in end.used ==>
                   Owns(Do(lags, faults, end, Obtain(i, token)), token)
  {
    RunKeeps(lags, faults, s, actions);
    RunAbandoned(lags, faults, Run(lags, faults, s, actions), more, t);
  }
}
