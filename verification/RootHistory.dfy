/** What a root reports and when it ends, told from the answers it met alone: the probes, the
    UUIDs, the endpoint's responses and the clock. */
module RootHistory {
  import opened Common
  import opened CertificateRoot

  // ----- one call -----

  /** The call finds its root neither cancelled nor expired. */
  predicate Ready(w: Work, e: Env) { !e.cancelledAtStart && e.start < w.expires }

  /** The call probes, and neither cancellation nor expiry ends it during the probe. */
  predicate Probes(w: Work, e: Env) { Ready(w, e) && w.event.None? && !e.cancelledInProbe && e.probed < w.expires }

  /** There is something to report: anything but a valid certificate, or any result once the
      endpoint has accepted the report. */
  predicate Reportable(w: Work, e: Env) {
    Probes(w, e) && e.probe.result != Inconclusive && (e.probe.result == Valid ==> w.acceptance.Some?)
  }

  /** The second of the probe is later than that of the last event. */
  predicate Later(w: Work, e: Env) { w.lastObservation < Truncate(e.probe.checkedAt) }

  predicate Creates(w: Work, e: Env) { Reportable(w, e) && Later(w, e) && e.uuid.Some? }

  predicate Posts(w: Work, e: Env) { Ready(w, e) && (w.event.Some? || Creates(w, e)) }

  /** The failures that are worth another attempt. */
  predicate Transient(r: Response) {
    r == TransportError || r == BodyError || r == Status(429) || r == Status(503)
  }

  /** A well-formed acceptance that is not expired and expires within five minutes and ten
      seconds. */
  predicate InWindow(e: Env) {
    && e.response.Accepted?
    && e.answered < e.response.acceptance.expiresAt <= e.answered + 310_000_000_000
  }

  /** ... and is the one acceptance of the root, if it has one. */
  predicate Accepts(w: Work, e: Env) {
    InWindow(e) && (w.acceptance.Some? ==> w.acceptance == Some(e.response.acceptance))
  }

  /** The number of this attempt for its event. */
  function Attempt(w: Work): nat { if w.event.Some? then w.attempts + 1 else 1 }

  /** One to two seconds before the second attempt, twice that before the third. */
  function RetryAt(w: Work, e: Env): int
    requires e.jitter.Some?
  {
    e.end + (1000 + e.jitter.value) * 1_000_000 * Attempt(w)
  }

  predicate Retries(w: Work, e: Env) {
    Transient(e.response) && Attempt(w) < 3 && e.jitter.Some? && RetryAt(w, e) < w.expires
  }

  /** The event of a root for candidate `c` that reports the probe of call `e`. */
  predicate Reports(ev: Event, e: Env, c: Candidate, observedAt: int) {
    && (ev.kind == Verification <==> e.probe.result == Valid)
    && ev.result == e.probe.result && Some(ev.id) == e.uuid
    && ev.hostname == c.hostname && ev.issuer == c.issuer
    && ev.checkedAt == Truncate(e.probe.checkedAt) && ev.observedAt == observedAt
    && (ev.kind == Mismatch ==> ev.leaf == c.leaf && ev.cert == c.cert && ev.key == c.key && ev.servedLeaf == "")
    && (ev.kind == Verification ==>
          ev.leaf == "" && ev.cert == "" && ev.key == "" && ev.servedLeaf == e.probe.servedLeaf)
  }

  /** A call creates an event exactly if its probe is reportable, later than the last event
      and a UUID can be had; the event reports that probe. */
  lemma CallCreates(l: Life, e: Env)
    ensures Process(l.work, e).created <==> Creates(l.work, e)
    ensures Creates(l.work, e) ==>
      var observedAt := if l.work.acceptance.None? then Truncate(l.work.birth) else Truncate(e.probe.checkedAt);
      && |Live(l, e).created| == |l.created| + 1 && Live(l, e).created[..|l.created|] == l.created
      && Reports(Live(l, e).created[|l.created|], e, l.work.candidate, observedAt)
    ensures !Creates(l.work, e) ==> Live(l, e).created == l.created
  {
    hide Truncate;
    assert Live(l, e).created == l.created || Live(l, e).created[..|l.created|] == l.created;
  }

  /** A call that posts nothing ends its root, unless an accepted root was probed without a
      result, or too early for another event. */
  lemma CallWithoutPost(l: Life, e: Env)
    requires Callable(l, e) && !Posts(l.work, e)
    ensures var l' := Live(l, e);
      && l'.sent == l.sent && l'.sentNo == l.sentNo && l'.work == l.work.(due := l'.work.due)
      && (l'.alive <==>
            && e.end < l.work.expires && Probes(l.work, e)
            && (if e.probe.result == Inconclusive then l.work.acceptance.Some?
                else Reportable(l.work, e) && !Later(l.work, e)))
      && (l'.alive ==> l'.work.due == e.end + if e.probe.result == Inconclusive then Periods(1) else SECOND)
  {
    hide Truncate;
  }

  /** A call that posts sends the pending event, or else the one it created.  It goes on for
      as long as its expiry allows exactly if the answer is an acceptance that fits or a
      transient failure with a retry left; in every other case the root ends. */
  lemma CallPosts(l: Life, e: Env)
    requires Callable(l, e) && Posts(l.work, e)
    ensures var w, l' := l.work, Live(l, e);
      && |l'.sent| == |l.sent| + 1 && l'.sent[..|l.sent|] == l.sent
      && (w.event.Some? ==> l'.sent[|l.sent|] == w.event.value)
      && (w.event.None? ==> l'.created != [] && l'.sent[|l.sent|] == l'.created[|l'.created| - 1])
      && (l'.created != [] ==> l'.sentNo == l.sentNo + [|l'.created| - 1])
      && (Accepts(w, e) ==> Accepted(l, e))
      && (Retries(w, e) ==> Retried(l, e))
      && (!Accepts(w, e) && !Retries(w, e) ==> !l'.alive)
  {
    hide Truncate, Reports, NewEvent;
    CallCreates(l, e);
    if Retries(l.work, e) { assert (1000 + e.jitter.value) * 1_000_000 * Attempt(l.work) >= 0; }
  }

  /** The acceptance stays, the first one shortens the life, and the next probe is due in
      thirty seconds. */
  predicate Accepted(l: Life, e: Env)
    requires e.response.Accepted?
  {
    var w, l', a := l.work, Live(l, e), e.response.acceptance;
    && l'.work.acceptance == Some(a) && l'.work.event.None? && l'.work.due == e.end + Periods(1)
    && l'.work.expires == (if w.acceptance.None? && a.expiresAt < w.expires then a.expiresAt else w.expires)
    && (l'.alive <==> e.end < l'.work.expires)
  }

  /** The same event is pending for its next attempt. */
  predicate Retried(l: Life, e: Env)
    requires e.jitter.Some?
  {
    var w, l' := l.work, Live(l, e);
    && l'.alive && l'.sent != [] && l'.work.event == Some(l'.sent[|l'.sent| - 1])
    && l'.work.attempts == Attempt(w) && l'.work.due == RetryAt(w, e)
    && l'.work.acceptance == w.acceptance && l'.work.expires == w.expires
  }

  // ----- the whole life -----

  ghost predicate Increasing(s: seq<nat>, bound: nat) {
    && (forall i :: 0 <= i < |s| ==> s[i] < bound)
    && (forall i, j :: 0 <= i < j < |s| ==> s[i] < s[j])
  }

  /** Event `i` reports the probe of call `makers[i]`: the first event with the birth of the root
      as the time of observation, every later one with that of the probe. */
  ghost predicate CreatedBy(l: Life, calls: seq<Env>, makers: seq<nat>) {
    && |makers| == |l.created| && Increasing(makers, |calls|)
    && forall i :: 0 <= i < |makers| ==>
         Reports(l.created[i], calls[makers[i]], l.work.candidate,
                 if i == 0 then Truncate(l.work.birth) else Truncate(calls[makers[i]].probe.checkedAt))
  }

  /** What the answer to an attempt must have been for the root to go on with event `next`
      after event `no`: with the same one after a transient failure, with the following one
      after the acceptance. */
  ghost predicate Followed(a: Option<Acceptance>, e: Env, no: int, next: int) {
    && (next == no || next == no + 1)
    && (next == no <==> Transient(e.response))
    && (next == no + 1 <==> InWindow(e) && a == Some(e.response.acceptance))
  }

  /** The number of the event that the next attempt will send. */
  function NextNo(l: Life): int { if l.work.event.Some? then |l.created| - 1 else |l.created| }

  ghost predicate AllFollowed(a: Option<Acceptance>, calls: seq<Env>, posts: seq<nat>, nos: seq<int>) {
    && Increasing(posts, |calls|)
    && forall j :: 0 <= j < |posts| && j + 1 < |nos| ==> Followed(a, calls[posts[j]], nos[j], nos[j + 1])
  }

  /** Attempt `j` was made by call `posts[j]`, and every attempt was followed up as its answer
      demands: all but the last one, and the last one too if the root is alive. */
  ghost predicate PostedBy(l: Life, calls: seq<Env>, posts: seq<nat>) {
    && |posts| == |l.sent| == |l.sentNo|
    && AllFollowed(l.work.acceptance, calls, posts, l.sentNo + if l.alive then [NextNo(l)] else [])
  }

  lemma IncreasingOne(s: seq<nat>, n: nat)
    requires Increasing(s, n)
    ensures Increasing(s, n + 1) && Increasing(s + [n], n + 1)
  {}

  lemma MoreCalls(calls: seq<Env>, e: Env, s: seq<nat>)
    requires Increasing(s, |calls|)
    ensures forall i :: 0 <= i < |s| ==> s[i] < |calls| && (calls + [e])[s[i]] == calls[s[i]]
  {}

  lemma NextCreatedBy(l: Life, e: Env, calls: seq<Env>, makers: seq<nat>)
    requires LifeOk(l) && Callable(l, e) && CreatedBy(l, calls, makers)
    ensures CreatedBy(Live(l, e), calls + [e], if Creates(l.work, e) then makers + [|calls|] else makers)
  {
    hide Reports, Live, Process, Truncate, TimesOk, SendsOk, EventOk, Increasing;
    CallCreates(l, e);
    LiveSettles(l, e);
    IncreasingOne(makers, |calls|);
    MoreCalls(calls, e, makers);
  }

  lemma LiveSettles(l: Life, e: Env)
    ensures ExpirySettles(l.work, Live(l, e).work)
  {
    ProcessSettles(l.work, e);
  }

  lemma StillFollowed(w: Work, w': Work, calls: seq<Env>, e: Env, posts: seq<nat>, nos: seq<int>)
    requires ExpirySettles(w, w') && AllFollowed(w.acceptance, calls, posts, nos) && |nos| <= |posts| + 1
    ensures AllFollowed(w'.acceptance, calls + [e], posts, nos)
  {
    hide Increasing, Transient;
    IncreasingOne(posts, |calls|);
    MoreCalls(calls, e, posts);
    forall j | 0 <= j < |posts| && j + 1 < |nos|
      ensures Followed(w'.acceptance, (calls + [e])[posts[j]], nos[j], nos[j + 1])
    {
      assert Followed(w.acceptance, calls[posts[j]], nos[j], nos[j + 1]);
      TransientIsNotAccepted(calls[posts[j]].response);
    }
  }

  lemma TransientIsNotAccepted(r: Response)
    ensures Transient(r) ==> !r.Accepted?
  {}

  /** One more attempt, after all earlier ones were followed up. */
  lemma OneMoreFollowed(a: Option<Acceptance>, calls: seq<Env>, e: Env, posts: seq<nat>, nos: seq<int>, next: seq<int>)
    requires AllFollowed(a, calls + [e], posts, nos) && Increasing(posts, |calls|) && |nos| == |posts| + 1
    requires |next| <= 1 && (next != [] ==> Followed(a, e, nos[|posts|], next[0]))
    ensures AllFollowed(a, calls + [e], posts + [|calls|], nos + next)
  {
    hide Followed, Increasing;
    IncreasingOne(posts, |calls|);
    var posts', nos' := posts + [|calls|], nos + next;
    MoreCalls(calls, e, posts);
    assert forall j :: 0 <= j < |posts'| ==> posts'[j] < |calls + [e]|;
    forall j | 0 <= j < |posts'| && j + 1 < |nos'|
      ensures Followed(a, (calls + [e])[posts'[j]], nos'[j], nos'[j + 1])
    {
      if j < |posts| { assert posts'[j] == posts[j] && nos'[j] == nos[j] && nos'[j + 1] == nos[j + 1]; }
    }
  }

  lemma FewerFollowed(a: Option<Acceptance>, calls: seq<Env>, posts: seq<nat>, nos: seq<int>, n: nat)
    requires AllFollowed(a, calls, posts, nos) && n <= |nos|
    ensures AllFollowed(a, calls, posts, nos[..n])
  {
    hide Followed, Increasing;
  }

  lemma PostFollows(l: Life, e: Env)
    requires LifeOk(l) && Callable(l, e) && Posts(l.work, e)
    ensures var l' := Live(l, e);
      && |l'.sent| == |l.sent| + 1 && l'.sentNo == l.sentNo + [NextNo(l)]
      && (l'.alive ==> Followed(l'.work.acceptance, e, NextNo(l), NextNo(l')))
  {
    hide Live, Process, TimesOk, SendsOk, EventOk;
    CallCreates(l, e);
    CallPosts(l, e);
  }

  lemma NoPostKeeps(l: Life, e: Env)
    requires Callable(l, e) && !Posts(l.work, e)
    ensures var l' := Live(l, e);
      && l'.sent == l.sent && l'.sentNo == l.sentNo && l'.work.acceptance == l.work.acceptance
      && NextNo(l') == NextNo(l)
  {
    hide Live, Process;
    CallCreates(l, e);
    CallWithoutPost(l, e);
  }

  lemma NextPostedBy(l: Life, e: Env, calls: seq<Env>, posts: seq<nat>)
    requires LifeOk(l) && Callable(l, e) && PostedBy(l, calls, posts)
    ensures PostedBy(Live(l, e), calls + [e], if Posts(l.work, e) then posts + [|calls|] else posts)
  {
    hide Live, Followed, Increasing, LifeOk, Posts, NextNo;
    LiveSettles(l, e);
    var l', nos := Live(l, e), l.sentNo + [NextNo(l)];
    StillFollowed(l.work, l'.work, calls, e, posts, nos);
    if Posts(l.work, e) {
      PostFollows(l, e);
      OneMoreFollowed(l'.work.acceptance, calls, e, posts, nos, if l'.alive then [NextNo(l')] else []);
    } else {
      NoPostKeeps(l, e);
      if !l'.alive { FewerFollowed(l'.work.acceptance, calls + [e], posts, nos, |l.sentNo|); }
    }
  }

  /** The calls so far, with those that created an event and those that posted one. */
  lemma {:induction false} LivesHistory(l: Life, calls: seq<Env>, makers: seq<nat>, posts: seq<nat>,
                                        envs: seq<Env>, l': Life)
    returns (makers': seq<nat>, posts': seq<nat>)
    requires LifeOk(l) && Lives(l, envs, l') && CreatedBy(l, calls, makers) && PostedBy(l, calls, posts)
    ensures CreatedBy(l', calls + envs, makers') && PostedBy(l', calls + envs, posts')
    decreases |envs|
  {
    hide LifeOk, Live, Callable, CreatedBy, PostedBy;
    if envs == [] {
      assert calls + envs == calls;
      return makers, posts;
    }
    var e := envs[0];
    NextCreatedBy(l, e, calls, makers);
    NextPostedBy(l, e, calls, posts);
    LivesOk(l, envs[..1], Live(l, e));
    makers', posts' := LivesHistory(
      Live(l, e), calls + [e], if Creates(l.work, e) then makers + [|calls|] else makers,
      if Posts(l.work, e) then posts + [|calls|] else posts, envs[1..], l');
    assert (calls + [e]) + envs[1..] == calls + envs;
  }

  /** Over its whole life a root reports its probes and nothing else: each event tells the probe
      of the call that created it, as a verification exactly if the probe found the served
      certificate valid.  Each attempt answered by a transient failure is followed, if by any,
      by another attempt for the same event; each answered by the acceptance is followed by one
      for the next event; after any other answer there is none. */
  lemma RootReportsItsProbes(c: Candidate, now: int, envs: seq<Env>, l: Life)
    returns (makers: seq<nat>, posts: seq<nat>)
    requires Lives(Birth(c, now), envs, l)
    ensures l.work.candidate == c && l.work.birth == now
    ensures CreatedBy(l, envs, makers) && PostedBy(l, envs, posts)
  {
    hide LifeOk, Lives, CreatedBy, PostedBy;
    BirthOk(c, now);
    BirthHistory(c, now);
    makers, posts := LivesHistory(Birth(c, now), [], [], [], envs, l);
    assert [] + envs == envs;
    ExpiryChangesOnce(Birth(c, now), envs, l);
  }

  lemma BirthHistory(c: Candidate, now: int)
    ensures CreatedBy(Birth(c, now), [], []) && PostedBy(Birth(c, now), [], [])
  {}
}
