/** One root of the certificate reporter: process and deliver of certificate_reporter.go,
    and what a root can do over its whole life. */
module CertificateRoot {
  import opened Common

  /** Times are nanoseconds since the zero time of package time. */
  const SECOND: int := 1_000_000_000
  const MILLISECOND: int := 1_000_000
  const LIFETIME: int := 300 * SECOND

  /** `n` times the 30 seconds between an acceptance and the next probe. */
  function Periods(n: int): int { 30_000_000_000 * n }

  function Truncate(t: int): int { t - t % SECOND }

  datatype Candidate = Candidate(hostname: string, issuer: string, leaf: string, cert: string, key: string)

  datatype TlsResult = Inconclusive | Alert | Invalid | Valid

  datatype Kind = Mismatch | Verification

  datatype Event = Event(
    kind: Kind, id: string, hostname: string, issuer: string, observedAt: int, checkedAt: int, result: TlsResult,
    leaf: string, cert: string, key: string, reportId: string, nonce: string, servedLeaf: string)

  datatype Acceptance = Acceptance(reportId: string, nonce: string, expiresAt: int)

  datatype Work = Work(
    candidate: Candidate, birth: int, expires: int, due: int, lastObservation: int,
    event: Option<Event>, attempts: nat, acceptance: Option<Acceptance>)

  datatype Probe = Probe(result: TlsResult, checkedAt: int, servedLeaf: string)

  /** What came of one POST.  `Accepted` is a well-formed body of a 202 answer. */
  datatype Response =
    | Unsendable | TransportError | Status(code: int) | BodyError | BodyTooLong | Malformed
    | Accepted(acceptance: Acceptance)

  /** Everything process meets on one call: the clock at its checkpoints, a cancellation
      before or during the probe, and the answers of probe, UUID, endpoint and jitter. */
  datatype Env = Env(
    start: int, probed: int, answered: int, end: int, cancelledAtStart: bool, cancelledInProbe: bool,
    probe: Probe, uuid: Option<string>, response: Response, jitter: Option<nat>)

  datatype Delivery = Delivery(acceptance: Option<Acceptance>, retry: bool)

  /** deliver, with the expiry window that parseCertificateAcceptance enforces. */
  function Deliver(r: Response, now: int): Delivery {
    match r
    case TransportError => Delivery(None, true)
    case Status(code) => Delivery(None, code == 429 || code == 503)
    case BodyError => Delivery(None, true)
    case Accepted(a) =>
      if now < a.expiresAt <= now + LIFETIME + 10 * SECOND then Delivery(Some(a), false) else Delivery(None, false)
    case _ => Delivery(None, false)
  }

  /** `created` and `sent` record what this call did. */
  datatype Outcome = Outcome(work: Work, keep: bool, created: bool, sent: bool)

  function NewEvent(w: Work, p: Probe, id: string): Event {
    var observed := Truncate(p.checkedAt);
    var valid := p.result == Valid;
    Event(if valid then Verification else Mismatch, id, w.candidate.hostname, w.candidate.issuer,
          if w.acceptance.None? then Truncate(w.birth) else observed, observed, p.result,
          if valid then "" else w.candidate.leaf, if valid then "" else w.candidate.cert,
          if valid then "" else w.candidate.key,
          if w.acceptance.None? then "" else w.acceptance.value.reportId,
          if w.acceptance.None? then "" else w.acceptance.value.nonce,
          if valid then p.servedLeaf else "")
  }

  function Process(w: Work, e: Env): Outcome {
    if e.cancelledAtStart || e.start >= w.expires then Outcome(w, false, false, false)
    else if w.event.Some? then Send(w, e, false)
    else if e.cancelledInProbe || e.probed >= w.expires then Outcome(w, false, false, false)
    else if e.probe.result == Inconclusive then
      if w.acceptance.None? then Outcome(w, false, false, false)
      else Outcome(w.(due := e.end + 30 * SECOND), true, false, false)
    else if e.probe.result == Valid && w.acceptance.None? then Outcome(w, false, false, false)
    else if Truncate(e.probe.checkedAt) <= w.lastObservation then
      Outcome(w.(due := e.end + SECOND), true, false, false)
    else if e.uuid.None? then Outcome(w, false, false, false)
    else
      Send(w.(lastObservation := Truncate(e.probe.checkedAt),
              event := Some(NewEvent(w, e.probe, e.uuid.value)), attempts := 0), e, true)
  }

  function Send(w: Work, e: Env, created: bool): Outcome {
    var w1 := w.(attempts := w.attempts + 1);
    var d := Deliver(e.response, e.answered);
    if d.acceptance.None? then
      if d.retry && w1.attempts < 3 && e.jitter.Some? then
        var due := e.end + (1000 + e.jitter.value) * MILLISECOND * w1.attempts;
        Outcome(w1.(due := due), due < w1.expires, created, true)
      else Outcome(w1, false, created, true)
    else if w1.acceptance.Some? && d.acceptance != w1.acceptance then Outcome(w1, false, created, true)
    else
      var a := d.acceptance.value;
      var expires := if w1.acceptance.None? && a.expiresAt < w1.expires then a.expiresAt else w1.expires;
      var w2 := w1.(acceptance := Some(a), expires := expires, event := None, due := e.end + 30 * SECOND);
      Outcome(w2, true, created, true)
  }

  // ----- the life of a root -----

  /** A root with its history: the events created and when, and for each delivery attempt
      the event sent and its number. */
  datatype Life = Life(
    work: Work, alive: bool, now: int, created: seq<Event>, createdAt: seq<int>, sent: seq<Event>, sentNo: seq<nat>)

  function Birth(c: Candidate, now: int): Life {
    Life(Work(c, now, now + LIFETIME, now, 0, None, 0, None), true, now, [], [], [], [])
  }

  /** The event that a call which sends one sends. */
  function SentEvent(w: Work, e: Env): Event
    requires Process(w, e).sent
  {
    if w.event.Some? then w.event.value else NewEvent(w, e.probe, e.uuid.value)
  }

  /** One call by a worker: the root is due, the clock does not run backwards. */
  ghost predicate Callable(l: Life, e: Env) {
    && l.alive && l.now <= e.start <= e.probed <= e.answered <= e.end && l.work.due <= e.start
    && (e.jitter.Some? ==> e.jitter.value < 1000)
  }

  function Live(l: Life, e: Env): Life {
    var o := Process(l.work, e);
    var created := if o.created && o.sent then l.created + [SentEvent(l.work, e)] else l.created;
    Life(o.work, o.keep && e.end < o.work.expires, e.end, created,
         if o.created then l.createdAt + [e.probed] else l.createdAt,
         if o.sent then l.sent + [SentEvent(l.work, e)] else l.sent,
         if o.sent && created != [] then l.sentNo + [|created| - 1] else l.sentNo)
  }

  ghost predicate Lives(l: Life, envs: seq<Env>, l': Life)
    decreases |envs|
  {
    if envs == [] then l' == l
    else Callable(l, envs[0]) && Lives(Live(l, envs[0]), envs[1..], l')
  }

  // ----- the invariant -----

  ghost predicate TimesOk(l: Life) { CreatedAtOk(l) && DueOk(l) }

  ghost predicate CreatedAtOk(l: Life) {
    && |l.createdAt| == |l.created|
    && (forall i :: 0 <= i < |l.createdAt| ==> l.work.birth + Periods(i) <= l.createdAt[i] < l.work.birth + LIFETIME)
    && (l.createdAt != [] ==> l.createdAt[|l.createdAt| - 1] <= l.now)
  }

  ghost predicate DueOk(l: Life) {
    && l.work.birth <= l.now && l.work.expires <= l.work.birth + LIFETIME && l.work.birth <= l.work.due
    && (l.alive && l.work.event.None? ==> l.work.birth + Periods(|l.created|) <= l.work.due)
  }

  ghost predicate EventsOk(l: Life) {
    && (l.work.event.Some? ==> l.created != [] && l.work.event.value == l.created[|l.created| - 1])
    && (l.alive && l.work.event.None? ==> (l.work.acceptance.None? <==> l.created == []))
    && (|l.created| > 1 ==> l.work.acceptance.Some?)
    && (forall i :: 0 <= i < |l.created| ==> EventOk(l.work, l.created[i], i))
    && (l.created != [] ==> l.created[|l.created| - 1].checkedAt == l.work.lastObservation)
    && (forall i, j :: 0 <= i < j < |l.created| ==> l.created[i].checkedAt < l.created[j].checkedAt)
  }

  /** The first event is a mismatch without report ID or nonce; every later one carries
      those of the acceptance. */
  ghost predicate EventOk(w: Work, e: Event, i: nat) {
    if i == 0 then e.kind == Mismatch && e.reportId == "" && e.nonce == ""
    else w.acceptance.Some? && e.reportId == w.acceptance.value.reportId && e.nonce == w.acceptance.value.nonce
  }

  /** Every attempt sends one of the created events, in order, and none more than three times. */
  ghost predicate SendsMatch(created: seq<Event>, sent: seq<Event>, sentNo: seq<nat>) {
    && |sent| == |sentNo| <= 3 * |created|
    && (forall j :: 0 <= j < |sent| ==> sentNo[j] < |created| && sent[j] == created[sentNo[j]])
    && (forall i, j :: 0 <= i < j < |sentNo| ==> sentNo[i] <= sentNo[j])
    && (forall j :: 0 <= j < |sentNo| - 3 ==> sentNo[j] < sentNo[j + 3])
  }

  ghost predicate SendsOk(l: Life) {
    && SendsMatch(l.created, l.sent, l.sentNo)
    && (l.alive && l.work.event.Some? ==>
          && 1 <= l.work.attempts <= 2 && l.work.attempts <= |l.sentNo|
          && |l.sent| <= 3 * (|l.created| - 1) + l.work.attempts
          && (forall j :: 0 <= j < |l.sentNo| - l.work.attempts ==> l.sentNo[j] < |l.created| - 1))
  }

  ghost predicate LifeOk(l: Life) { TimesOk(l) && EventsOk(l) && SendsOk(l) }

  lemma BirthOk(c: Candidate, now: int)
    ensures LifeOk(Birth(c, now))
  {}

  /** What one call does, as far as the invariant needs to know. */
  ghost predicate Turn(w: Work, e: Env, o: Outcome) {
    var w' := o.work;
    && ExpirySettles(w, w')
    && (w'.due == w.due || w'.due >= e.end) && (o.keep ==> w'.due >= e.end)
    && (o.created ==> o.sent && w.event.None? && e.probed < w.expires && e.uuid.Some?
                      && w'.lastObservation == NewEvent(w, e.probe, e.uuid.value).checkedAt > w.lastObservation)
    && (!o.created ==> w'.lastObservation == w.lastObservation)
    && (!o.sent ==> w'.event == w.event && w'.attempts == w.attempts && w'.acceptance == w.acceptance)
    && (o.sent && !o.created ==> w.event.Some?)
    && (o.sent && w'.event.Some? ==>
          && w'.event.value == (if o.created then NewEvent(w, e.probe, e.uuid.value) else w.event.value)
          && w'.attempts == (if o.created then 0 else w.attempts) + 1 && w'.acceptance == w.acceptance)
    && (o.keep && w'.event.Some? ==> o.sent && w'.attempts < 3)
    && (o.keep && o.sent && w'.event.None? ==> w'.acceptance.Some? && w'.due >= e.end + 30_000_000_000)
  }

  lemma ProcessTurns(w: Work, e: Env)
    requires e.jitter.Some? ==> e.jitter.value < 1000
    ensures Turn(w, e, Process(w, e))
  {
    ProcessSettles(w, e);
    if w.event.Some? { SendTurns(w, e, false); }
    else if e.uuid.Some? {
      SendTurns(w.(lastObservation := Truncate(e.probe.checkedAt),
                   event := Some(NewEvent(w, e.probe, e.uuid.value)), attempts := 0), e, true);
    }
  }

  lemma SendTurns(w: Work, e: Env, created: bool)
    ensures var o := Send(w, e, created);
      && o.sent && o.created == created && o.work.lastObservation == w.lastObservation
      && (o.work.due == w.due || o.work.due >= e.end) && (o.keep ==> o.work.due >= e.end)
      && (o.work.event.Some? ==>
            o.work.event == w.event && o.work.attempts == w.attempts + 1 && o.work.acceptance == w.acceptance)
      && (o.keep && o.work.event.Some? && w.event.Some? ==> o.work.attempts < 3)
      && (o.keep && o.work.event.None? && w.event.Some? ==>
            o.work.acceptance.Some? && o.work.due >= e.end + 30_000_000_000)
  {
    assert e.jitter.Some? ==> (1000 + e.jitter.value) * MILLISECOND * (w.attempts + 1) >= 0;
  }

  lemma LiveTimes(l: Life, e: Env)
    requires LifeOk(l) && Callable(l, e)
    ensures TimesOk(Live(l, e))
  {
    hide Process, Live, Callable, CreatedAtOk, DueOk, EventsOk, SendsOk;
    LiveCreatedAt(l, e);
    LiveDue(l, e);
  }

  lemma LiveCreatedAt(l: Life, e: Env)
    requires CreatedAtOk(l) && DueOk(l) && Callable(l, e)
    ensures CreatedAtOk(Live(l, e))
  {
    hide Process, SentEvent, Periods;
    ProcessTimes(l.work, e);
    assert forall i :: 0 <= i < |l.createdAt| ==> Live(l, e).createdAt[i] == l.createdAt[i];
  }

  lemma LiveDue(l: Life, e: Env)
    requires CreatedAtOk(l) && DueOk(l) && Callable(l, e)
    ensures DueOk(Live(l, e))
  {
    hide Process, SentEvent;
    ProcessTimes(l.work, e);
    assert l.created != [] ==> l.work.birth + Periods(|l.created| - 1) <= l.now;
  }

  /** What a turn does to the clock values of a root. */
  lemma ProcessTimes(w: Work, e: Env)
    requires e.jitter.Some? ==> e.jitter.value < 1000
    ensures var o := Process(w, e);
      && o.work.birth == w.birth && o.work.expires <= w.expires && (o.work.due == w.due || o.work.due >= e.end)
      && (o.created ==> o.sent && w.event.None? && e.probed < w.expires)
      && (o.keep ==> o.work.due >= e.end)
      && (!o.sent ==> o.work.event == w.event)
      && (o.keep && o.sent && o.work.event.None? ==> o.work.due >= e.end + 30_000_000_000)
  {
    hide Process, Send, NewEvent;
    ProcessTurns(w, e);
  }

  /** The event that a call creates, and what else the call does to acceptance and event. */
  lemma ProcessEvents(w: Work, e: Env)
    requires e.jitter.Some? ==> e.jitter.value < 1000
    ensures var o := Process(w, e);
      && ExpirySettles(w, o.work)
      && (o.created ==>
            && o.sent && w.event.None? && SentEvent(w, e).checkedAt == o.work.lastObservation > w.lastObservation
            && (w.acceptance.None? ==> EventOk(w, SentEvent(w, e), 0))
            && (w.acceptance.Some? ==> EventOk(w, SentEvent(w, e), 1)))
      && (!o.created ==> o.work.lastObservation == w.lastObservation)
      && (!o.sent ==> o.work.event == w.event && o.work.acceptance == w.acceptance)
      && (o.sent && o.work.event.Some? ==> o.work.event.value == SentEvent(w, e) && o.work.acceptance == w.acceptance)
      && (o.sent && !o.created ==> w.event == Some(SentEvent(w, e)))
      && (o.keep && o.sent && o.work.event.None? ==> o.work.acceptance.Some?)
  {
    ProcessTurns(w, e);
  }

  lemma LiveEvents(l: Life, e: Env)
    requires LifeOk(l) && Callable(l, e)
    ensures EventsOk(Live(l, e))
  {
    hide TimesOk, SendsOk, Process, SentEvent;
    var l' := Live(l, e);
    ProcessEvents(l.work, e);
    assert forall i :: 0 <= i < |l.created| ==> l'.created[i] == l.created[i];
    forall i | 0 <= i < |l'.created| ensures EventOk(l'.work, l'.created[i], i) {
      if i < |l.created| { assert EventOk(l.work, l.created[i], i); }
    }
  }

  lemma SendNewEvent(created: seq<Event>, sent: seq<Event>, sentNo: seq<nat>, e: Event)
    requires SendsMatch(created, sent, sentNo)
    ensures SendsMatch(created + [e], sent + [e], sentNo + [|created|])
  {}

  lemma SendAgain(created: seq<Event>, sent: seq<Event>, sentNo: seq<nat>, attempts: nat)
    requires SendsMatch(created, sent, sentNo) && created != [] && attempts <= 2
    requires |sent| <= 3 * (|created| - 1) + attempts
    requires forall j :: 0 <= j < |sentNo| - attempts ==> sentNo[j] < |created| - 1
    ensures SendsMatch(created, sent + [created[|created| - 1]], sentNo + [|created| - 1])
  {}

  lemma LiveSends(l: Life, e: Env)
    requires LifeOk(l) && Callable(l, e)
    ensures SendsOk(Live(l, e))
  {
    hide Process, Send, NewEvent, TimesOk, EventsOk, SendsOk, Live, Turn, SendsMatch;
    ProcessTurns(l.work, e);
    var o := Process(l.work, e);
    if o.created { LiveSendsNew(l, e); } else if o.sent { LiveSendsAgain(l, e); } else { LiveSendsNothing(l, e); }
  }

  lemma LiveSendsNothing(l: Life, e: Env)
    requires SendsOk(l) && Turn(l.work, e, Process(l.work, e))
    requires !Process(l.work, e).sent && !Process(l.work, e).created
    ensures SendsOk(Live(l, e))
  {
    hide Process, Send, NewEvent, SendsMatch, ExpirySettles;
  }

  lemma LiveSendsNew(l: Life, e: Env)
    requires SendsOk(l) && Turn(l.work, e, Process(l.work, e)) && Process(l.work, e).created
    ensures SendsOk(Live(l, e))
  {
    hide Process, Send, NewEvent, SendsMatch, ExpirySettles;
    SendNewEvent(l.created, l.sent, l.sentNo, SentEvent(l.work, e));
    SentNosInRange(l);
  }

  lemma LiveSendsAgain(l: Life, e: Env)
    requires l.alive && EventsOk(l) && SendsOk(l) && Turn(l.work, e, Process(l.work, e))
    requires Process(l.work, e).sent && !Process(l.work, e).created
    ensures SendsOk(Live(l, e))
  {
    hide Process, Send, NewEvent, SendsMatch, ExpirySettles, EventOk;
    SendAgain(l.created, l.sent, l.sentNo, l.work.attempts);
  }

  lemma SentNosInRange(l: Life)
    requires SendsOk(l)
    ensures |l.sent| == |l.sentNo| <= 3 * |l.created|
    ensures forall j :: 0 <= j < |l.sentNo| ==> l.sentNo[j] < |l.created|
  {}

  lemma {:induction false} LivesOk(l: Life, envs: seq<Env>, l': Life)
    requires LifeOk(l) && Lives(l, envs, l')
    ensures LifeOk(l')
    decreases |envs|
  {
    hide TimesOk, EventsOk, SendsOk, Live, Callable;
    if envs != [] {
      LiveTimes(l, envs[0]);
      LiveEvents(l, envs[0]);
      LiveSends(l, envs[0]);
      LivesOk(Live(l, envs[0]), envs[1..], l');
    }
  }

  /** Over its whole life a root creates at most 10 events and makes at most 30 delivery
      attempts, at most three per event, each resending that very event. */
  lemma AtMostTenEvents(c: Candidate, now: int, envs: seq<Env>, l: Life)
    requires Lives(Birth(c, now), envs, l)
    ensures |l.created| <= 10 && |l.sent| <= 30
    ensures SendsMatch(l.created, l.sent, l.sentNo)
  {
    BirthOk(c, now);
    LivesOk(Birth(c, now), envs, l);
    if |l.created| > 0 {
      var n := |l.created| - 1;
      assert l.work.birth + Periods(n) <= l.createdAt[n] < l.work.birth + LIFETIME;
    }
  }

  /** The events of a root: the first is a mismatch without report ID and nonce, so a
      verification is never first; all later ones carry the one acceptance; the times of
      the probes strictly increase. */
  lemma EventShapes(c: Candidate, now: int, envs: seq<Env>, l: Life)
    requires Lives(Birth(c, now), envs, l)
    ensures forall i :: 0 <= i < |l.created| ==> EventOk(l.work, l.created[i], i)
    ensures forall i, j :: 0 <= i < j < |l.created| ==> l.created[i].checkedAt < l.created[j].checkedAt
    ensures forall i :: 0 <= i < |l.created| && l.created[i].kind == Verification ==> i > 0 && l.work.acceptance.Some?
  {
    BirthOk(c, now);
    LivesOk(Birth(c, now), envs, l);
    assert forall i :: 0 <= i < |l.created| ==> EventOk(l.work, l.created[i], i);
  }

  // ----- the times of observation -----

  /** A probe that comes to a result reads the clock after its start, to the second. */
  ghost predicate ProbedInTime(e: Env) {
    e.probe.result != Inconclusive ==> Truncate(e.start) <= Truncate(e.probe.checkedAt)
  }

  lemma TruncateMono(s: int, t: int)
    requires s <= t
    ensures Truncate(s) <= Truncate(t)
  {
    assert s == SECOND * (s / SECOND) + s % SECOND && t == SECOND * (t / SECOND) + t % SECOND;
  }

  /** The first event says when the root was born, every later one when it was probed. */
  ghost predicate ObservedOk(l: Life) {
    && (forall i :: 1 <= i < |l.created| ==> l.created[i].observedAt == l.created[i].checkedAt)
    && (l.created != [] ==> l.created[0].observedAt == Truncate(l.work.birth) <= l.created[0].checkedAt)
  }

  /** What a call that creates an event puts into it. */
  lemma CreatedEvent(l: Life, e: Env)
    requires Process(l.work, e).created
    ensures var w, ev := l.work, SentEvent(l.work, e);
      && Process(w, e).sent && w.event.None? && e.probe.result != Inconclusive
      && ev.checkedAt == Truncate(e.probe.checkedAt)
      && ev.observedAt == if w.acceptance.None? then Truncate(w.birth) else ev.checkedAt
  {}

  lemma LiveObserved(l: Life, e: Env)
    requires LifeOk(l) && Callable(l, e) && ProbedInTime(e) && ObservedOk(l)
    ensures ObservedOk(Live(l, e))
  {
    hide Process, Send, NewEvent, SendsOk, SentEvent;
    ProcessSettles(l.work, e);
    var l' := Live(l, e);
    assert forall i :: 0 <= i < |l.created| ==> l'.created[i] == l.created[i];
    if Process(l.work, e).created {
      CreatedEvent(l, e);
      TruncateMono(l.work.birth, e.start);
    }
  }

  lemma {:induction false} LivesObserved(l: Life, envs: seq<Env>, l': Life)
    requires LifeOk(l) && Lives(l, envs, l') && ObservedOk(l) && forall i :: 0 <= i < |envs| ==> ProbedInTime(envs[i])
    ensures ObservedOk(l')
    decreases |envs|
  {
    hide LifeOk, ObservedOk, Live, Callable;
    if envs != [] {
      LiveObserved(l, envs[0]);
      LivesOk(l, envs[..1], Live(l, envs[0]));
      LivesObserved(Live(l, envs[0]), envs[1..], l');
    }
  }

  /** The observation times of the events strictly increase: the first event carries the
      birth of the root, which is not after its probe. */
  lemma ObservationTimesIncrease(c: Candidate, now: int, envs: seq<Env>, l: Life)
    requires Lives(Birth(c, now), envs, l) && forall i :: 0 <= i < |envs| ==> ProbedInTime(envs[i])
    ensures forall i, j :: 0 <= i < j < |l.created| ==> l.created[i].observedAt < l.created[j].observedAt
  {
    BirthOk(c, now);
    LivesObserved(Birth(c, now), envs, l);
    EventShapes(c, now, envs, l);
  }

  // ----- the expiry -----

  /** The expiry only ever moves down, moves only with the first acceptance, and the
      acceptance, once there, stays. */
  ghost predicate ExpirySettles(w: Work, w': Work) {
    && w'.candidate == w.candidate && w'.birth == w.birth && w'.expires <= w.expires
    && (w.acceptance.Some? ==> w'.acceptance == w.acceptance && w'.expires == w.expires)
    && (w'.expires != w.expires ==> w'.acceptance.Some? && w'.expires == w'.acceptance.value.expiresAt)
  }

  lemma ProcessSettles(w: Work, e: Env)
    ensures ExpirySettles(w, Process(w, e).work)
  {}

  lemma {:induction false} ExpiryChangesOnce(l: Life, envs: seq<Env>, l': Life)
    requires Lives(l, envs, l')
    ensures ExpirySettles(l.work, l'.work)
    decreases |envs|
  {
    if envs != [] {
      ProcessSettles(l.work, envs[0]);
      ExpiryChangesOnce(Live(l, envs[0]), envs[1..], l');
    }
  }

  lemma ExpiryBound(c: Candidate, now: int, envs: seq<Env>, l: Life)
    requires Lives(Birth(c, now), envs, l)
    ensures l.work.birth == now && l.work.expires <= now + LIFETIME
    ensures l.work.expires != now + LIFETIME ==>
              l.work.acceptance.Some? && l.work.expires == l.work.acceptance.value.expiresAt
  {
    ExpiryChangesOnce(Birth(c, now), envs, l);
  }

  // ----- the object whose fields process updates -----

  class CertificateWork {
    const candidate: Candidate
    const birth: int
    var expires: int
    var due: int
    var lastObservation: int
    var event: Option<Event>
    var attempts: nat
    var acceptance: Option<Acceptance>

    constructor (c: Candidate, now: int)
      ensures View() == Birth(c, now).work
      ensures candidate == c && birth == now && due == now && expires == now + 300_000_000_000
      ensures event.None? && acceptance.None? && attempts == 0
    {
      candidate, birth, expires, due := c, now, now + LIFETIME, now;
      lastObservation, event, attempts, acceptance := 0, None, 0, None;
    }

    function View(): Work
      reads this
    {
      Work(candidate, birth, expires, due, lastObservation, event, attempts, acceptance)
    }

    /** process; `posted` is the event it sends, if it comes to that. */
    method Handle(e: Env) returns (keep: bool, posted: Option<Event>)
      modifies this
      ensures View() == Process(old(View()), e).work && keep == Process(old(View()), e).keep
      ensures posted.Some? <==> Process(old(View()), e).sent
      ensures posted.Some? ==> posted == Some(SentEvent(old(View()), e))
    {
      posted := None;
      if e.cancelledAtStart || e.start >= expires { return false, posted; }
      if event.None? {
        if e.cancelledInProbe || e.probed >= expires { return false, posted; }
        if e.probe.result == Inconclusive {
          if acceptance.None? { return false, posted; }
          due := e.end + 30 * SECOND;
          return true, posted;
        }
        if e.probe.result == Valid && acceptance.None? { return false, posted; }
        var observed := Truncate(e.probe.checkedAt);
        if observed <= lastObservation {
          due := e.end + SECOND;
          return true, posted;
        }
        if e.uuid.None? { return false, posted; }
        event := Some(NewEvent(View(), e.probe, e.uuid.value));
        lastObservation, attempts := observed, 0;
      }
      attempts, posted := attempts + 1, event;
      var d := Deliver(e.response, e.answered);
      if d.acceptance.None? {
        if d.retry && attempts < 3 && e.jitter.Some? {
          due := e.end + (1000 + e.jitter.value) * MILLISECOND * attempts;
          return due < expires, posted;
        }
        return false, posted;
      }
      if acceptance.Some? && d.acceptance != acceptance { return false, posted; }
      if acceptance.None? {
        acceptance := d.acceptance;
        if d.acceptance.value.expiresAt < expires { expires := d.acceptance.value.expiresAt; }
      }
      event := None;
      due := e.end + 30 * SECOND;
      return true, posted;
    }
  }
}
