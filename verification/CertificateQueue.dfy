/** The bounded queue of the certificate reporter: work and dedupe tables behind one mutex,
    two workers, and stop.  Every step of the transition system is one critical section or
    one unlocked check of certificate_reporter.go. */
module CertificateQueue {
  import opened Common
  import opened CertificateRoot

  const QUEUE_CAPACITY: nat := 256
  const DEDUPE_CAPACITY: nat := 1024

  /** A root in the work table.  `id` tells apart the roots a hostname had over time. */
  datatype Entry = Entry(work: Work, busy: bool, id: nat)

  /** A worker: not started, at the top of its loop, past its context check, processing a
      root without the mutex, or returned. */
  datatype Worker = Absent | Top | Passed | Busy(host: string, id: nat) | Exited

  datatype Stop = Running | Cancelled | Joined | Stopped

  /** An admitted candidate.  The dedupe key is a hash of the candidate; hashing is taken
      to be injective, so the candidate itself is the key. */
  datatype Admission = Admission(key: Candidate, time: int)

  datatype State = State(
    now: int, cancelled: bool, holder: Option<Candidate>, work: map<string, Entry>, dedupe: map<Candidate, int>,
    workers: seq<Worker>, stop: Stop, nextId: nat, log: seq<Admission>)

  function Init(now: int): State {
    State(now, false, None, map[], map[], [Absent, Absent], Running, 0, [])
  }

  datatype Step =
    | Tick(t: int)                              // the clock
    | Enter(c: Candidate, valid: bool)          // TryEnqueue takes the mutex and passes or fails its checks
    | Insert(victim: Candidate)                 // ... and does its work and releases the mutex
    | Start                                     // start
    | Check(i: nat)                             // a worker looks at the context
    | Pick(i: nat, choice: Option<string>)      // a worker prunes and selects
    | Finish(i: nat, after: Work, keep: bool)   // a worker is back from process
    | Cancel | Join | Clear                     // stop

  // ----- the critical sections -----

  function PruneDedupe(d: map<Candidate, int>, now: int): map<Candidate, int> {
    map k | k in d && now < d[k] :: d[k]
  }

  function PruneWork(w: map<string, Entry>, now: int): map<string, Entry> {
    map h | h in w && (w[h].busy || now < w[h].work.expires) :: w[h]
  }

  predicate Earliest(d: map<Candidate, int>, k: Candidate) {
    k in d && forall k' :: k' in d ==> d[k] <= d[k']
  }

  predicate Eligible(w: map<string, Entry>, h: string, now: int) {
    h in w && !w[h].busy && w[h].work.due <= now
  }

  /** The second half of TryEnqueue for candidate `c`. */
  function Enqueue(s: State, c: Candidate, victim: Candidate): State {
    var d, w := PruneDedupe(s.dedupe, s.now), PruneWork(s.work, s.now);
    if c.hostname in w || c in d || |w| >= QUEUE_CAPACITY then s.(dedupe := d, work := w, holder := None)
    else
      var d1 := if |d| >= DEDUPE_CAPACITY then d - {victim} else d;
      s.(dedupe := d1[c := s.now + LIFETIME],
         work := w[c.hostname := Entry(Birth(c, s.now).work, false, s.nextId)],
         nextId := s.nextId + 1, holder := None, log := s.log + [Admission(c, s.now)])
  }

  ghost predicate Enabled(s: State, step: Step) {
    match step
    case Tick(t) => s.now <= t
    case Enter(_, _) => s.holder.None?
    case Insert(victim) =>
      s.holder.Some? &&
      var d := PruneDedupe(s.dedupe, s.now);
      |d| >= DEDUPE_CAPACITY ==> Earliest(d, victim)
    case Start => s.stop.Running? || s.stop.Stopped?
    case Check(i) => i < |s.workers| && s.workers[i].Top?
    case Pick(i, choice) =>
      && i < |s.workers| && s.workers[i].Passed? && s.holder.None?
      && var w := PruneWork(s.work, s.now);
         if choice.None? then forall h :: !Eligible(w, h, s.now)
         else
           && Eligible(w, choice.value, s.now)
           && forall h :: Eligible(w, h, s.now) ==> w[choice.value].work.due <= w[h].work.due
    case Finish(i, after, _) =>
      && i < |s.workers| && s.workers[i].Busy? && s.holder.None?
      && (s.workers[i].host in s.work ==> ExpirySettles(s.work[s.workers[i].host].work, after))
    case Cancel => s.stop.Running?
    case Join => s.stop.Cancelled? && forall i :: 0 <= i < |s.workers| ==> s.workers[i].Absent? || s.workers[i].Exited?
    case Clear => s.stop.Joined? && s.holder.None?
  }

  /** Finish deletes by hostname, as the source does; otherwise it releases its own root. */
  function FinishWork(s: State, h: string, id: nat, after: Work, keep: bool): map<string, Entry> {
    if !keep || s.cancelled || s.now >= after.expires then s.work - {h}
    else if h in s.work && s.work[h].id == id then s.work[h := Entry(after, false, id)]
    else s.work
  }

  function Do(s: State, step: Step): State
    requires Enabled(s, step)
  {
    match step
    case Tick(t) => s.(now := t)
    case Enter(c, valid) => if s.cancelled || !valid then s else s.(holder := Some(c))
    case Insert(victim) => Enqueue(s, s.holder.value, victim)
    case Start =>
      if s.cancelled || exists i :: 0 <= i < |s.workers| && !s.workers[i].Absent? then s
      else s.(workers := seq(|s.workers|, i => Top))
    case Check(i) => s.(workers := s.workers[i := if s.cancelled then Exited else Passed])
    case Pick(i, choice) =>
      var d, w := PruneDedupe(s.dedupe, s.now), PruneWork(s.work, s.now);
      if choice.None? then s.(dedupe := d, work := w, workers := s.workers[i := Top])
      else
        var h := choice.value;
        s.(dedupe := d, work := w[h := w[h].(busy := true)], workers := s.workers[i := Busy(h, w[h].id)])
    case Finish(i, after, keep) =>
      s.(work := FinishWork(s, s.workers[i].host, s.workers[i].id, after, keep), workers := s.workers[i := Top])
    case Cancel => s.(cancelled := true, stop := Cancelled)
    case Join => s.(stop := Joined)
    case Clear => s.(work := map[], dedupe := map[], stop := Stopped)
  }

  ghost predicate Reaches(s: State, steps: seq<Step>, t: State)
    decreases |steps|
  {
    if steps == [] then t == s else Enabled(s, steps[0]) && Reaches(Do(s, steps[0]), steps[1..], t)
  }

  // ----- what every state satisfies -----

  type Works = map<string, Entry>
  type Dedupe = map<Candidate, int>
  type Log = seq<Admission>

  ghost predicate Bounded(work: Works, dedupe: Dedupe) { |work| <= QUEUE_CAPACITY && |dedupe| <= DEDUPE_CAPACITY }

  predicate Owns(work: Works, w: Worker)
    requires w.Busy?
  {
    w.host in work && work[w.host].busy && work[w.host].id == w.id
  }

  /** Each busy worker owns the root of its hostname in the table, each busy root has a
      worker, and no root has two. */
  ghost predicate Owned(work: Works, workers: seq<Worker>, nextId: nat) {
    && |workers| == 2
    && (forall i :: 0 <= i < |workers| && workers[i].Busy? ==> Owns(work, workers[i]))
    && (forall i, j :: 0 <= i < j < |workers| && workers[i].Busy? && workers[j].Busy? ==>
                         workers[i].host != workers[j].host)
    && (forall h :: h in work && work[h].busy ==> Busy(h, work[h].id) in workers)
    && (forall h :: h in work ==> work[h].id < nextId && work[h].work.candidate.hostname == h)
    && (forall h, h' :: h in work && h' in work && work[h].id == work[h'].id ==> h == h')
  }

  predicate Idle(w: Worker) { w.Absent? || w.Exited? }

  ghost predicate StopOk(s: State) {
    && (!s.stop.Running? ==> s.cancelled)
    && (s.stop.Joined? || s.stop.Stopped? ==> forall i :: 0 <= i < |s.workers| ==> Idle(s.workers[i]))
    && (s.stop.Stopped? ==> s.work == map[] && s.dedupe == map[] && s.holder.None?)
  }

  /** The log is in order of time, and every dedupe entry comes from it. */
  ghost predicate LogOk(dedupe: Dedupe, log: Log, now: int) {
    && (forall i, j :: 0 <= i <= j < |log| ==> log[i].time <= log[j].time)
    && (forall i :: 0 <= i < |log| ==> log[i].time <= now)
    && (forall k :: k in dedupe ==> Admission(k, dedupe[k] - LIFETIME) in log)
  }

  /** The other candidates admitted from instant `t` on. */
  ghost function Others(log: Log, c: Candidate, t: int): set<Candidate> {
    set i | 0 <= i < |log| && log[i].key != c && log[i].time >= t :: log[i].key
  }

  /** An admission is in the dedupe table until its lifetime is over. */
  predicate Held(dedupe: Dedupe, a: Admission) {
    a.key in dedupe && dedupe[a.key] >= a.time + LIFETIME
  }

  /** An admission younger than the lifetime is still held, unless 1024 others came. */
  ghost predicate Remembered(dedupe: Dedupe, log: Log, now: int) {
    forall i :: 0 <= i < |log| && now < log[i].time + LIFETIME ==>
      Held(dedupe, log[i]) || |Others(log, log[i].key, log[i].time)| >= DEDUPE_CAPACITY
  }

  /** No candidate was admitted again within the lifetime before 1024 others were. */
  ghost predicate NoEarlyRepeat(log: Log) {
    forall i, j :: 0 <= i < j < |log| && log[i].key == log[j].key && log[j].time < log[i].time + LIFETIME ==>
      |Others(log[..j], log[i].key, log[i].time)| >= DEDUPE_CAPACITY
  }

  ghost predicate QueueOk(s: State) {
    && Bounded(s.work, s.dedupe) && Owned(s.work, s.workers, s.nextId) && StopOk(s)
    && LogOk(s.dedupe, s.log, s.now) && NoEarlyRepeat(s.log)
    && (s.stop.Stopped? || Remembered(s.dedupe, s.log, s.now))
  }

  // ----- maps and sets -----

  lemma SubsetCount<T>(a: set<T>, b: set<T>)
    requires a <= b
    ensures |a| <= |b|
    decreases b
  {
    if a != {} {
      var x :| x in a;
      SubsetCount(a - {x}, b - {x});
    }
  }

  lemma SmallerMap<K, V>(a: map<K, V>, b: map<K, V>)
    requires a.Keys <= b.Keys
    ensures |a| <= |b|
  {
    SubsetCount(a.Keys, b.Keys);
  }

  lemma OneMore<K, V>(a: map<K, V>, k: K, v: V)
    ensures |a[k := v]| == if k in a then |a| else |a| + 1
    ensures k in a ==> |a - {k}| == |a| - 1
  {
    assert a[k := v].Keys == a.Keys + {k} && (a - {k}).Keys == a.Keys - {k};
  }

  lemma OthersGrow(log: Log, more: Admission, c: Candidate, t: int)
    ensures |Others(log, c, t)| <= |Others(log + [more], c, t)|
  {
    var big := log + [more];
    forall x | x in Others(log, c, t) ensures x in Others(big, c, t) {
      var i :| 0 <= i < |log| && log[i].key != c && log[i].time >= t && log[i].key == x;
      assert big[i] == log[i];
    }
    SubsetCount(Others(log, c, t), Others(big, c, t));
  }

  // ----- the work table -----

  lemma OwnedPrune(work: Works, workers: seq<Worker>, nextId: nat, now: int)
    requires Owned(work, workers, nextId)
    ensures Owned(PruneWork(work, now), workers, nextId)
  {
    forall i | 0 <= i < |workers| && workers[i].Busy? ensures Owns(PruneWork(work, now), workers[i]) {
      assert Owns(work, workers[i]);
    }
  }

  lemma OwnedInsert(work: Works, workers: seq<Worker>, nextId: nat, h: string, w: Work)
    requires Owned(work, workers, nextId) && h !in work && w.candidate.hostname == h
    ensures Owned(work[h := Entry(w, false, nextId)], workers, nextId + 1)
  {
    var work' := work[h := Entry(w, false, nextId)];
    forall i | 0 <= i < |workers| && workers[i].Busy? ensures Owns(work', workers[i]) { assert Owns(work, workers[i]); }
  }

  /** A worker that is not processing changes its place in the loop. */
  lemma OwnedMove(work: Works, workers: seq<Worker>, nextId: nat, i: nat, w: Worker)
    requires Owned(work, workers, nextId) && i < |workers| && !workers[i].Busy? && !w.Busy?
    ensures Owned(work, workers[i := w], nextId)
  {
    var workers' := workers[i := w];
    forall j | 0 <= j < |workers'| && workers'[j].Busy? ensures Owns(work, workers'[j]) {
      assert Owns(work, workers[j]);
    }
    forall h | h in work && work[h].busy ensures Busy(h, work[h].id) in workers' {
      var j :| 0 <= j < |workers| && workers[j] == Busy(h, work[h].id);
      assert workers'[j] == workers[j];
    }
  }

  lemma OwnedPick(work: Works, workers: seq<Worker>, nextId: nat, i: nat, h: string)
    requires Owned(work, workers, nextId) && i < |workers| && !workers[i].Busy? && h in work && !work[h].busy
    ensures Owned(work[h := work[h].(busy := true)], workers[i := Busy(h, work[h].id)], nextId)
  {
    var work', workers' := work[h := work[h].(busy := true)], workers[i := Busy(h, work[h].id)];
    forall j | 0 <= j < |workers'| && workers'[j].Busy? ensures Owns(work', workers'[j]) {
      if j != i { assert Owns(work, workers[j]); }
    }
    forall j, l | 0 <= j < l < |workers'| && workers'[j].Busy? && workers'[l].Busy?
      ensures workers'[j].host != workers'[l].host
    {
      if j == i { assert Owns(work, workers[l]); } else if l == i { assert Owns(work, workers[j]); }
    }
    forall g | g in work' && work'[g].busy ensures Busy(g, work'[g].id) in workers' {
      if g == h { assert workers'[i] == Busy(h, work'[h].id); }
      else {
        var j :| 0 <= j < |workers| && workers[j] == Busy(g, work[g].id);
        assert workers'[j] == workers[j];
      }
    }
  }

  /** A worker comes back: its hostname still names its own root, so releasing or deleting
      by hostname touches no other root. */
  lemma OwnedFinish(work: Works, work': Works, workers: seq<Worker>, nextId: nat, i: nat, after: Work)
    requires Owned(work, workers, nextId) && i < |workers| && workers[i].Busy?
    requires var h := workers[i].host;
      || work' == work - {h}
      || (&& h in work && after.candidate == work[h].work.candidate
          && work' == work[h := Entry(after, false, workers[i].id)])
    ensures Owned(work', workers[i := Top], nextId)
  {
    var w, workers' := workers[i], workers[i := Top];
    assert Owns(work, w);
    forall j | 0 <= j < |workers'| && workers'[j].Busy? ensures Owns(work', workers'[j]) {
      assert workers'[j] == workers[j] && Owns(work, workers[j]);
      assert workers[j].host != w.host;
    }
    forall g | g in work' && work'[g].busy ensures Busy(g, work'[g].id) in workers' {
      var j :| 0 <= j < |workers| && workers[j] == Busy(g, work[g].id);
      assert workers'[j] == workers[j];
    }
  }

  // ----- the dedupe table -----

  lemma PruneKeeps(d: Dedupe, log: Log, now: int)
    requires LogOk(d, log, now)
    ensures LogOk(PruneDedupe(d, now), log, now)
    ensures Remembered(d, log, now) ==> Remembered(PruneDedupe(d, now), log, now)
  {
    hide Others;
  }

  lemma AdmitLog(d: Dedupe, log: Log, now: int, drop: set<Candidate>, c: Candidate)
    requires LogOk(d, log, now)
    ensures LogOk((d - drop)[c := now + LIFETIME], log + [Admission(c, now)], now)
  {
    var d', log' := (d - drop)[c := now + LIFETIME], log + [Admission(c, now)];
    forall k | k in d' ensures Admission(k, d'[k] - LIFETIME) in log' {
      if k == c { assert log'[|log|] == Admission(k, d'[k] - LIFETIME); }
      else {
        var i :| 0 <= i < |log| && log[i] == Admission(k, d[k] - LIFETIME);
        assert log'[i] == log[i];
      }
    }
  }

  /** Evicting the earliest entry: all the others were admitted no earlier, so with the new
      one they are 1024. */
  lemma EvictedMeansMany(d: Dedupe, log: Log, now: int, f: Candidate, c: Candidate, t: int)
    requires LogOk(d, log, now) && |d| >= DEDUPE_CAPACITY && Earliest(d, f)
    requires t + LIFETIME <= d[f] && c !in d && t <= now
    ensures |Others(log + [Admission(c, now)], f, t)| >= DEDUPE_CAPACITY
  {
    var log' := log + [Admission(c, now)];
    var many := d.Keys - {f} + {c};
    forall k | k in many ensures k in Others(log', f, t) { ManyIsOther(d, log, now, f, c, t, k); }
    assert |d.Keys - {f}| == |d| - 1;
    SubsetCount(many, Others(log', f, t));
  }

  lemma ManyIsOther(d: Dedupe, log: Log, now: int, f: Candidate, c: Candidate, t: int, k: Candidate)
    requires LogOk(d, log, now) && Earliest(d, f) && t + LIFETIME <= d[f] && c !in d && t <= now
    requires k == c || (k in d && k != f)
    ensures k in Others(log + [Admission(c, now)], f, t)
  {
    var log' := log + [Admission(c, now)];
    if k == c { assert log'[|log|].key == c; }
    else {
      var i :| 0 <= i < |log| && log[i] == Admission(k, d[k] - LIFETIME);
      assert log'[i] == log[i] && d[f] <= d[k];
    }
  }

  lemma AdmitRemembered(d: Dedupe, d1: Dedupe, log: Log, now: int, victim: Candidate, c: Candidate)
    requires LogOk(d, log, now) && Remembered(d, log, now) && c !in d
    requires |d| >= DEDUPE_CAPACITY ==> Earliest(d, victim)
    requires d1 == if |d| >= DEDUPE_CAPACITY then d - {victim} else d
    ensures Remembered(d1[c := now + LIFETIME], log + [Admission(c, now)], now)
  {
    hide Others, LogOk;
    var d', log' := d1[c := now + LIFETIME], log + [Admission(c, now)];
    forall i | 0 <= i < |log'| && now < log'[i].time + LIFETIME
      ensures Held(d', log'[i]) || |Others(log', log'[i].key, log'[i].time)| >= DEDUPE_CAPACITY
    {
      if i < |log| {
        assert log[i].time <= now by { LogInPast(d, log, now, i); }
        OthersGrow(log, Admission(c, now), log[i].key, log[i].time);
        if Held(d, log[i]) && log[i].key == victim && |d| >= DEDUPE_CAPACITY {
          EvictedMeansMany(d, log, now, victim, c, log[i].time);
        }
      }
    }
  }

  lemma LogInPast(d: Dedupe, log: Log, now: int, i: nat)
    requires LogOk(d, log, now) && i < |log|
    ensures log[i].time <= now
  {}

  lemma AdmitNoRepeat(d: Dedupe, log: Log, now: int, c: Candidate)
    requires Remembered(d, log, now) && NoEarlyRepeat(log) && c !in d
    ensures NoEarlyRepeat(log + [Admission(c, now)])
  {
    hide Others;
    var log' := log + [Admission(c, now)];
    forall i, j | 0 <= i < j < |log'| && log'[i].key == log'[j].key && log'[j].time < log'[i].time + LIFETIME
      ensures |Others(log'[..j], log'[i].key, log'[i].time)| >= DEDUPE_CAPACITY
    {
      assert log'[..j] == log[..j];
      if j == |log| { assert log[..j] == log && !Held(d, log[i]); }
    }
  }

  // ----- every step keeps the invariant -----

  lemma InsertKeeps(s: State, victim: Candidate)
    requires QueueOk(s) && s.holder.Some?
    requires |PruneDedupe(s.dedupe, s.now)| >= DEDUPE_CAPACITY ==> Earliest(PruneDedupe(s.dedupe, s.now), victim)
    ensures QueueOk(Enqueue(s, s.holder.value, victim))
  {
    hide PruneDedupe, PruneWork, Owned, LogOk, Remembered, NoEarlyRepeat, Others, Earliest, Birth;
    var c := s.holder.value;
    var p := s.(dedupe := PruneDedupe(s.dedupe, s.now), work := PruneWork(s.work, s.now));
    PruneSizes(s);
    OwnedPrune(s.work, s.workers, s.nextId, s.now);
    PruneKeeps(s.dedupe, s.log, s.now);
    if !(c.hostname in p.work || c in p.dedupe || |p.work| >= QUEUE_CAPACITY) { AdmitKeeps(p, c, victim); }
  }

  /** Admitting a candidate into tables that are pruned. */
  lemma AdmitKeeps(p: State, c: Candidate, victim: Candidate)
    requires Bounded(p.work, p.dedupe) && Owned(p.work, p.workers, p.nextId) && LogOk(p.dedupe, p.log, p.now)
    requires NoEarlyRepeat(p.log) && Remembered(p.dedupe, p.log, p.now)
    requires |p.dedupe| >= DEDUPE_CAPACITY ==> Earliest(p.dedupe, victim)
    requires c.hostname !in p.work && c !in p.dedupe && |p.work| < QUEUE_CAPACITY
    ensures var d1 := if |p.dedupe| >= DEDUPE_CAPACITY then p.dedupe - {victim} else p.dedupe;
      var d2, w2, log2 := d1[c := p.now + LIFETIME],
        p.work[c.hostname := Entry(Birth(c, p.now).work, false, p.nextId)], p.log + [Admission(c, p.now)];
      && Bounded(w2, d2) && Owned(w2, p.workers, p.nextId + 1) && LogOk(d2, log2, p.now)
      && NoEarlyRepeat(log2) && Remembered(d2, log2, p.now)
  {
    hide Owned, LogOk, Remembered, NoEarlyRepeat, Others, Earliest;
    var d := p.dedupe;
    var out := if |d| >= DEDUPE_CAPACITY then {victim} else {};
    var d1 := if |d| >= DEDUPE_CAPACITY then d - {victim} else d;
    assert d1 == d - out;
    InsertSizes(p.work, d, d1, c, victim, Entry(Birth(c, p.now).work, false, p.nextId), p.now + LIFETIME);
    OwnedInsert(p.work, p.workers, p.nextId, c.hostname, Birth(c, p.now).work);
    AdmitLog(d, p.log, p.now, out, c);
    AdmitRemembered(d, d1, p.log, p.now, victim, c);
    AdmitNoRepeat(d, p.log, p.now, c);
  }

  lemma PruneSizes(s: State)
    requires Bounded(s.work, s.dedupe)
    ensures Bounded(PruneWork(s.work, s.now), PruneDedupe(s.dedupe, s.now))
  {
    SmallerMap(PruneDedupe(s.dedupe, s.now), s.dedupe);
    SmallerMap(PruneWork(s.work, s.now), s.work);
  }

  lemma InsertSizes(w: Works, d: Dedupe, d1: Dedupe, c: Candidate, victim: Candidate, e: Entry, t: int)
    requires |w| < QUEUE_CAPACITY && |d| <= DEDUPE_CAPACITY && c.hostname !in w && c !in d
    requires |d| >= DEDUPE_CAPACITY ==> Earliest(d, victim)
    requires d1 == if |d| >= DEDUPE_CAPACITY then d - {victim} else d
    ensures Bounded(w[c.hostname := e], d1[c := t])
  {
    OneMore(w, c.hostname, e);
    OneMore(d, victim, t);
    OneMore(d1, c, t);
  }

  lemma PickKeeps(s: State, i: nat, choice: Option<string>)
    requires QueueOk(s) && Enabled(s, Pick(i, choice))
    ensures QueueOk(Do(s, Pick(i, choice)))
  {
    hide PruneDedupe, PruneWork, Owned, LogOk, Remembered, NoEarlyRepeat, Others;
    var w := PruneWork(s.work, s.now);
    PruneSizes(s);
    OwnedPrune(s.work, s.workers, s.nextId, s.now);
    PruneKeeps(s.dedupe, s.log, s.now);
    if choice.None? { OwnedMove(w, s.workers, s.nextId, i, Top); }
    else {
      OwnedPick(w, s.workers, s.nextId, i, choice.value);
      OneMore(w, choice.value, w[choice.value].(busy := true));
    }
    PickStop(s, i, choice);
  }

  lemma PickStop(s: State, i: nat, choice: Option<string>)
    requires StopOk(s) && Enabled(s, Pick(i, choice))
    ensures StopOk(Do(s, Pick(i, choice)))
  {
    hide PruneDedupe, PruneWork;
    assert !Idle(s.workers[i]);
  }

  lemma FinishKeeps(s: State, i: nat, after: Work, keep: bool)
    requires QueueOk(s) && Enabled(s, Finish(i, after, keep))
    ensures QueueOk(Do(s, Finish(i, after, keep)))
  {
    hide LogOk, Remembered, NoEarlyRepeat, Others, Owned;
    var w := s.workers[i];
    BusyOwns(s, i);
    OneMore(s.work, w.host, Entry(after, false, w.id));
    OwnedFinish(s.work, FinishWork(s, w.host, w.id, after, keep), s.workers, s.nextId, i, after);
    assert !Idle(s.workers[i]);
  }

  lemma BusyOwns(s: State, i: nat)
    requires Owned(s.work, s.workers, s.nextId) && i < |s.workers| && s.workers[i].Busy?
    ensures Owns(s.work, s.workers[i])
  {}

  lemma OtherStepsKeep(s: State, step: Step)
    requires QueueOk(s) && Enabled(s, step) && !step.Insert? && !step.Pick? && !step.Finish?
    ensures QueueOk(Do(s, step))
  {
    hide NoEarlyRepeat, Others, LogOk, Remembered, Owned;
    match step
    case Tick(t) => LaterKeeps(s.dedupe, s.log, s.now, t);
    case Start => StartKeeps(s);
    case Check(i) => CheckKeeps(s, i);
    case Clear => ClearKeeps(s);
    case _ =>
  }

  lemma LaterKeeps(d: Dedupe, log: Log, now: int, t: int)
    requires LogOk(d, log, now) && now <= t
    ensures LogOk(d, log, t) && (Remembered(d, log, now) ==> Remembered(d, log, t))
  {
    hide Others;
  }

  lemma StartKeeps(s: State)
    requires QueueOk(s) && Enabled(s, Start)
    ensures QueueOk(Do(s, Start))
  {
    hide NoEarlyRepeat, Others, LogOk, Remembered;
    if !s.cancelled && forall i :: 0 <= i < |s.workers| ==> s.workers[i].Absent? {
      assert Owned(s.work, seq(|s.workers|, i => Top), s.nextId);
    }
  }

  lemma CheckKeeps(s: State, i: nat)
    requires QueueOk(s) && Enabled(s, Check(i))
    ensures QueueOk(Do(s, Check(i)))
  {
    hide NoEarlyRepeat, Others, LogOk, Remembered, Owned;
    OwnedMove(s.work, s.workers, s.nextId, i, if s.cancelled then Exited else Passed);
    assert !Idle(s.workers[i]);
  }

  lemma ClearKeeps(s: State)
    requires QueueOk(s) && Enabled(s, Clear)
    ensures QueueOk(Do(s, Clear))
  {
    hide NoEarlyRepeat, Others, Owned, LogOk, Remembered;
    assert forall i :: 0 <= i < |s.workers| ==> Idle(s.workers[i]);
    OwnedEmpty(s.work, s.workers, s.nextId);
    LogOfEmpty(s.dedupe, s.log, s.now);
  }

  lemma OwnedEmpty(work: Works, workers: seq<Worker>, nextId: nat)
    requires Owned(work, workers, nextId) && forall i :: 0 <= i < |workers| ==> Idle(workers[i])
    ensures Owned(map[], workers, nextId)
  {}

  lemma LogOfEmpty(d: Dedupe, log: Log, now: int)
    requires LogOk(d, log, now)
    ensures LogOk(map[], log, now)
  {}

  lemma StepKeeps(s: State, step: Step)
    requires QueueOk(s) && Enabled(s, step)
    ensures QueueOk(Do(s, step))
  {
    hide QueueOk;
    match step
    case Insert(victim) => InsertKeeps(s, victim);
    case Pick(i, choice) => PickKeeps(s, i, choice);
    case Finish(i, after, keep) => FinishKeeps(s, i, after, keep);
    case _ => OtherStepsKeep(s, step);
  }

  lemma {:induction false} RunKeeps(s: State, steps: seq<Step>, t: State)
    requires QueueOk(s) && Reaches(s, steps, t)
    ensures QueueOk(t)
    decreases |steps|
  {
    hide QueueOk, Enabled, Do;
    if steps != [] {
      StepKeeps(s, steps[0]);
      RunKeeps(Do(s, steps[0]), steps[1..], t);
    }
  }

  // ----- main results -----

  lemma InitOk(now: int)
    ensures QueueOk(Init(now))
  {}

  /** In every reachable state: the tables are within bounds, no two workers have the same
      root, every busy worker's root is in the table under its hostname and under no other,
      and a busy root has a worker. */
  lemma NoRootHasTwoWorkers(now: int, steps: seq<Step>, s: State)
    requires Reaches(Init(now), steps, s)
    ensures |s.work| <= QUEUE_CAPACITY && |s.dedupe| <= DEDUPE_CAPACITY
    ensures forall i :: 0 <= i < |s.workers| && s.workers[i].Busy? ==> Owns(s.work, s.workers[i])
    ensures forall i, j :: 0 <= i < j < |s.workers| && s.workers[i].Busy? && s.workers[j].Busy? ==>
      s.workers[i].host != s.workers[j].host && s.workers[i].id != s.workers[j].id
    ensures forall h :: h in s.work && s.work[h].busy ==> Busy(h, s.work[h].id) in s.workers
  {
    InitOk(now);
    RunKeeps(Init(now), steps, s);
    assert forall i :: 0 <= i < |s.workers| && s.workers[i].Busy? ==> Owns(s.work, s.workers[i]);
  }

  lemma QueueParts(s: State)
    requires QueueOk(s)
    ensures Owned(s.work, s.workers, s.nextId) && StopOk(s)
  {}

  /** From a reachable state, no step but a worker's own Finish takes that worker's root out
      of the table or away from it; and Finish removes or releases that root alone. */
  lemma BusyRootStays(now: int, steps: seq<Step>, s: State, step: Step, i: nat)
    requires Reaches(Init(now), steps, s) && Enabled(s, step)
    requires i < |s.workers| && s.workers[i].Busy?
    ensures !(step.Finish? && step.i == i) ==> RootKept(s, Do(s, step), i)
    ensures step.Finish? && step.i == i ==> OnlyRootReleased(s, Do(s, step), i, step.after)
  {
    hide Reaches, Enabled, Do, QueueOk, Owned, StopOk, RootKept, OnlyRootReleased;
    InitOk(now);
    RunKeeps(Init(now), steps, s);
    StepKeeps(s, step);
    QueueParts(s);
    QueueParts(Do(s, step));
    if step.Finish? && step.i == i { OwnFinish(s, step, i); } else { OtherStep(s, step, i); }
  }

  /** Worker `i` still has its root, and the root is still its own. */
  ghost predicate RootKept(s: State, t: State, i: nat)
    requires i < |s.workers| && s.workers[i].Busy?
  {
    i < |t.workers| && t.workers[i] == s.workers[i] && Owns(t.work, s.workers[i])
  }

  /** The root of worker `i` was its own and is removed or free, every other entry as before. */
  ghost predicate OnlyRootReleased(s: State, t: State, i: nat, after: Work)
    requires i < |s.workers| && s.workers[i].Busy?
  {
    var w := s.workers[i];
    && Owns(s.work, w)
    && (forall h :: h != w.host ==> (h in t.work <==> h in s.work) && (h in s.work ==> t.work[h] == s.work[h]))
    && (w.host in t.work ==> t.work[w.host] == Entry(after, false, w.id))
  }

  lemma OwnFinish(s: State, step: Step, i: nat)
    requires Owned(s.work, s.workers, s.nextId) && Enabled(s, step) && step.Finish? && step.i == i
    ensures OnlyRootReleased(s, Do(s, step), i, step.after)
  {
    hide Owned, Enabled, PruneWork, PruneDedupe;
    assert i < |s.workers| && s.workers[i].Busy? by { FinishIsBusy(s, step); }
    BusyOwns(s, i);
  }

  lemma FinishIsBusy(s: State, step: Step)
    requires Enabled(s, step) && step.Finish?
    ensures step.i < |s.workers| && s.workers[step.i].Busy?
  {}

  lemma OtherStep(s: State, step: Step, i: nat)
    requires StopOk(s) && Enabled(s, step) && i < |s.workers| && s.workers[i].Busy? && !(step.Finish? && step.i == i)
    requires var t := Do(s, step); Owned(t.work, t.workers, t.nextId)
    ensures RootKept(s, Do(s, step), i)
  {
    hide Owned, Enabled, Do, StopOk;
    OtherWorkersStay(s, step, i);
    BusyOwns(Do(s, step), i);
  }

  lemma OtherWorkersStay(s: State, step: Step, i: nat)
    requires StopOk(s) && Enabled(s, step) && i < |s.workers| && s.workers[i].Busy? && !(step.Finish? && step.i == i)
    ensures var t := Do(s, step); i < |t.workers| && t.workers[i] == s.workers[i]
  {
    hide PruneWork, PruneDedupe, Enqueue, FinishWork;
    if step.Insert? { InsertKeepsWorkers(s, step.victim); }
  }

  lemma InsertKeepsWorkers(s: State, victim: Candidate)
    requires s.holder.Some?
    ensures Enqueue(s, s.holder.value, victim).workers == s.workers
  {}

  /** A candidate admitted twice less than five minutes apart has seen at least 1024
      distinct other candidates admitted from the instant of the first admission up to the
      second. */
  lemma DedupeForgetsOnlyUnderLoad(now: int, steps: seq<Step>, s: State, i: nat, j: nat)
    requires Reaches(Init(now), steps, s)
    requires i < j < |s.log| && s.log[i].key == s.log[j].key && s.log[j].time < s.log[i].time + LIFETIME
    ensures |Others(s.log[..j], s.log[i].key, s.log[i].time)| >= DEDUPE_CAPACITY
  {
    InitOk(now);
    RunKeeps(Init(now), steps, s);
  }

  lemma {:induction false} StoppedStays(s: State, steps: seq<Step>, t: State)
    requires QueueOk(s) && s.stop.Stopped? && Reaches(s, steps, t)
    ensures t.stop.Stopped? && QueueOk(t)
    decreases |steps|
  {
    hide QueueOk;
    if steps != [] {
      StepKeeps(s, steps[0]);
      StopIsFinal(s, steps[0]);
      StoppedStays(Do(s, steps[0]), steps[1..], t);
    }
  }

  lemma StopIsFinal(s: State, step: Step)
    requires s.stop.Stopped? && Enabled(s, step)
    ensures Do(s, step).stop.Stopped?
  {}

  /** Once stop has returned, both tables stay empty for ever, no worker runs and none is
      started again, even if a TryEnqueue that had passed its context check was still under
      way when the cancellation came. */
  lemma NothingAfterStop(now: int, before: seq<Step>, s: State, after: seq<Step>, t: State)
    requires Reaches(Init(now), before, s) && s.stop.Stopped? && Reaches(s, after, t)
    ensures t.work == map[] && t.dedupe == map[] && t.holder.None?
    ensures forall i :: 0 <= i < |t.workers| ==> Idle(t.workers[i])
  {
    InitOk(now);
    RunKeeps(Init(now), before, s);
    StoppedStays(s, after, t);
  }

  // ----- the object whose tables the critical sections update -----

  class CertificateReporterState {
    var cancelled: bool
    var work: Works
    var dedupe: Dedupe
    var nextId: nat
    var dropped: nat

    constructor ()
      ensures Valid() && !cancelled && work == map[] && dedupe == map[] && nextId == 0 && dropped == 0
    {
      cancelled, work, dedupe, nextId, dropped := false, map[], map[], 0, 0;
    }

    /** Expiries lie after the zero time, which Oldest uses as its "none yet" mark. */
    ghost predicate Valid()
      reads this
    {
      forall k :: k in dedupe ==> dedupe[k] > 0
    }

    /** The state a critical section starts from, with candidate `c` in hand. */
    ghost function View(now: int, c: Candidate): State
      reads this
    {
      State(now, cancelled, Some(c), work, dedupe, [], Running, nextId, [])
    }

    method Prune(now: int)
      modifies `work, `dedupe
      ensures dedupe == PruneDedupe(old(dedupe), now) && work == PruneWork(old(work), now)
    {
      var keys := dedupe.Keys;
      while keys != {}
        invariant keys <= dedupe.Keys && dedupe.Keys <= old(dedupe.Keys)
        invariant forall k :: k in dedupe ==> dedupe[k] == old(dedupe)[k] && (k in keys || now < dedupe[k])
        invariant forall k :: k in old(dedupe) && now < old(dedupe)[k] ==> k in dedupe
        invariant work == old(work)
        decreases keys
      {
        var k :| k in keys;
        if dedupe[k] <= now { dedupe := dedupe - {k}; }
        keys := keys - {k};
      }
      var hosts := work.Keys;
      while hosts != {}
        invariant hosts <= work.Keys && work.Keys <= old(work.Keys)
        invariant forall h :: h in work ==>
          work[h] == old(work)[h] && (h in hosts || work[h].busy || now < work[h].work.expires)
        invariant forall h :: h in old(work) && (old(work)[h].busy || now < old(work)[h].work.expires) ==> h in work
        invariant dedupe == PruneDedupe(old(dedupe), now)
        decreases hosts
      {
        var h :| h in hosts;
        if !work[h].busy && work[h].work.expires <= now { work := work - {h}; }
        hosts := hosts - {h};
      }
    }

    /** The scan for the entry to evict; the map is visited in any order. */
    method Oldest() returns (oldest: Candidate)
      requires Valid() && dedupe != map[]
      ensures Earliest(dedupe, oldest)
    {
      var earliest := 0;
      oldest :| oldest in dedupe;
      var rest := dedupe.Keys;
      while rest != {}
        invariant rest <= dedupe.Keys && oldest in dedupe
        invariant earliest == 0 ==> rest == dedupe.Keys
        invariant earliest != 0 ==>
          earliest == dedupe[oldest] && forall k :: k in dedupe && k !in rest ==> earliest <= dedupe[k]
        decreases rest
      {
        var k :| k in rest;
        if earliest == 0 || dedupe[k] < earliest { oldest, earliest := k, dedupe[k]; }
        rest := rest - {k};
      }
    }

    /** TryEnqueue with the mutex free: one Enqueue with some earliest entry as victim.  It
        admits a candidate if and only if the state is not cancelled, the candidate is valid,
        neither its hostname nor the candidate itself is held, and there is room. */
    method TryEnqueue(c: Candidate, valid: bool, now: int) returns (admitted: bool)
      requires Valid() && now > 0
      modifies this
      ensures cancelled == old(cancelled)
      ensures old(cancelled) || !valid ==>
        !admitted && work == old(work) && dedupe == old(dedupe) && nextId == old(nextId)
      ensures !old(cancelled) && valid ==> Enqueued(old(View(now, c)), c, work, dedupe, nextId, admitted)
      ensures admitted <==> valid && !old(cancelled) && Admissible(old(work), old(dedupe), c, now)
      ensures admitted ==> RootEntered(old(work), c, now, work) && CandidateHeld(old(dedupe), c, now, dedupe)
      ensures dropped == old(dropped) + if admitted then 0 else 1
      ensures Valid()
    {
      hide PruneDedupe, PruneWork, Earliest, Birth, Enqueued, Refuses, Replaced, Inserted;
      hide Admissible, RootEntered, CandidateHeld;
      if cancelled || !valid {
        dropped := dropped + 1;
        return false;
      }
      ghost var before := View(now, c);
      PrunedStaysPositive(dedupe, now);
      Prune(now);
      if Refuses(work, dedupe, c) {
        dropped := dropped + 1;
        EnqueueRefuses(before, c, work, dedupe);
        EnqueuedEnters(before, c, work, dedupe, nextId, false);
        return false;
      }
      ghost var w, d := work, dedupe;
      ghost var victim := Admit(c, now);
      EnqueueAdmits(before, c, victim, w, d);
      EnqueuedEnters(before, c, work, dedupe, nextId, true);
      return true;
    }

    /** The end of TryEnqueue: make room in the dedupe table and enter the candidate. */
    method Admit(c: Candidate, now: int) returns (ghost evicted: Candidate)
      requires Valid() && now > 0
      modifies `work, `dedupe, `nextId
      ensures |old(dedupe)| >= DEDUPE_CAPACITY ==> Earliest(old(dedupe), evicted)
      ensures dedupe == Replaced(old(dedupe), evicted, c, now + LIFETIME)
      ensures work == Inserted(old(work), c, now, old(nextId)) && nextId == old(nextId) + 1
      ensures Valid()
    {
      evicted := c;
      if |dedupe| >= DEDUPE_CAPACITY {
        var oldest := Oldest();
        dedupe := dedupe - {oldest};
        evicted := oldest;
      }
      dedupe := dedupe[c := now + LIFETIME];
      work := work[c.hostname := Entry(Birth(c, now).work, false, nextId)];
      nextId := nextId + 1;
    }

    /** The critical section in which a worker prunes and selects a due root. */
    method Select(now: int) returns (choice: Option<string>)
      modifies `work, `dedupe
      ensures dedupe == PruneDedupe(old(dedupe), now)
      ensures var w := PruneWork(old(work), now);
        if choice.None? then work == w && forall h :: !Eligible(w, h, now)
        else && Eligible(w, choice.value, now) && work == w[choice.value := w[choice.value].(busy := true)]
             && forall h :: Eligible(w, h, now) ==> w[choice.value].work.due <= w[h].work.due
    {
      Prune(now);
      choice := None;
      var rest := work.Keys;
      while rest != {}
        invariant rest <= work.Keys
        invariant choice.None? ==> forall h :: Eligible(work, h, now) ==> h in rest
        invariant choice.Some? ==> Eligible(work, choice.value, now)
        invariant choice.Some? ==>
          forall h :: Eligible(work, h, now) && h !in rest ==> work[choice.value].work.due <= work[h].work.due
        decreases rest
      {
        var h :| h in rest;
        if Eligible(work, h, now) && (choice.None? || work[h].work.due < work[choice.value].work.due) {
          choice := Some(h);
        }
        rest := rest - {h};
      }
      if choice.Some? { work := work[choice.value := work[choice.value].(busy := true)]; }
    }

    /** The critical section in which a worker gives back root `id` of hostname `h`. */
    method Complete(h: string, id: nat, after: Work, keep: bool, now: int)
      modifies `work
      ensures work == FinishWork(old(View(now, after.candidate)), h, id, after, keep)
    {
      if h in work && work[h].id == id { work := work[h := Entry(after, false, id)]; }
      if !keep || cancelled || now >= after.expires { work := work - {h}; }
    }

    /** The last critical section of stop. */
    method Clear()
      modifies `work, `dedupe
      ensures work == map[] && dedupe == map[]
    {
      work, dedupe := map[], map[];
    }
  }

  // ----- what an admission means -----

  /** The hostnames that keep their roots at `now`: busy or not expired. */
  function Occupied(work: Works, now: int): set<string> {
    set h | h in work && (work[h].busy || now < work[h].work.expires)
  }

  /** A fresh candidate: no root for its hostname, the candidate itself not held, room left. */
  predicate Admissible(work: Works, dedupe: Dedupe, c: Candidate, now: int) {
    && c.hostname !in Occupied(work, now) && (c in dedupe ==> dedupe[c] <= now)
    && |Occupied(work, now)| < QUEUE_CAPACITY
  }

  /** The root that `c` gets: due at once, for five minutes, with nothing sent or accepted. */
  predicate NewRoot(e: Entry, c: Candidate, now: int) {
    && e.work.candidate == c && e.work.birth == now && e.work.due == now
    && e.work.expires == now + 300_000_000_000 && !e.busy
    && e.work.event.None? && e.work.acceptance.None? && e.work.attempts == 0
  }

  /** `c` has its new root, which a worker can select at this instant; the roots that are not
      expired are as they were and the others are gone. */
  ghost predicate RootEntered(work: Works, c: Candidate, now: int, work': Works) {
    && work'.Keys == Occupied(work, now) + {c.hostname} && NewRoot(work'[c.hostname], c, now)
    && Eligible(PruneWork(work', now), c.hostname, now)
    && forall h :: h in Occupied(work, now) && h != c.hostname ==> work'[h] == work[h]
  }

  /** `c` is held for five minutes; the other candidates are as they were, but for those that
      have expired and for at most one, the one that expires first of 1024. */
  ghost predicate CandidateHeld(dedupe: Dedupe, c: Candidate, now: int, dedupe': Dedupe) {
    && c in dedupe' && dedupe'[c] == now + 300_000_000_000
    && (forall k :: k in dedupe' && k != c ==> k in dedupe && dedupe'[k] == dedupe[k] && now < dedupe[k])
    && (forall k :: Forgotten(dedupe, dedupe', now, k) ==>
          |PruneDedupe(dedupe, now)| >= DEDUPE_CAPACITY && Earliest(PruneDedupe(dedupe, now), k))
    && (forall k, k' :: Forgotten(dedupe, dedupe', now, k) && Forgotten(dedupe, dedupe', now, k') ==> k == k')
  }

  predicate Forgotten(dedupe: Dedupe, dedupe': Dedupe, now: int, k: Candidate) {
    k in dedupe && now < dedupe[k] && k !in dedupe'
  }

  lemma PruneWorkKeys(work: Works, now: int)
    ensures PruneWork(work, now).Keys == Occupied(work, now) && |PruneWork(work, now)| == |Occupied(work, now)|
  {
    assert PruneWork(work, now).Keys == Occupied(work, now);
    KeysCount(PruneWork(work, now));
  }

  lemma KeysCount<K, V>(m: map<K, V>)
    ensures |m| == |m.Keys|
  {}

  lemma InsertedEnters(work: Works, c: Candidate, now: int, id: nat)
    ensures RootEntered(work, c, now, Inserted(PruneWork(work, now), c, now, id))
  {
    PruneWorkKeys(work, now);
  }

  lemma ReplacedHolds(dedupe: Dedupe, c: Candidate, now: int, victim: Candidate)
    requires var d := PruneDedupe(dedupe, now); |d| >= DEDUPE_CAPACITY ==> Earliest(d, victim)
    ensures CandidateHeld(dedupe, c, now, Replaced(PruneDedupe(dedupe, now), victim, c, now + LIFETIME))
  {
    hide Earliest;
  }

  lemma AdmissibleIsNotRefused(work: Works, dedupe: Dedupe, c: Candidate, now: int)
    ensures Admissible(work, dedupe, c, now) <==> !Refuses(PruneWork(work, now), PruneDedupe(dedupe, now), c)
  {
    PruneWorkKeys(work, now);
  }

  /** One Enqueue admits exactly the admissible candidates. */
  lemma EnqueueEnters(s: State, c: Candidate, victim: Candidate)
    requires var d := PruneDedupe(s.dedupe, s.now); |d| >= DEDUPE_CAPACITY ==> Earliest(d, victim)
    ensures var t := Enqueue(s, c, victim);
      if Admissible(s.work, s.dedupe, c, s.now) then
        && t.log == s.log + [Admission(c, s.now)]
        && RootEntered(s.work, c, s.now, t.work) && CandidateHeld(s.dedupe, c, s.now, t.dedupe)
      else t.log == s.log && t.work == PruneWork(s.work, s.now) && t.dedupe == PruneDedupe(s.dedupe, s.now)
  {
    hide Admissible, RootEntered, CandidateHeld, Birth, Earliest, PruneWork, PruneDedupe;
    AdmissibleIsNotRefused(s.work, s.dedupe, c, s.now);
    InsertedEnters(s.work, c, s.now, s.nextId);
    ReplacedHolds(s.dedupe, c, s.now, victim);
  }

  lemma EnqueuedEnters(s: State, c: Candidate, work: Works, dedupe: Dedupe, nextId: nat, admitted: bool)
    requires Enqueued(s, c, work, dedupe, nextId, admitted)
    ensures admitted <==> Admissible(s.work, s.dedupe, c, s.now)
    ensures if admitted then RootEntered(s.work, c, s.now, work) && CandidateHeld(s.dedupe, c, s.now, dedupe)
            else work == PruneWork(s.work, s.now) && dedupe == PruneDedupe(s.dedupe, s.now)
  {
    hide Enqueue, Admissible, RootEntered, CandidateHeld, Earliest, PruneWork, PruneDedupe;
    var victim :|
      var d, t := PruneDedupe(s.dedupe, s.now), Enqueue(s, c, victim);
      && (|d| >= DEDUPE_CAPACITY ==> Earliest(d, victim))
      && work == t.work && dedupe == t.dedupe && nextId == t.nextId
      && t.log == if admitted then s.log + [Admission(c, s.now)] else s.log;
    EnqueueEnters(s, c, victim);
  }

  /** The tables are those of one Enqueue with some earliest entry as victim. */
  ghost predicate Enqueued(s: State, c: Candidate, work: Works, dedupe: Dedupe, nextId: nat, admitted: bool) {
    exists victim ::
      var d, t := PruneDedupe(s.dedupe, s.now), Enqueue(s, c, victim);
      && (|d| >= DEDUPE_CAPACITY ==> Earliest(d, victim))
      && work == t.work && dedupe == t.dedupe && nextId == t.nextId
      && t.log == if admitted then s.log + [Admission(c, s.now)] else s.log
  }

  predicate Refuses(w: Works, d: Dedupe, c: Candidate) {
    c.hostname in w || c in d || |w| >= QUEUE_CAPACITY
  }

  lemma EnqueueRefuses(s: State, c: Candidate, w: Works, d: Dedupe)
    requires w == PruneWork(s.work, s.now) && d == PruneDedupe(s.dedupe, s.now) && Refuses(w, d, c)
    ensures Enqueued(s, c, w, d, s.nextId, false)
  {
    hide PruneDedupe, PruneWork, Earliest, Birth;
    var victim := if |d| >= DEDUPE_CAPACITY then EarliestOf(d) else c;
    assert Enqueue(s, c, victim).log == s.log;
  }

  /** What is entered for a candidate, with `victim` gone if the table was full. */
  function Replaced(d: Dedupe, victim: Candidate, c: Candidate, expiry: int): Dedupe {
    (if |d| >= DEDUPE_CAPACITY then d - {victim} else d)[c := expiry]
  }

  function Inserted(w: Works, c: Candidate, now: int, id: nat): Works {
    w[c.hostname := Entry(Birth(c, now).work, false, id)]
  }

  lemma EnqueueAdmits(s: State, c: Candidate, victim: Candidate, w: Works, d: Dedupe)
    requires w == PruneWork(s.work, s.now) && d == PruneDedupe(s.dedupe, s.now) && !Refuses(w, d, c)
    requires |d| >= DEDUPE_CAPACITY ==> Earliest(d, victim)
    ensures Enqueued(s, c, Inserted(w, c, s.now, s.nextId), Replaced(d, victim, c, s.now + LIFETIME),
                     s.nextId + 1, true)
  {
    hide PruneDedupe, PruneWork, Earliest, Birth;
    assert Enqueue(s, c, victim).log == s.log + [Admission(c, s.now)];
  }

  lemma PrunedStaysPositive(d: Dedupe, now: int)
    ensures (forall k :: k in d ==> d[k] > 0) ==> forall k :: k in PruneDedupe(d, now) ==> PruneDedupe(d, now)[k] > 0
  {}

  /** A non-empty table has an earliest entry. */
  ghost function EarliestOf(d: Dedupe): (k: Candidate)
    requires d != map[]
    ensures Earliest(d, k)
  {
    EarliestExists(d);
    var k :| Earliest(d, k);
    k
  }

  lemma {:induction false} EarliestExists(d: Dedupe)
    requires d != map[]
    ensures exists k :: Earliest(d, k)
    decreases |d|
  {
    var k :| k in d;
    var rest := d - {k};
    OneMore(d, k, 0);
    if rest == map[] {
      assert d.Keys == {k} by { assert rest.Keys == d.Keys - {k}; }
      assert Earliest(d, k);
    } else {
      EarliestExists(rest);
      var e :| Earliest(rest, e);
      assert forall x :: x in d ==> x == k || x in rest;
      assert Earliest(d, if d[k] <= d[e] then k else e);
    }
  }
}
