/** The registry that shares one worker pool between reporter instances across reloads:
    Start and Stop of CertificateReporter in certificate_reporter.go. */
module ReporterRegistry {
  import opened Common

  /** The lifecycle part of certificateReporterState. */
  datatype Pool = Pool(refs: nat, started: bool, cancelled: bool)

  /** An instance: not started, sharing a pool, marked released but still counted (Stop has
      left the instance mutex and not yet taken the registry mutex), or done. */
  datatype Phase = Fresh | Holding(pool: nat) | Releasing(pool: nat) | Released

  /** A reporter instance; its identity is that of its configuration, which never changes. */
  datatype Instance = Instance(identity: string, phase: Phase)

  datatype Registry = Registry(
    states: map<string, nat>, active: Option<nat>, pools: seq<Pool>, instances: seq<Instance>)

  datatype Step =
    | Start(i: nat)
    | Release(i: nat)                          // Stop, under the instance mutex
    | Drop(i: nat, next: Option<string>)       // Stop, under the registry mutex; `next` becomes active

  predicate Running(p: Pool) { p.started && !p.cancelled }

  predicate Holds(a: Instance, p: nat) { (a.phase.Holding? || a.phase.Releasing?) && a.phase.pool == p }

  /** start: nothing happens to a pool that was started or cancelled before. */
  function Started(p: Pool): Pool { if p.started || p.cancelled then p else p.(started := true) }

  function SetPhase(r: Registry, i: nat, phase: Phase): Registry
    requires i < |r.instances|
  {
    r.(instances := r.instances[i := r.instances[i].(phase := phase)])
  }

  function DoStart(r: Registry, i: nat): Registry
    requires i < |r.instances|
    requires forall id :: id in r.states ==> r.states[id] < |r.pools|
  {
    if !r.instances[i].phase.Fresh? then r
    else
      var id := r.instances[i].identity;
      if id in r.states then
        var p := r.states[id];
        SetPhase(r.(pools := r.pools[p := r.pools[p].(refs := r.pools[p].refs + 1)]), i, Holding(p))
      else
        var p := |r.pools|;
        SetPhase(r.(pools := r.pools + [Pool(1, r.active.None?, false)], states := r.states[id := p],
                    active := if r.active.None? then Some(p) else r.active), i, Holding(p))
  }

  function DoRelease(r: Registry, i: nat): Registry
    requires i < |r.instances|
  {
    match r.instances[i].phase
    case Fresh => SetPhase(r, i, Released)
    case Holding(p) => SetPhase(r, i, Releasing(p))
    case _ => r
  }

  ghost predicate DropEnabled(r: Registry, i: nat, next: Option<string>) {
    && i < |r.instances| && r.instances[i].phase.Releasing? && r.instances[i].phase.pool < |r.pools|
    && r.pools[r.instances[i].phase.pool].refs >= 1
    && (forall id :: id in r.states ==> r.states[id] < |r.pools|)
    && var rest := r.states - {r.instances[i].identity};
       if next.None? then rest == map[] else next.value in rest
  }

  function DoDrop(r: Registry, i: nat, next: Option<string>): Registry
    requires DropEnabled(r, i, next)
  {
    var p := r.instances[i].phase.pool;
    var pool := r.pools[p].(refs := r.pools[p].refs - 1);
    if pool.refs > 0 then SetPhase(r.(pools := r.pools[p := pool]), i, Released)
    else
      var states := r.states - {r.instances[i].identity};
      var pools := r.pools[p := pool.(cancelled := true)];
      if r.active != Some(p) then SetPhase(r.(states := states, pools := pools), i, Released)
      else if next.None? then SetPhase(r.(states := states, pools := pools, active := None), i, Released)
      else
        var q := states[next.value];
        SetPhase(r.(states := states, pools := pools[q := Started(pools[q])], active := Some(q)), i, Released)
  }

  // ----- the invariant -----

  ghost function Holders(instances: seq<Instance>, p: nat): set<nat> {
    set i: nat | i < |instances| && Holds(instances[i], p)
  }

  ghost predicate Registered(states: map<string, nat>, p: nat) {
    exists id :: id in states && states[id] == p
  }

  /** Every reference count is the number of holders. */
  ghost predicate RefsOk(pools: seq<Pool>, instances: seq<Instance>) {
    forall p :: 0 <= p < |pools| ==> pools[p].refs == |Holders(instances, p)|
  }

  /** The registered pools are distinct; they are the pools that are referenced, and the
      pools that are not cancelled. */
  ghost predicate StatesOk(states: map<string, nat>, pools: seq<Pool>) {
    && (forall id :: id in states ==> states[id] < |pools|)
    && (forall id, id' :: id in states && id' in states && states[id] == states[id'] ==> id == id')
    && (forall p :: 0 <= p < |pools| ==> (Registered(states, p) <==> pools[p].refs > 0))
    && (forall p :: 0 <= p < |pools| ==> (Registered(states, p) <==> !pools[p].cancelled))
  }

  ghost predicate InstancesOk(states: map<string, nat>, instances: seq<Instance>) {
    forall i, p: nat :: 0 <= i < |instances| && Holds(instances[i], p) ==>
      instances[i].identity in states && states[instances[i].identity] == p
  }

  /** The active pool is registered and is the only one that runs. */
  ghost predicate ActiveOk(states: map<string, nat>, active: Option<nat>, pools: seq<Pool>) {
    && (active.Some? <==> states != map[])
    && (active.Some? ==> Registered(states, active.value))
    && (forall p :: 0 <= p < |pools| ==> (Running(pools[p]) <==> active == Some(p)))
  }

  ghost predicate RegistryOk(r: Registry) {
    && RefsOk(r.pools, r.instances) && StatesOk(r.states, r.pools)
    && InstancesOk(r.states, r.instances) && ActiveOk(r.states, r.active, r.pools)
  }

  ghost predicate Enabled(r: Registry, step: Step) {
    match step
    case Start(i) => i < |r.instances| && forall id :: id in r.states ==> r.states[id] < |r.pools|
    case Release(i) => i < |r.instances|
    case Drop(i, next) => DropEnabled(r, i, next)
  }

  function Do(r: Registry, step: Step): Registry
    requires Enabled(r, step)
  {
    match step
    case Start(i) => DoStart(r, i)
    case Release(i) => DoRelease(r, i)
    case Drop(i, next) => DoDrop(r, i, next)
  }

  ghost predicate Reaches(r: Registry, steps: seq<Step>, r': Registry)
    decreases |steps|
  {
    if steps == [] then r' == r else Enabled(r, steps[0]) && Reaches(Do(r, steps[0]), steps[1..], r')
  }

  // ----- counting -----

  predicate PhaseHolds(phase: Phase, p: nat) { (phase.Holding? || phase.Releasing?) && phase.pool == p }

  ghost function CountAfter(instances: seq<Instance>, i: nat, phase: Phase, p: nat): int
    requires i < |instances|
  {
    |Holders(instances, p)| - (if Holds(instances[i], p) then 1 else 0) + (if PhaseHolds(phase, p) then 1 else 0)
  }

  /** How a change of one phase changes the holders of a pool. */
  lemma HoldersAfter(instances: seq<Instance>, i: nat, phase: Phase, p: nat)
    requires i < |instances|
    ensures |Holders(instances[i := instances[i].(phase := phase)], p)| == CountAfter(instances, i, phase, p)
  {
    var after := instances[i := instances[i].(phase := phase)];
    assert Holders(after, p) - {i} == Holders(instances, p) - {i};
    assert |Holders(after, p) - {i}| == |Holders(after, p)| - (if i in Holders(after, p) then 1 else 0);
    assert |Holders(instances, p) - {i}| == |Holders(instances, p)| - (if i in Holders(instances, p) then 1 else 0);
  }

  lemma RefsAfter(pools: seq<Pool>, instances: seq<Instance>, i: nat, phase: Phase)
    requires i < |instances|
    requires forall p :: 0 <= p < |pools| ==> pools[p].refs == CountAfter(instances, i, phase, p)
    ensures RefsOk(pools, instances[i := instances[i].(phase := phase)])
  {
    hide Holders;
    forall p | 0 <= p < |pools| ensures pools[p].refs == |Holders(instances[i := instances[i].(phase := phase)], p)| {
      HoldersAfter(instances, i, phase, p);
    }
  }

  /** Nobody holds a pool that does not exist yet. */
  lemma NoHolders(r: Registry, p: nat)
    requires StatesOk(r.states, r.pools) && InstancesOk(r.states, r.instances) && p >= |r.pools|
    ensures |Holders(r.instances, p)| == 0
  {
    assert Holders(r.instances, p) == {};
  }

  /** The last holder of a pool is the only one. */
  lemma LastHolder(instances: seq<Instance>, i: nat, j: nat, p: nat)
    requires i < |instances| && j < |instances| && Holds(instances[i], p) && Holds(instances[j], p)
    requires |Holders(instances, p)| == 1
    ensures i == j
  {
    var hs := Holders(instances, p);
    assert i in hs && j in hs;
    assert |hs - {i}| == 0;
  }

  // ----- steps -----

  /** Changing a reference count, not to or from zero, changes nothing else. */
  lemma CountKeeps(states: map<string, nat>, active: Option<nat>, pools: seq<Pool>, p: nat, refs: nat)
    requires StatesOk(states, pools) && ActiveOk(states, active, pools) && p < |pools| && pools[p].refs > 0 && refs > 0
    ensures StatesOk(states, pools[p := pools[p].(refs := refs)])
    ensures ActiveOk(states, active, pools[p := pools[p].(refs := refs)])
  {
    hide Registered;
  }

  lemma PhaseKeepsInstances(states: map<string, nat>, instances: seq<Instance>, i: nat, phase: Phase)
    requires InstancesOk(states, instances) && i < |instances|
    requires forall p: nat :: PhaseHolds(phase, p) ==>
               instances[i].identity in states && states[instances[i].identity] == p
    ensures InstancesOk(states, instances[i := instances[i].(phase := phase)])
  {
    var after := instances[i := instances[i].(phase := phase)];
    forall j, p: nat | 0 <= j < |after| && Holds(after[j], p)
      ensures after[j].identity in states && states[after[j].identity] == p
    {
      if j == i { assert PhaseHolds(phase, p); } else { assert Holds(instances[j], p); }
    }
  }

  lemma JoinKeeps(r: Registry, i: nat)
    requires RegistryOk(r) && i < |r.instances| && r.instances[i].phase.Fresh? && r.instances[i].identity in r.states
    ensures RegistryOk(DoStart(r, i))
  {
    hide Holders, InstancesOk, ActiveOk;
    var p := r.states[r.instances[i].identity];
    assert Registered(r.states, p);
    var pools := r.pools[p := r.pools[p].(refs := r.pools[p].refs + 1)];
    CountKeeps(r.states, r.active, r.pools, p, r.pools[p].refs + 1);
    RefsAfter(pools, r.instances, i, Holding(p));
    PhaseKeepsInstances(r.states, r.instances, i, Holding(p));
  }

  /** A new pool is registered; it runs at once if no other does. */
  lemma CreateTables(states: map<string, nat>, active: Option<nat>, pools: seq<Pool>, id: string)
    requires StatesOk(states, pools) && ActiveOk(states, active, pools) && id !in states
    ensures var n := |pools|;
      var states', pools' := states[id := n], pools + [Pool(1, active.None?, false)];
      StatesOk(states', pools') && ActiveOk(states', if active.None? then Some(n) else active, pools')
  {
    var n := |pools|;
    var states', pools' := states[id := n], pools + [Pool(1, active.None?, false)];
    assert states'[id] == n;
    forall p: nat ensures Registered(states', p) <==> Registered(states, p) || p == n {
      if Registered(states, p) {
        var id' :| id' in states && states[id'] == p;
        assert states'[id'] == p;
      }
    }
    assert !Registered(states, n);
    hide Registered;
  }

  lemma CreateKeeps(r: Registry, i: nat)
    requires RegistryOk(r) && i < |r.instances| && r.instances[i].phase.Fresh? && r.instances[i].identity !in r.states
    ensures RegistryOk(DoStart(r, i))
  {
    hide Holders, ActiveOk, StatesOk;
    var id, n := r.instances[i].identity, |r.pools|;
    assert forall id' :: id' in r.states ==> r.states[id'] < |r.pools| by { Bounds(r.states, r.pools); }
    var pools, states := r.pools + [Pool(1, r.active.None?, false)], r.states[id := n];
    CreateTables(r.states, r.active, r.pools, id);
    NoHolders(r, n);
    RefsAfter(pools, r.instances, i, Holding(n));
    assert InstancesOk(states, r.instances);
    PhaseKeepsInstances(states, r.instances, i, Holding(n));
  }

  lemma Bounds(states: map<string, nat>, pools: seq<Pool>)
    requires StatesOk(states, pools)
    ensures forall id :: id in states ==> states[id] < |pools|
  {}

  lemma ReleaseKeeps(r: Registry, i: nat)
    requires RegistryOk(r) && i < |r.instances|
    ensures RegistryOk(DoRelease(r, i))
  {
    hide Holders, ActiveOk, StatesOk;
    var phase := DoRelease(r, i).instances[i].phase;
    if phase != r.instances[i].phase {
      assert forall p: nat :: PhaseHolds(phase, p) <==> Holds(r.instances[i], p);
      RefsAfter(r.pools, r.instances, i, phase);
      PhaseKeepsInstances(r.states, r.instances, i, phase);
    }
  }

  lemma DropSomeKeeps(r: Registry, i: nat, next: Option<string>)
    requires RegistryOk(r) && DropEnabled(r, i, next) && r.pools[r.instances[i].phase.pool].refs > 1
    ensures RegistryOk(DoDrop(r, i, next))
  {
    hide Holders, ActiveOk, StatesOk, InstancesOk;
    var p := r.instances[i].phase.pool;
    var pools := r.pools[p := r.pools[p].(refs := r.pools[p].refs - 1)];
    CountKeeps(r.states, r.active, r.pools, p, r.pools[p].refs - 1);
    RefsAfter(pools, r.instances, i, Released);
    PhaseKeepsInstances(r.states, r.instances, i, Released);
  }

  /** The tables without pool `gone`: if it was active, `next` is started in its place. */
  lemma DropTables(states: map<string, nat>, active: Option<nat>, pools: seq<Pool>, id: string, next: Option<string>)
    requires StatesOk(states, pools) && ActiveOk(states, active, pools) && id in states
    requires var rest := states - {id}; if next.None? then rest == map[] else next.value in rest
    ensures var gone, rest := states[id], states - {id};
      var pools1 := pools[gone := pools[gone].(refs := 0, cancelled := true)];
      StatesOk(rest, pools1) &&
      if active != Some(gone) then ActiveOk(rest, active, pools1)
      else if next.None? then ActiveOk(rest, None, pools1)
      else var q := rest[next.value];
        var pools2 := pools1[q := Started(pools1[q])]; StatesOk(rest, pools2) && ActiveOk(rest, Some(q), pools2)
  {
    var gone, rest := states[id], states - {id};
    forall p: nat ensures Registered(rest, p) <==> Registered(states, p) && p != gone {
      if Registered(states, p) && p != gone {
        var id' :| id' in states && states[id'] == p;
        assert id' in rest && rest[id'] == p;
      }
    }
    if next.Some? { assert Registered(rest, rest[next.value]); }
    hide Registered;
  }

  lemma DropInstances(r: Registry, i: nat)
    requires InstancesOk(r.states, r.instances) && i < |r.instances| && r.instances[i].phase.Releasing?
    requires |Holders(r.instances, r.instances[i].phase.pool)| == 1
    ensures r.instances[i].identity in r.states && r.states[r.instances[i].identity] == r.instances[i].phase.pool
    ensures InstancesOk(r.states - {r.instances[i].identity}, r.instances[i := r.instances[i].(phase := Released)])
  {
    var id, gone := r.instances[i].identity, r.instances[i].phase.pool;
    var after := r.instances[i := r.instances[i].(phase := Released)];
    assert Holds(r.instances[i], gone);
    forall j, p: nat | 0 <= j < |after| && Holds(after[j], p)
      ensures after[j].identity in r.states - {id} && r.states[after[j].identity] == p
    {
      assert j != i && Holds(r.instances[j], p);
      if after[j].identity == id { LastHolder(r.instances, i, j, gone); }
    }
  }

  lemma DropLastKeeps(r: Registry, i: nat, next: Option<string>)
    requires RegistryOk(r) && DropEnabled(r, i, next) && r.pools[r.instances[i].phase.pool].refs == 1
    ensures RegistryOk(DoDrop(r, i, next))
  {
    hide Holders, ActiveOk, StatesOk, InstancesOk;
    var id, gone, r' := r.instances[i].identity, r.instances[i].phase.pool, DoDrop(r, i, next);
    DropInstances(r, i);
    DropTables(r.states, r.active, r.pools, id, next);
    RefsAfter(r'.pools, r.instances, i, Released);
  }

  lemma StepKeeps(r: Registry, step: Step)
    requires RegistryOk(r) && Enabled(r, step)
    ensures RegistryOk(Do(r, step))
  {
    hide RegistryOk, DoDrop, DoRelease;
    match step
    case Start(i) =>
      if r.instances[i].phase.Fresh? {
        if r.instances[i].identity in r.states { JoinKeeps(r, i); } else { CreateKeeps(r, i); }
      }
    case Release(i) => ReleaseKeeps(r, i);
    case Drop(i, next) =>
      if r.pools[r.instances[i].phase.pool].refs > 1 { DropSomeKeeps(r, i, next); } else { DropLastKeeps(r, i, next); }
  }

  lemma {:induction false} RunKeeps(r: Registry, steps: seq<Step>, r': Registry)
    requires RegistryOk(r) && Reaches(r, steps, r')
    ensures RegistryOk(r')
    decreases |steps|
  {
    hide RegistryOk, Enabled, Do;
    if steps != [] {
      StepKeeps(r, steps[0]);
      RunKeeps(Do(r, steps[0]), steps[1..], r');
    }
  }

  // ----- main results -----

  /** No instance started yet. */
  ghost predicate Initial(r: Registry) {
    && r.states == map[] && r.active.None? && r.pools == []
    && forall i :: 0 <= i < |r.instances| ==> r.instances[i].phase.Fresh?
  }

  /** For every sequence of Starts and Stops over any number of instances: at most one pool
      runs, namely the active one; there is an active one exactly when the registry is not
      empty; and every reference count is the number of instances not yet released. */
  lemma OnePoolRuns(r0: Registry, steps: seq<Step>, r: Registry)
    requires Initial(r0) && Reaches(r0, steps, r)
    ensures forall p, q :: 0 <= p < |r.pools| && 0 <= q < |r.pools| && Running(r.pools[p]) && Running(r.pools[q]) ==>
                             p == q
    ensures r.active.Some? <==> r.states != map[]
    ensures r.active.Some? ==> r.active.value < |r.pools| && Running(r.pools[r.active.value])
    ensures forall p :: 0 <= p < |r.pools| ==> r.pools[p].refs == |Holders(r.instances, p)|
    ensures forall p :: 0 <= p < |r.pools| ==> (Registered(r.states, p) <==> r.pools[p].refs > 0)
  {
    RunKeeps(r0, steps, r);
  }

  lemma {:induction false} CancelledStays(r: Registry, steps: seq<Step>, r': Registry, p: nat)
    requires Reaches(r, steps, r') && p < |r.pools| && r.pools[p].cancelled
    ensures p < |r'.pools| && r'.pools[p].cancelled
    decreases |steps|
  {
    if steps != [] {
      CancelledStep(r, steps[0], p);
      CancelledStays(Do(r, steps[0]), steps[1..], r', p);
    }
  }

  lemma CancelledStep(r: Registry, step: Step, p: nat)
    requires Enabled(r, step) && p < |r.pools| && r.pools[p].cancelled
    ensures p < |Do(r, step).pools| && Do(r, step).pools[p].cancelled
  {}

  /** A pool that was stopped never runs again and is never registered again. */
  lemma StoppedNeverRestarts(r0: Registry, before: seq<Step>, r: Registry, after: seq<Step>, r': Registry, p: nat)
    requires Initial(r0) && Reaches(r0, before, r) && Reaches(r, after, r') && p < |r.pools| && r.pools[p].cancelled
    ensures p < |r'.pools| && !Running(r'.pools[p]) && !Registered(r'.states, p)
  {
    RunKeeps(r0, before, r);
    RunKeeps(r, after, r');
    CancelledStays(r, after, r', p);
  }

  // ----- the registry as an object -----

  lemma RegistryBounds(r: Registry)
    requires RegistryOk(r)
    ensures forall id :: id in r.states ==> r.states[id] < |r.pools|
  {}

  lemma HolderBounds(r: Registry, i: nat)
    requires RegistryOk(r) && i < |r.instances| && r.instances[i].phase.Releasing?
    ensures r.instances[i].phase.pool < |r.pools| && r.pools[r.instances[i].phase.pool].refs >= 1
  {
    assert Holds(r.instances[i], r.instances[i].phase.pool);
    assert Registered(r.states, r.instances[i].phase.pool);
  }

  lemma StartCases(r: Registry, i: nat)
    requires i < |r.instances| && forall id :: id in r.states ==> r.states[id] < |r.pools|
    ensures var id, n := r.instances[i].identity, |r.pools|;
      DoStart(r, i) ==
        if !r.instances[i].phase.Fresh? then r
        else if id in r.states then
          var p := r.states[id];
          Registry(r.states, r.active, r.pools[p := r.pools[p].(refs := r.pools[p].refs + 1)],
                   r.instances[i := Instance(id, Holding(p))])
        else
          Registry(r.states[id := n], if r.active.None? then Some(n) else r.active,
                   r.pools + [Pool(1, r.active.None?, false)], r.instances[i := Instance(id, Holding(n))])
  {}

  class CertificateReporters {
    var states: map<string, nat>
    var active: Option<nat>
    var pools: seq<Pool>
    var instances: seq<Instance>

    constructor (identities: seq<string>)
      ensures Initial(View())
    {
      states, active, pools := map[], None, [];
      instances := seq(|identities|, i requires 0 <= i < |identities| => Instance(identities[i], Fresh));
    }

    function View(): Registry
      reads this
    {
      Registry(states, active, pools, instances)
    }

    method Start(i: nat)
      requires i < |instances| && RegistryOk(View())
      modifies this
      ensures View() == DoStart(old(View()), i) && RegistryOk(View())
    {
      hide RegistryOk, DoStart;
      RegistryBounds(View());
      StepKeeps(View(), Step.Start(i));
      StartCases(View(), i);
      if !instances[i].phase.Fresh? { return; }
      var id := instances[i].identity;
      if id !in states {
        pools := pools + [Pool(0, false, false)];
        states := states[id := |pools| - 1];
        if active.None? {
          active := Some(|pools| - 1);
          pools := pools[|pools| - 1 := Started(pools[|pools| - 1])];
        }
      }
      var p := states[id];
      pools := pools[p := pools[p].(refs := pools[p].refs + 1)];
      instances := instances[i := instances[i].(phase := Holding(p))];
    }

    /** The part of Stop under the instance mutex. */
    method Release(i: nat)
      requires i < |instances| && RegistryOk(View())
      modifies `instances
      ensures View() == DoRelease(old(View()), i) && RegistryOk(View())
    {
      hide RegistryOk;
      ReleaseKeeps(View(), i);
      match instances[i].phase
      case Fresh => instances := instances[i := instances[i].(phase := Released)];
      case Holding(p) => instances := instances[i := instances[i].(phase := Releasing(p))];
      case _ =>
    }

    /** The part of Stop under the registry mutex; any remaining pool may become active. */
    method Drop(i: nat)
      requires i < |instances| && RegistryOk(View()) && instances[i].phase.Releasing?
      modifies this
      ensures RegistryOk(View())
      ensures exists next :: DropEnabled(old(View()), i, next) && View() == DoDrop(old(View()), i, next)
    {
      hide RegistryOk, DoDrop;
      ghost var before := View();
      RegistryBounds(before);
      HolderBounds(before, i);
      var p, id := instances[i].phase.pool, instances[i].identity;
      var rest := states - {id};
      var next: Option<string> := None;
      if rest != map[] { var id' :| id' in rest; next := Some(id'); }
      StepKeeps(before, Step.Drop(i, next));
      DropCases(before, i, next);
      pools := pools[p := pools[p].(refs := pools[p].refs - 1)];
      if pools[p].refs == 0 {
        states := rest;
        pools := pools[p := pools[p].(cancelled := true)];
        assert pools == before.pools[p := Pool(0, before.pools[p].started, true)];
        if active == Some(p) {
          active := None;
          if next.Some? {
            var q := states[next.value];
            active := Some(q);
            pools := pools[q := Started(pools[q])];
          }
        }
      }
      instances := instances[i := instances[i].(phase := Released)];
      assert View() == DoDrop(before, i, next);
    }

    /** Stop releases at most once: an instance already released or being released by
        another call is left alone.  Otherwise it takes this one instance out. */
    method Stop(i: nat)
      requires i < |instances| && RegistryOk(View())
      modifies this
      ensures RegistryOk(View())
      ensures if old(instances[i].phase).Released? || old(instances[i].phase).Releasing? then View() == old(View())
              else TakenOut(old(View()), View(), i)
    {
      hide RegistryOk, TakenOut, Leaves, DoDrop, DropEnabled;
      ghost var before := View();
      if instances[i].phase.Released? || instances[i].phase.Releasing? { return; }
      Release(i);
      if instances[i].phase.Releasing? {
        ghost var between := View();
        Drop(i);
        ghost var next :| DropEnabled(between, i, next) && View() == DoDrop(between, i, next);
        DropLeaves(before, i, next);
      } else {
        FreshLeaves(before, i);
      }
      LeavesTakesOut(before, View(), i);
    }
  }

  // ----- what a Stop does -----

  /** Instance `i` has left and the others are as they were.  Every pool keeps its other
      holders; a pool is cancelled, and loses its entry in the registry, exactly if `i` was its
      last holder.  A pool that ran and is still held runs on; if none ran on and some pool is
      held, one of these runs now. */
  ghost predicate TakenOut(r: Registry, r': Registry, i: nat)
    requires i < |r.instances|
  {
    && r'.instances == r.instances[i := Instance(r.instances[i].identity, Released)]
    && |r'.pools| == |r.pools|
    && (forall p :: 0 <= p < |r.pools| ==> PoolKept(r, r', i, p))
    && (forall id :: id in r'.states <==> id in r.states && Holders(r.instances, r.states[id]) != {i})
    && (forall id :: id in r'.states ==> r'.states[id] == r.states[id])
    && ((exists j, p: nat :: 0 <= j < |r.instances| && j != i && Holds(r.instances[j], p)) ==>
          exists p :: 0 <= p < |r'.pools| && Running(r'.pools[p]))
  }

  ghost predicate PoolKept(r: Registry, r': Registry, i: nat, p: nat)
    requires p < |r.pools| == |r'.pools|
  {
    && Holders(r'.instances, p) == Holders(r.instances, p) - {i} && r'.pools[p].refs == |Holders(r'.instances, p)|
    && (r'.pools[p].cancelled <==> r.pools[p].cancelled || Holders(r.instances, p) == {i})
    && (Running(r.pools[p]) && !r'.pools[p].cancelled ==> Running(r'.pools[p]))
    && (Running(r'.pools[p]) ==> Holders(r'.instances, p) != {})
    && (Running(r'.pools[p]) && !Running(r.pools[p]) ==>
          r.active.Some? && Holders(r.instances, r.active.value) == {i})
  }

  lemma {:induction false} SoleHolder(r: Registry, i: nat, p: nat)
    requires RegistryOk(r) && i < |r.instances| && p < |r.pools|
    ensures Holders(r.instances, p) == {i} <==> Holds(r.instances[i], p) && r.pools[p].refs == 1
  {
    var hs := Holders(r.instances, p);
    assert Holds(r.instances[i], p) <==> i in hs;
    if i in hs && |hs| == 1 {
      assert |hs - {i}| == 0;
      assert hs == {i};
    }
  }

  lemma HoldersWithout(instances: seq<Instance>, i: nat, a: Instance, p: nat)
    requires i < |instances| && a.phase.Released?
    ensures Holders(instances[i := a], p) == Holders(instances, p) - {i}
  {}

  /** What the invariant says about one pool. */
  lemma PoolFacts(r: Registry, p: nat)
    requires RegistryOk(r) && p < |r.pools|
    ensures r.pools[p].refs == |Holders(r.instances, p)|
    ensures r.pools[p].cancelled <==> Holders(r.instances, p) == {}
    ensures Registered(r.states, p) <==> Holders(r.instances, p) != {}
    ensures Running(r.pools[p]) <==> r.active == Some(p)
  {}

  /** The tables have changed no further than `i` alone may have changed them. */
  ghost predicate Leaves(r: Registry, r': Registry, i: nat)
    requires i < |r.instances|
  {
    && r'.instances == r.instances[i := Instance(r.instances[i].identity, Released)]
    && |r'.pools| == |r.pools|
    && (forall id :: id in r'.states ==> id in r.states && r'.states[id] == r.states[id])
    && (r'.active == r.active || (r.active.Some? && Holders(r.instances, r.active.value) == {i}))
  }

  lemma LeavesTakesOut(r: Registry, r': Registry, i: nat)
    requires RegistryOk(r) && RegistryOk(r') && i < |r.instances| && Leaves(r, r', i)
    ensures TakenOut(r, r', i)
  {
    hide RegistryOk, Holders, PoolKept;
    forall p | 0 <= p < |r.pools| ensures PoolKept(r, r', i, p) { LeavesPool(r, r', i, p); }
    forall id ensures id in r'.states <==> id in r.states && Holders(r.instances, r.states[id]) != {i} {
      if id in r.states { LeavesEntry(r, r', i, id); }
    }
    forall j, p: nat | 0 <= j < |r.instances| && j != i && Holds(r.instances[j], p)
      ensures exists p :: 0 <= p < |r'.pools| && Running(r'.pools[p])
    {
      HeldMeansRunning(r', j, p);
    }
  }

  lemma LeavesPool(r: Registry, r': Registry, i: nat, p: nat)
    requires RegistryOk(r) && RegistryOk(r') && i < |r.instances| && Leaves(r, r', i) && p < |r.pools|
    ensures PoolKept(r, r', i, p)
  {
    hide RegistryOk, Holders, Holds;
    PoolFacts(r, p);
    PoolFacts(r', p);
    HoldersWithout(r.instances, i, Instance(r.instances[i].identity, Released), p);
  }

  lemma LeavesEntry(r: Registry, r': Registry, i: nat, id: string)
    requires RegistryOk(r) && RegistryOk(r') && i < |r.instances| && Leaves(r, r', i) && id in r.states
    ensures id in r'.states <==> Holders(r.instances, r.states[id]) != {i}
  {
    hide Holders, Holds, Running, RefsOk, InstancesOk, ActiveOk;
    var p := r.states[id];
    PoolFacts(r, p);
    PoolFacts(r', p);
    assert Registered(r.states, p);
    HoldersWithout(r.instances, i, Instance(r.instances[i].identity, Released), p);
  }

  lemma HeldMeansRunning(r: Registry, j: nat, p: nat)
    requires RegistryOk(r) && j < |r.instances| && Holds(r.instances[j], p)
    ensures exists q :: 0 <= q < |r.pools| && Running(r.pools[q])
  {
    assert Registered(r.states, r.active.value);
  }

  lemma FreshLeaves(r: Registry, i: nat)
    requires i < |r.instances|
    ensures Leaves(r, SetPhase(r, i, Released), i)
  {}

  lemma DropLeaves(r: Registry, i: nat, next: Option<string>)
    requires RegistryOk(r) && i < |r.instances| && r.instances[i].phase.Holding?
    requires DropEnabled(SetPhase(r, i, Releasing(r.instances[i].phase.pool)), i, next)
    ensures Leaves(r, DoDrop(SetPhase(r, i, Releasing(r.instances[i].phase.pool)), i, next), i)
  {
    hide DoDrop, RegistryOk, Holders;
    var p := r.instances[i].phase.pool;
    DropCases(SetPhase(r, i, Releasing(p)), i, next);
    SoleHolder(r, i, p);
  }

  lemma DropCases(r: Registry, i: nat, next: Option<string>)
    requires DropEnabled(r, i, next)
    ensures var p, id := r.instances[i].phase.pool, r.instances[i].identity;
      var instances := r.instances[i := Instance(id, Released)];
      var less := Pool(r.pools[p].refs - 1, r.pools[p].started, r.pools[p].cancelled);
      var pools := r.pools[p := Pool(0, r.pools[p].started, true)];
      DoDrop(r, i, next) ==
        if r.pools[p].refs > 1 then Registry(r.states, r.active, r.pools[p := less], instances)
        else if r.active != Some(p) then Registry(r.states - {id}, r.active, pools, instances)
        else if next.None? then Registry(r.states - {id}, None, pools, instances)
        else var q := r.states[next.value];
          Registry(r.states - {id}, Some(q), pools[q := Started(pools[q])], instances)
  {}
}
