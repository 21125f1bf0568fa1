/** The phased change of the encryption key that README.md describes for several servers on
    one storage.  Servers read, write and delete all the time and pick up each phase one by
    one; the operator waits for all of them before the next phase and re-encrypts what is
    left before the old key is dropped. */
module KeyRotation {
  import opened Common
  import opened Codec

  datatype Plan = Plan(lib: Library, oldKey: Bytes, newKey: Bytes)

  ghost predicate Sound(p: Plan) {
    && Lawful(p.lib) && ValidKey(p.oldKey) && ValidKey(p.newKey) && p.oldKey != p.newKey
    && OnlyOpens(p.lib, p.oldKey, [p.oldKey, p.newKey])
    && OnlyOpens(p.lib, p.newKey, [p.oldKey, p.newKey])
  }

  /** What a client asked to keep, and the compression setting of the server it asked. */
  datatype Written = Written(bytes: Bytes, compression: Compression)

  /** `stage[i]` counts the phases server i has finished; `left` are the names the
      re-encryption still has to visit, once it began. */
  datatype Sys = Sys(
    stage: seq<nat>, values: map<string, Stored>, written: map<string, Written>, left: Option<set<string>>)

  datatype Action =
    | Write(server: nat, name: string, what: Written, nonce: Bytes)
    | Remove(name: string)
    | Advance(server: nat)
    | BeginReencryption
    | Reencrypt(name: string, nonce: Bytes)

  /** The configuration of a server: old; old with new as fallback; new with old as
      fallback; new alone. */
  function SettingsAt(p: Plan, stage: nat, c: Compression): Settings {
    match stage
    case 0 => Settings(c, p.oldKey, [])
    case 1 => Settings(c, p.oldKey, [p.newKey])
    case 2 => Settings(c, p.newKey, [p.oldKey])
    case _ => Settings(c, p.newKey, [])
  }

  predicate AllReached(s: Sys, stage: nat) {
    forall i :: 0 <= i < |s.stage| ==> s.stage[i] >= stage
  }

  predicate NonePast(s: Sys, stage: nat) {
    forall i :: 0 <= i < |s.stage| ==> s.stage[i] <= stage
  }

  /** The rules of the procedure. */
  predicate Enabled(s: Sys, a: Action) {
    match a
    case Write(i, _, _, nonce) => i < |s.stage| && |nonce| == 12
    case Remove(_) => true
    case Advance(i) =>
      i < |s.stage| && s.stage[i] < 3 && AllReached(s, s.stage[i]) && (s.stage[i] == 2 ==> s.left == Some({}))
    case BeginReencryption => AllReached(s, 2) && s.left == None
    case Reencrypt(name, nonce) => s.left.Some? && name in s.left.value && |nonce| == 12
  }

  /** A record opened with the settings of the second phase and sealed with the new key; one
      that was stored without encryption stays as it is. */
  function Resealed(p: Plan, sd: Stored, nonce: Bytes): Stored {
    if sd.encryption == 0 then sd else
    match Decrypt(p.lib, p.newKey, [p.oldKey], sd.value)
    case Ok(body) => sd.(value := nonce + p.lib.seal(p.newKey, nonce, body))
    case Err(_) => sd
  }

  function Do(p: Plan, s: Sys, a: Action): Sys {
    if !Enabled(s, a) then s
    else match a
      case Write(i, name, what, nonce) =>
        (match Encode(p.lib, SettingsAt(p, s.stage[i], what.compression), nonce, what.bytes)
         case Ok(sd) => s.(values := s.values[name := sd], written := s.written[name := what])
         case Err(_) => s)
      case Remove(name) => s.(values := s.values - {name}, written := s.written - {name})
      case Advance(i) => s.(stage := s.stage[i := s.stage[i] + 1])
      case BeginReencryption => s.(left := Some(s.values.Keys))
      case Reencrypt(name, nonce) =>
        s.(left := Some(s.left.value - {name}),
           values := if name in s.values then s.values[name := Resealed(p, s.values[name], nonce)] else s.values)
  }

  function Run(p: Plan, s: Sys, actions: seq<Action>): Sys {
    if actions == [] then s else Do(p, Run(p, s, actions[..|actions| - 1]), actions[|actions| - 1])
  }

  /** The record is what a writer with key `k` makes of the value; the empty key stands for a
      writer without encryption. */
  ghost predicate Under(p: Plan, k: Bytes, sd: Stored, w: Written) {
    exists nonce :: |nonce| == 12 && Encode(p.lib, Settings(w.compression, k, []), nonce, w.bytes) == Ok(sd)
  }

  /** The named records are under key `k` or not encrypted. */
  ghost predicate AllUnder(p: Plan, s: Sys, k: Bytes, names: set<string>) {
    && s.values.Keys == s.written.Keys
    && forall name :: name in names && name in s.values ==>
         Under(p, k, s.values[name], s.written[name]) || Under(p, [], s.values[name], s.written[name])
  }

  /** Before the procedure: one key everywhere, beside records from before any key was set. */
  ghost predicate Start(p: Plan, s: Sys) {
    && NonePast(s, 0) && s.left == None && AllUnder(p, s, p.oldKey, s.values.Keys)
  }

  ghost predicate EachUnder(p: Plan, s: Sys) {
    && s.values.Keys == s.written.Keys
    && forall name :: name in s.values ==>
         || Under(p, p.oldKey, s.values[name], s.written[name])
         || Under(p, p.newKey, s.values[name], s.written[name])
         || Under(p, [], s.values[name], s.written[name])
  }

  ghost predicate Inv(p: Plan, s: Sys) {
    && (forall i, j :: 0 <= i < |s.stage| && 0 <= j < |s.stage| ==> s.stage[i] <= s.stage[j] + 1)
    && NonePast(s, 3)
    && EachUnder(p, s)
    && (s.left == None && NonePast(s, 1) ==> AllUnder(p, s, p.oldKey, s.values.Keys))
    && (s.left.Some? ==> AllReached(s, 2) && AllUnder(p, s, p.newKey, s.values.Keys - s.left.value))
    && (s.left != Some({}) ==> NonePast(s, 2))
  }

  /** A key the record is under. */
  ghost function KeyOf(p: Plan, sd: Stored, w: Written): (k: Bytes)
    requires Under(p, p.oldKey, sd, w) || Under(p, p.newKey, sd, w) || Under(p, [], sd, w)
    ensures k in [p.oldKey, p.newKey, []] && Under(p, k, sd, w)
  {
    if Under(p, p.oldKey, sd, w) then p.oldKey else if Under(p, p.newKey, sd, w) then p.newKey else []
  }

  lemma StageSeparates(p: Plan, stage: nat, c: Compression, k: Bytes)
    requires Sound(p) && (k == p.oldKey || k == p.newKey)
    ensures OnlyOpens(p.lib, k, Keys(SettingsAt(p, stage, c)))
  {
    hide Lawful;
    assert p.oldKey in [p.oldKey, p.newKey] && p.newKey in [p.oldKey, p.newKey];
    assert forall other :: other in Keys(SettingsAt(p, stage, c)) ==> other == p.oldKey || other == p.newKey;
  }

  /** A server at some stage reads a record exactly when it has the record's key. */
  lemma LoadsIff(p: Plan, stage: nat, c: Compression, k: Bytes, sd: Stored, w: Written)
    requires Sound(p) && k in [p.oldKey, p.newKey, []] && Under(p, k, sd, w)
    ensures Decode(p.lib, SettingsAt(p, stage, c), sd) == Ok(w.bytes) <==>
            Fits(p.lib, w.compression, w.bytes) && (k == [] || k in Keys(SettingsAt(p, stage, c)))
  {
    hide Encode, Decode, Lawful, Fits, OnlyOpens;
    var nonce :| |nonce| == 12 && Encode(p.lib, Settings(w.compression, k, []), nonce, w.bytes) == Ok(sd);
    if k != [] { StageSeparates(p, stage, c, k); }
    LoadAfterStoreIff(p.lib, Settings(w.compression, k, []), SettingsAt(p, stage, c), nonce, w.bytes);
  }

  lemma ResealedUnder(p: Plan, sd: Stored, w: Written, k: Bytes, nonce: Bytes)
    requires Sound(p) && k in [p.oldKey, p.newKey, []] && Under(p, k, sd, w) && |nonce| == 12
    ensures Under(p, if k == [] then [] else p.newKey, Resealed(p, sd, nonce), w)
  {
    hide Lawful, OnlyOpens, Decrypt, Shrinks, Compress;
    var before :| |before| == 12 && Encode(p.lib, Settings(w.compression, k, []), before, w.bytes) == Ok(sd);
    var body := if Shrinks(p.lib, w.compression, w.bytes) then Compress(p.lib, w.compression, w.bytes) else w.bytes;
    if k == [] { return; }
    StageSeparates(p, 2, w.compression, k);
    DecryptSealed(p.lib, k, before, body, SettingsAt(p, 2, w.compression));
    assert Encode(p.lib, Settings(w.compression, p.newKey, []), nonce, w.bytes) == Ok(Resealed(p, sd, nonce));
  }

  lemma WriteUnder(p: Plan, stage: nat, w: Written, nonce: Bytes)
    requires Sound(p) && |nonce| == 12
    ensures var r := Encode(p.lib, SettingsAt(p, stage, w.compression), nonce, w.bytes);
            r.Ok? && Under(p, if stage <= 1 then p.oldKey else p.newKey, r.value, w)
  {
    var k := if stage <= 1 then p.oldKey else p.newKey;
    assert Encode(p.lib, Settings(w.compression, k, []), nonce, w.bytes)
        == Encode(p.lib, SettingsAt(p, stage, w.compression), nonce, w.bytes);
  }

  lemma WriteKeeps(p: Plan, s: Sys, a: Action)
    requires Sound(p) && Inv(p, s) && Enabled(s, a) && a.Write?
    ensures Inv(p, Do(p, s, a))
  {
    hide Encode, Under;
    WriteUnder(p, s.stage[a.server], a.what, a.nonce);
  }

  lemma AdvanceKeeps(p: Plan, s: Sys, a: Action)
    requires Sound(p) && Inv(p, s) && Enabled(s, a) && a.Advance?
    ensures Inv(p, Do(p, s, a))
  {
    hide Encode, Under;
    var now := Do(p, s, a);
    assert forall j :: 0 <= j < |s.stage| ==> s.stage[j] <= now.stage[j] <= s.stage[j] + 1;
    assert now.stage[a.server] == s.stage[a.server] + 1;
  }

  lemma ReencryptKeeps(p: Plan, s: Sys, a: Action)
    requires Sound(p) && Inv(p, s) && Enabled(s, a) && a.Reencrypt?
    ensures Inv(p, Do(p, s, a))
  {
    hide Encode, Under, Resealed;
    if a.name in s.values {
      var sd, w := s.values[a.name], s.written[a.name];
      ResealedUnder(p, sd, w, KeyOf(p, sd, w), a.nonce);
    }
  }

  lemma StepKeeps(p: Plan, s: Sys, a: Action)
    requires Sound(p) && Inv(p, s)
    ensures Inv(p, Do(p, s, a))
  {
    hide Encode, Under, Resealed;
    if Enabled(s, a) {
      match a
      case Write(_, _, _, _) => WriteKeeps(p, s, a);
      case Advance(_) => AdvanceKeeps(p, s, a);
      case Reencrypt(_, _) => ReencryptKeeps(p, s, a);
      case _ =>
    }
  }

  lemma {:induction false} RunKeeps(p: Plan, s: Sys, actions: seq<Action>)
    requires Sound(p) && Start(p, s)
    ensures Inv(p, Run(p, s, actions))
  {
    hide Under, Do;
    if actions != [] {
      RunKeeps(p, s, actions[..|actions| - 1]);
      StepKeeps(p, Run(p, s, actions[..|actions| - 1]), actions[|actions| - 1]);
    }
  }

  // ----- what the run should hold -----

  /** What the last Write or Remove of `name` by one of the servers left of it, and what the
      start had of it if there is none.  It looks at the actions alone. */
  function LastWord(servers: nat, start: map<string, Written>, actions: seq<Action>, name: string): Option<Written> {
    if actions == [] then if name in start then Some(start[name]) else None
    else
      var before := LastWord(servers, start, actions[..|actions| - 1], name);
      match actions[|actions| - 1]
      case Write(i, n, what, nonce) => if n == name && i < servers && |nonce| == 12 then Some(what) else before
      case Remove(n) => if n == name then None else before
      case _ => before
  }

  /** One action moves at most the stage of the server it names, and that by one. */
  lemma AdvanceRaisesOne(p: Plan, s: Sys, a: Action, i: nat)
    requires i < |s.stage|
    ensures |Do(p, s, a).stage| == |s.stage|
    ensures Do(p, s, a).stage[i] == s.stage[i] + if a == Advance(i) && Enabled(s, a) then 1 else 0
  {
    hide Encode, Resealed;
  }

  lemma DoSays(p: Plan, s: Sys, a: Action, name: string, before: Option<Written>)
    requires Sound(p) && (if name in s.written then before == Some(s.written[name]) else before == None)
    ensures var now := Do(p, s, a);
      var after := match a
        case Write(i, n, what, nonce) => if n == name && i < |s.stage| && |nonce| == 12 then Some(what) else before
        case Remove(n) => if n == name then None else before
        case _ => before;
      && |now.stage| == |s.stage|
      && if name in now.written then after == Some(now.written[name]) else after == None
  {
    hide Encode, Resealed, Sound, Under;
    if a.Write? && Enabled(s, a) { WriteUnder(p, s.stage[a.server], a.what, a.nonce); }
  }

  lemma {:induction false} WrittenIsLastWord(p: Plan, s: Sys, actions: seq<Action>, name: string)
    requires Sound(p)
    ensures var now, last := Run(p, s, actions), LastWord(|s.stage|, s.written, actions, name);
      && |now.stage| == |s.stage|
      && if name in now.written then last == Some(now.written[name]) else last == None
  {
    hide Do, Sound;
    if actions != [] {
      var before := actions[..|actions| - 1];
      WrittenIsLastWord(p, s, before, name);
      DoSays(p, Run(p, s, before), actions[|actions| - 1], name, LastWord(|s.stage|, s.written, before, name));
    }
  }

  /** At every moment of every run, every server finds exactly the names whose last word is a
      Write, or that were there from the start, and loads the bytes of that Write, whichever
      server made it, and also what was stored before any key was set (values above 4 MiB that
      were compressed never load, rotation or not). */
  lemma EveryServerAlwaysLoads(p: Plan, s: Sys, actions: seq<Action>, i: nat, c: Compression, name: string)
    requires Sound(p) && Start(p, s) && i < |s.stage|
    ensures var now, last := Run(p, s, actions), LastWord(|s.stage|, s.written, actions, name);
            && i < |now.stage| && (name in now.values <==> last.Some?)
            && (name in now.values ==>
                  (Decode(p.lib, SettingsAt(p, now.stage[i], c), now.values[name]) == Ok(last.value.bytes) <==>
                   Fits(p.lib, last.value.compression, last.value.bytes)))
  {
    hide Sound, Start, Inv, Under, Do, Decode, Fits, LastWord;
    RunKeeps(p, s, actions);
    WrittenIsLastWord(p, s, actions, name);
    var now := Run(p, s, actions);
    InvLoads(p, now, i, c, name);
  }

  lemma InvLoads(p: Plan, now: Sys, i: nat, c: Compression, name: string)
    requires Sound(p) && Inv(p, now) && i < |now.stage|
    ensures name in now.values <==> name in now.written
    ensures name in now.values ==>
      (Decode(p.lib, SettingsAt(p, now.stage[i], c), now.values[name]) == Ok(now.written[name].bytes) <==>
       Fits(p.lib, now.written[name].compression, now.written[name].bytes))
  {
    hide Under, Decode, Fits;
    if name !in now.values { return; }
    var sd, w := now.values[name], now.written[name];
    if now.stage[i] == 0 {
      assert forall j :: 0 <= j < |now.stage| ==> now.stage[j] <= now.stage[i] + 1;
      LoadsIff(p, 0, c, if Under(p, p.oldKey, sd, w) then p.oldKey else [], sd, w);
    } else if now.stage[i] >= 3 {
      LoadsIff(p, 3, c, if Under(p, p.newKey, sd, w) then p.newKey else [], sd, w);
    } else {
      LoadsIff(p, now.stage[i], c, KeyOf(p, sd, w), sd, w);
    }
  }

  // ----- the procedure can always be finished -----

  function Total(stage: seq<nat>): nat { if stage == [] then 0 else stage[0] + Total(stage[1..]) }

  lemma {:induction false} TotalRaised(stage: seq<nat>, i: nat)
    requires i < |stage|
    ensures Total(stage[i := stage[i] + 1]) == Total(stage) + 1
  {
    var raised := stage[i := stage[i] + 1];
    if i == 0 { assert raised[1..] == stage[1..]; }
    else {
      TotalRaised(stage[1..], i - 1);
      assert raised[1..] == stage[1..][i - 1 := stage[1..][i - 1] + 1];
    }
  }

  lemma {:induction false} TotalBound(stage: seq<nat>)
    requires forall i :: 0 <= i < |stage| ==> stage[i] <= 3
    ensures Total(stage) <= 3 * |stage|
  {
    if stage != [] { TotalBound(stage[1..]); }
  }

  lemma {:induction false} Slowest(stage: seq<nat>) returns (i: nat)
    requires stage != []
    ensures i < |stage| && forall j :: 0 <= j < |stage| ==> stage[i] <= stage[j]
  {
    i := 0;
    if |stage| > 1 {
      var k := Slowest(stage[1..]);
      assert forall j :: 1 <= j < |stage| ==> stage[j] == stage[1..][j - 1];
      if stage[k + 1] < stage[0] { i := k + 1; }
    }
  }

  ghost predicate Pending(s: Sys, a: Action) {
    a.Advance? || (a.BeginReencryption? && s.left.None?) || (a.Reencrypt? && s.left.Some? && a.name in s.left.value)
  }

  /** The operator's next action in a rotation that is not finished. */
  lemma NextAction(s: Sys) returns (a: Action)
    requires !AllReached(s, 3)
    ensures Enabled(s, a) && Pending(s, a)
  {
    var i := Slowest(s.stage);
    if s.stage[i] < 2 || s.left == Some({}) { return Advance(i); }
    if s.left.None? { return BeginReencryption; }
    assert s.left.value != {};
    var name :| name in s.left.value;
    return Reencrypt(name, seq(12, _ => 0));
  }

  function ToVisit(s: Sys): nat { if s.left.None? then 0 else |s.left.value| }

  lemma NextActionHelps(p: Plan, s: Sys, a: Action)
    requires Enabled(s, a) && Pending(s, a)
    ensures var now := Do(p, s, a);
      if a.Advance? then Total(now.stage) == Total(s.stage) + 1
      else now.stage == s.stage && now.left.Some? && (s.left.Some? ==> ToVisit(now) < ToVisit(s))
  {
    hide Encode, Resealed, AllReached;
    if a.Advance? { TotalRaised(s.stage, a.server); }
    if a.Reencrypt? { assert a.name !in Do(p, s, a).left.value; RemoveSmaller(s.left.value, a.name); }
  }

  lemma RemoveSmaller<T>(s: set<T>, x: T)
    requires x in s
    ensures |s - {x}| < |s|
  {}

  lemma RunOneMore(p: Plan, s: Sys, actions: seq<Action>, a: Action)
    ensures Run(p, s, actions + [a]) == Do(p, Run(p, s, actions), a)
  {
    assert (actions + [a])[..|actions + [a]| - 1] == actions;
  }

  /** Whatever the servers did so far, the operator can still bring all of them to the new key
      alone, and needs no word written or removed for that. */
  lemma {:induction false} RotationCanBeFinished(p: Plan, s: Sys, actions: seq<Action>) returns (more: seq<Action>)
    requires Sound(p) && Start(p, s)
    ensures forall k :: 0 <= k < |more| ==> !more[k].Write? && !more[k].Remove?
    ensures AllReached(Run(p, s, actions + more), 3)
    decreases 3 * |s.stage| - Total(Run(p, s, actions).stage), Run(p, s, actions).left.None?,
              ToVisit(Run(p, s, actions))
  {
    hide Sound, Start, Do, Under, EachUnder, AllUnder, Total;
    var now := Run(p, s, actions);
    RunKeeps(p, s, actions);
    WrittenIsLastWord(p, s, actions, "");
    TotalBound(now.stage);
    if AllReached(now, 3) {
      more := [];
      assert actions + more == actions;
    } else {
      var a := NextAction(now);
      NextActionHelps(p, now, a);
      RunOneMore(p, s, actions, a);
      RunKeeps(p, s, actions + [a]);
      var rest := RotationCanBeFinished(p, s, actions + [a]);
      more := [a] + rest;
      assert actions + more == (actions + [a]) + rest;
    }
  }

  /** Once one server has dropped the old key no record needs it, so a finished rotation
      is a start for the next one. */
  lemma FinishedRotationIsAStart(p: Plan, s: Sys, actions: seq<Action>, nextKey: Bytes)
    requires Sound(p) && Start(p, s)
    ensures var now := Run(p, s, actions);
            && (!NonePast(now, 2) ==> AllUnder(p, now, p.newKey, now.values.Keys))
            && (!NonePast(now, 2) ==>
                  var next := Plan(p.lib, p.newKey, nextKey);
                  Start(next, now.(stage := seq(|now.stage|, i => 0), left := None)))
  {
    hide Do, Encode;
    RunKeeps(p, s, actions);
    var now := Run(p, s, actions);
    if !NonePast(now, 2) {
      assert now.values.Keys - {} == now.values.Keys;
      var next := Plan(p.lib, p.newKey, nextKey);
      forall name | name in now.values
        ensures Under(next, p.newKey, now.values[name], now.written[name])
             || Under(next, [], now.values[name], now.written[name])
      {
        var k := if Under(p, p.newKey, now.values[name], now.written[name]) then p.newKey else [];
        UnderAnyPlan(p, next, k, now.values[name], now.written[name]);
      }
    }
  }

  lemma UnderAnyPlan(p: Plan, q: Plan, k: Bytes, sd: Stored, w: Written)
    requires Under(p, k, sd, w) && p.lib == q.lib
    ensures Under(q, k, sd, w)
  {
    hide Encode;
    var nonce :| |nonce| == 12 && Encode(p.lib, Settings(w.compression, k, []), nonce, w.bytes) == Ok(sd);
    assert Encode(q.lib, Settings(w.compression, k, []), nonce, w.bytes) == Ok(sd);
  }

  /** Why the phases cannot be merged: what a server of one phase writes, a server two phases
      behind cannot read; and without re-encryption a server that dropped the old key cannot
      read what is left. */
  lemma SkippedPhaseBreaksReads(p: Plan, writer: nat, reader: nat, w: Written, nonce: Bytes, c: Compression)
    requires Sound(p) && |nonce| == 12 && writer <= 3 && reader <= 3
    ensures var r := Encode(p.lib, SettingsAt(p, writer, w.compression), nonce, w.bytes);
            r.Ok? && (Decode(p.lib, SettingsAt(p, reader, c), r.value) == Ok(w.bytes) <==>
                      && Fits(p.lib, w.compression, w.bytes)
                      && !(writer >= 2 && reader == 0) && !(writer <= 1 && reader == 3))
  {
    hide Encode, Decode, Fits, Under, Lawful, OnlyOpens;
    WriteUnder(p, writer, w, nonce);
    var sd := Encode(p.lib, SettingsAt(p, writer, w.compression), nonce, w.bytes).value;
    LoadsIff(p, reader, c, if writer <= 1 then p.oldKey else p.newKey, sd, w);
  }
}
