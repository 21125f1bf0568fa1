/** Any number of Stores at once, interleaved between their single Redis commands. */
module Concurrent {
  import opened Common
  import opened Redis
  import opened DirectoryIndex

  /** Where a Store stands: before the ZADD that links `key[..n]` into its parent, before
      its SET, or finished. */
  datatype Pc = Climb(n: nat) | Write | Done | Failed

  datatype StoreOp = StoreOp(key: Path, bytes: string, pc: Pc) {
    ghost predicate Fits() { pc.Climb? ==> 2 <= pc.n <= |key| }
  }

  datatype Sys = Sys(db: Db, ops: seq<StoreOp>)

  function From(n: nat): Pc { if n <= 1 then Write else Climb(n) }

  function Begin(key: Path, bytes: string): StoreOp { StoreOp(key, bytes, From(|key|)) }

  /** One command of one Store. */
  function StepDb(db: Db, op: StoreOp): Db
    requires op.Fits()
  {
    match op.pc
    case Climb(n) => ZAdd(Conn(db, Unlimited), op.key[..n - 1], LinkAt(op.key, n - 1)).conn.db
    case Write => Set(Conn(db, Unlimited), op.key, Record(op.bytes)).conn.db
    case _ => db
  }

  function StepPc(db: Db, op: StoreOp): Pc
    requires op.Fits()
  {
    match op.pc
    case Climb(n) =>
      var z := ZAdd(Conn(db, Unlimited), op.key[..n - 1], LinkAt(op.key, n - 1));
      if z.Fail? then Failed else if z.hit then From(n - 1) else Write
    case Write => Done
    case pc => pc
  }

  /** Store number `i` sends its next command. */
  function Step(s: Sys, i: nat): Sys
    requires i < |s.ops| && s.ops[i].Fits()
  {
    Sys(StepDb(s.db, s.ops[i]), s.ops[i := s.ops[i].(pc := StepPc(s.db, s.ops[i]))])
  }

  /** `t` is reached from `s` by single commands in the order of `schedule`. */
  ghost predicate Reaches(s: Sys, schedule: seq<nat>, t: Sys)
    decreases |schedule|
  {
    if schedule == [] then t == s
    else var i := schedule[0];
      i < |s.ops| && s.ops[i].Fits() && Reaches(Step(s, i), schedule[1..], t)
  }

  // ----- one Store on its own is the Store of the source -----

  /** A Store that is never interrupted by another runs through exactly the commands of
      DirectoryIndex.LinkUp; after the climb it stands before its SET. */
  lemma {:induction false} ClimbAlone(db: Db, key: Path, bytes: string, n: nat) returns (schedule: seq<nat>, t: Sys)
    requires 1 <= n <= |key| && NoEmptySet(db) && Clear(db, key, n)
    ensures Reaches(Sys(db, [StoreOp(key, bytes, From(n))]), schedule, t)
    ensures t == Sys(LinkUp(Conn(db, Unlimited), key[..n], n < |key|, false).conn.db, [StoreOp(key, bytes, Write)])
    decreases n
  {
    hide LinkUp, ZAdd, Grown, NoEmptySet, Clear;
    var s := Sys(db, [StoreOp(key, bytes, From(n))]);
    if n == 1 {
      LinkUpIdle(db, Unlimited, key, n, false);
      schedule, t := [], s;
    } else {
      var z := ZAdd(Conn(db, Unlimited), key[..n - 1], LinkAt(key, n - 1));
      assert !IsStr(db, key[..n - 1]) by { ClearAt(db, key, n, n - 1); }
      LinkUpStep(Conn(db, Unlimited), key, n, false);
      GrownByZAdd(db, Unlimited, key, n - 1);
      assert Step(s, 0).ops == [StoreOp(key, bytes, if z.hit then From(n - 1) else Write)];
      var rest: seq<nat>;
      if z.hit {
        StepKeepsRest(db, z.conn.db, key, n);
        rest, t := ClimbAlone(z.conn.db, key, bytes, n - 1);
      } else {
        rest, t := [], Step(s, 0);
      }
      schedule := [0] + rest;
      assert schedule[1..] == rest;
    }
  }

  // ----- the invariant -----

  /** The keys of the Stores lie below the root and collide neither with the database they
      start from nor with each other. */
  ghost predicate Compatible(db0: Db, root: Path, ops: seq<StoreOp>) {
    && (forall i :: 0 <= i < |ops| ==> Below(root, ops[i].key) && !Conflict(db0, ops[i].key))
    && (forall i, j :: 0 <= i < |ops| && 0 <= j < |ops| ==> !Under(ops[i].key, ops[j].key))
  }

  /** A string changes only to the value of a finished Store of that key, and the key of a
      finished Store holds the value of one. */
  ghost predicate StringsFromOps(db0: Db, s: Sys) {
    && (forall p :: StrAt(s.db, p) == StrAt(db0, p) || WrittenBy(s, p, StrAt(s.db, p)))
    && (forall i :: 0 <= i < |s.ops| && s.ops[i].pc.Done? ==> WrittenBy(s, s.ops[i].key, StrAt(s.db, s.ops[i].key)))
  }

  ghost predicate WrittenBy(s: Sys, p: Path, v: Option<Value>) {
    exists i :: 0 <= i < |s.ops| && s.ops[i].key == p && s.ops[i].pc.Done? && v == Some(Record(s.ops[i].bytes))
  }

  /** Every member was there at the start or is a link of one of the Stores. */
  ghost predicate MembersFromOps(db0: Db, s: Sys) {
    && (forall d, m :: m in Members(s.db, d) ==> m in Members(db0, d) || LinkOfSome(s.ops, d, m))
    && (forall d, m :: m in Members(db0, d) ==> m in Members(s.db, d))
  }

  ghost predicate LinkOfSome(ops: seq<StoreOp>, d: Path, m: Member) {
    exists i :: 0 <= i < |ops| && IsLink(ops[i].key, 1, |ops[i].key|, d, m)
  }

  /** The next command of `op` links directory `d` into its parent. */
  predicate AboutToLink(op: StoreOp, d: Path) {
    op.pc == Climb(|d|) && |d| < |op.key| && op.key[..|d|] == d
  }

  /** Every non-empty directory below the root is linked in its parent or about to be. */
  ghost predicate NoLostDirectory(root: Path, s: Sys) {
    forall d :: Under(root, d) && Members(s.db, d) != {} ==>
      DirLinked(s.db, d) || exists i :: 0 <= i < |s.ops| && AboutToLink(s.ops[i], d)
  }

  /** No Store failed, and each one past its first ZADD has its file entry in place. */
  ghost predicate OpsOnTrack(s: Sys) {
    forall i :: 0 <= i < |s.ops| ==> OnTrack(s.db, s.ops[i])
  }

  ghost predicate OnTrack(db: Db, op: StoreOp) {
    && op.Fits() && !op.pc.Failed?
    && (|op.key| >= 2 && op.pc != Climb(|op.key|) ==> Linked(db, op.key, |op.key| - 1))
  }

  ghost predicate Inv(db0: Db, root: Path, s: Sys) {
    && NoEmptySet(s.db)
    && StringsFromOps(db0, s) && MembersFromOps(db0, s) && OpsOnTrack(s) && NoLostDirectory(root, s)
  }

  // ----- every command keeps it -----

  lemma PathStaysClear(db0: Db, root: Path, s: Sys, i: nat)
    requires Compatible(db0, root, s.ops) && StringsFromOps(db0, s) && i < |s.ops|
    ensures Clear(s.db, s.ops[i].key, |s.ops[i].key|)
  {
    var k := s.ops[i].key;
    forall j | 1 <= j < |k| ensures !IsStr(s.db, k[..j]) {
      var p := k[..j];
      assert Under(p, k);
      assert StrAt(s.db, p) == StrAt(db0, p) || WrittenBy(s, p, StrAt(s.db, p));
      assert forall l :: 0 <= l < |s.ops| ==> s.ops[l].key != p;
    }
  }

  lemma KeyIsNoDirectory(db0: Db, root: Path, s: Sys, i: nat)
    requires Consistent(db0, root) && Compatible(db0, root, s.ops) && MembersFromOps(db0, s) && i < |s.ops|
    ensures Members(s.db, s.ops[i].key) == {}
  {
    var k := s.ops[i].key;
    NoSetWithoutStored(db0, root, k);
    forall m ensures m !in Members(s.db, k) {
      forall l | 0 <= l < |s.ops| ensures !IsLink(s.ops[l].key, 1, |s.ops[l].key|, k, m) {
        assert !Under(k, s.ops[l].key);
      }
      assert m in Members(s.db, k) ==> m in Members(db0, k) || LinkOfSome(s.ops, k, m);
    }
  }

  lemma ClimbEffect(s: Sys, i: nat)
    requires i < |s.ops| && s.ops[i].Fits() && s.ops[i].pc.Climb? && NoEmptySet(s.db)
    requires Clear(s.db, s.ops[i].key, |s.ops[i].key|)
    ensures var op, n := s.ops[i], s.ops[i].pc.n;
      && Grown(s.db, Step(s, i).db, op.key, n - 1, n)
      && Step(s, i).ops == s.ops[i := op.(pc := if Linked(s.db, op.key, n - 1) then Write else From(n - 1))]
  {
    hide Grown, NoEmptySet, ZAdd;
    GrownByZAdd(s.db, Unlimited, s.ops[i].key, s.ops[i].pc.n - 1);
  }

  /** What one ZADD of Store `i` does to the system, without naming the command. */
  ghost predicate Climbed(s: Sys, i: nat, t: Sys) {
    && i < |s.ops| && s.ops[i].Fits() && s.ops[i].pc.Climb?
    && var op, n := s.ops[i], s.ops[i].pc.n;
       && Grown(s.db, t.db, op.key, n - 1, n)
       && t.ops == s.ops[i := op.(pc := if Linked(s.db, op.key, n - 1) then Write else From(n - 1))]
  }

  lemma WrittenStays(s: Sys, t: Sys, p: Path, v: Option<Value>)
    requires |s.ops| == |t.ops| && forall l :: 0 <= l < |s.ops| && s.ops[l].pc.Done? ==> t.ops[l] == s.ops[l]
    ensures WrittenBy(s, p, v) ==> WrittenBy(t, p, v)
  {
    if WrittenBy(s, p, v) {
      var l :| 0 <= l < |s.ops| && s.ops[l].key == p && s.ops[l].pc.Done? && v == Some(Record(s.ops[l].bytes));
      assert t.ops[l] == s.ops[l];
    }
  }

  lemma ClimbedStrings(db0: Db, s: Sys, i: nat, t: Sys)
    requires Climbed(s, i, t) && StringsFromOps(db0, s)
    ensures StringsFromOps(db0, t)
  {
    hide WrittenBy;
    assert forall l :: 0 <= l < |s.ops| && s.ops[l].pc.Done? ==> t.ops[l] == s.ops[l];
    forall p
      ensures StrAt(t.db, p) == StrAt(s.db, p) && (WrittenBy(s, p, StrAt(s.db, p)) ==> WrittenBy(t, p, StrAt(t.db, p)))
    {
      WrittenStays(s, t, p, StrAt(s.db, p));
    }
    forall l | 0 <= l < |t.ops| && t.ops[l].pc.Done? ensures WrittenBy(t, t.ops[l].key, StrAt(t.db, t.ops[l].key)) {
      assert t.ops[l] == s.ops[l];
    }
  }

  lemma ClimbedMembers(db0: Db, s: Sys, i: nat, t: Sys)
    requires Climbed(s, i, t) && MembersFromOps(db0, s)
    ensures MembersFromOps(db0, t)
  {
    forall d, m ensures m in Members(t.db, d) ==> m in Members(db0, d) || LinkOfSome(t.ops, d, m)
      ensures m in Members(db0, d) ==> m in Members(t.db, d)
    {
      var op, n := s.ops[i], s.ops[i].pc.n;
      assert m in Members(t.db, d) <==> m in Members(s.db, d) || IsLink(op.key, n - 1, n, d, m);
      assert t.ops[i].key == op.key;
      if LinkOfSome(s.ops, d, m) {
        var l :| 0 <= l < |s.ops| && IsLink(s.ops[l].key, 1, |s.ops[l].key|, d, m);
        assert t.ops[l].key == s.ops[l].key;
      } else if IsLink(op.key, n - 1, n, d, m) {
        assert IsLink(t.ops[i].key, 1, |t.ops[i].key|, d, m);
      }
    }
  }

  lemma ClimbedOnTrack(s: Sys, i: nat, t: Sys)
    requires Climbed(s, i, t) && OpsOnTrack(s)
    ensures OpsOnTrack(t)
  {
    forall l | 0 <= l < |t.ops| ensures OnTrack(t.db, t.ops[l]) {
      assert OnTrack(s.db, s.ops[l]);
      var k, op, n := s.ops[l].key, s.ops[i], s.ops[i].pc.n;
      if |k| >= 2 {
        var d, m := k[..|k| - 1], LinkAt(k, |k| - 1);
        assert m in Members(t.db, d) <==> m in Members(s.db, d) || IsLink(op.key, n - 1, n, d, m);
      }
    }
  }

  lemma ClimbedNoLost(root: Path, s: Sys, i: nat, t: Sys)
    requires Climbed(s, i, t) && NoLostDirectory(root, s) && |root| >= 1
    ensures NoLostDirectory(root, t)
  {
    hide Climbed;
    forall d | Under(root, d) && Members(t.db, d) != {}
      ensures DirLinked(t.db, d) || exists l :: 0 <= l < |t.ops| && AboutToLink(t.ops[l], d)
    {
      if Members(s.db, d) == {} {
        NewDirectoryIsAnnounced(s, i, t, d);
      } else if DirLinked(s.db, d) {
        DirLinkStays(s, i, t, d);
      } else {
        var l :| 0 <= l < |s.ops| && AboutToLink(s.ops[l], d);
        AnnouncedIsKept(s, i, t, d, l);
      }
    }
  }

  lemma NewDirectoryIsAnnounced(s: Sys, i: nat, t: Sys, d: Path)
    requires Climbed(s, i, t) && |d| >= 2 && Members(s.db, d) == {} && Members(t.db, d) != {}
    ensures i < |t.ops| && AboutToLink(t.ops[i], d)
  {
    var op, n := s.ops[i], s.ops[i].pc.n;
    assert forall m :: m in Members(t.db, d) <==> m in Members(s.db, d) || IsLink(op.key, n - 1, n, d, m);
    assert d == op.key[..n - 1];
  }

  lemma DirLinkStays(s: Sys, i: nat, t: Sys, d: Path)
    requires Climbed(s, i, t) && |d| >= 2 && DirLinked(s.db, d)
    ensures DirLinked(t.db, d)
  {}

  lemma AnnouncedIsKept(s: Sys, i: nat, t: Sys, d: Path, l: nat)
    requires Climbed(s, i, t) && |d| >= 2 && l < |s.ops| && AboutToLink(s.ops[l], d)
    ensures l < |t.ops| && (AboutToLink(t.ops[l], d) || DirLinked(t.db, d))
  {
    if l == i {
      var op, n, up := s.ops[i], s.ops[i].pc.n, Dir(d[|d| - 1]);
      assert Parent(d) == op.key[..n - 1];
      assert up in Members(t.db, Parent(d)) <==>
             up in Members(s.db, Parent(d)) || IsLink(op.key, n - 1, n, Parent(d), up);
    }
  }

  lemma GrownSets(s: Sys, i: nat, t: Sys)
    requires Climbed(s, i, t)
    ensures NoEmptySet(t.db)
  {}

  lemma WriteEffect(db0: Db, root: Path, s: Sys, i: nat)
    requires Consistent(db0, root) && Compatible(db0, root, s.ops) && Inv(db0, root, s)
    requires i < |s.ops| && s.ops[i].pc.Write?
    ensures var t := Step(s, i);
            NoEmptySet(t.db) && forall d :: Members(t.db, d) == Members(s.db, d)
  {
    hide Consistent, MembersFromOps, StringsFromOps, OpsOnTrack, NoLostDirectory, Conflict;
    KeyIsNoDirectory(db0, root, s, i);
  }

  /** The SET of Store `i` touches nothing but its own key. */
  lemma WriteKeeps(db0: Db, root: Path, s: Sys, i: nat)
    requires Consistent(db0, root) && Compatible(db0, root, s.ops) && Inv(db0, root, s)
    requires i < |s.ops| && s.ops[i].pc.Write?
    ensures Inv(db0, root, Step(s, i))
  {
    hide Consistent, Compatible, NoEmptySet, StepDb, Members;
    hide MembersFromOps, StringsFromOps, OpsOnTrack, NoLostDirectory;
    var t := Step(s, i);
    WriteEffect(db0, root, s, i);
    WriteStrings(db0, s, i);
    WriteMembers(db0, s, t);
    WriteOnTrack(s, i, t);
    WriteNoLost(root, s, i, t);
  }

  lemma SameLinks(s: Sys, t: Sys, d: Path, m: Member)
    requires |s.ops| == |t.ops| && forall l :: 0 <= l < |s.ops| ==> s.ops[l].key == t.ops[l].key
    ensures LinkOfSome(s.ops, d, m) ==> LinkOfSome(t.ops, d, m)
  {
    hide IsLink;
    if LinkOfSome(s.ops, d, m) {
      var l :| 0 <= l < |s.ops| && IsLink(s.ops[l].key, 1, |s.ops[l].key|, d, m);
      assert IsLink(t.ops[l].key, 1, |t.ops[l].key|, d, m);
    }
  }

  lemma WriteMembers(db0: Db, s: Sys, t: Sys)
    requires |s.ops| == |t.ops| && forall l :: 0 <= l < |s.ops| ==> s.ops[l].key == t.ops[l].key
    requires (forall d :: Members(t.db, d) == Members(s.db, d)) && MembersFromOps(db0, s)
    ensures MembersFromOps(db0, t)
  {
    hide LinkOfSome, Members;
    forall d, m | LinkOfSome(s.ops, d, m) ensures LinkOfSome(t.ops, d, m) { SameLinks(s, t, d, m); }
  }

  lemma SameLinked(a: Db, b: Db, k: Path)
    requires forall d :: Members(a, d) == Members(b, d)
    ensures |k| >= 2 && Linked(a, k, |k| - 1) ==> Linked(b, k, |k| - 1)
  {}

  lemma WriteOnTrack(s: Sys, i: nat, t: Sys)
    requires i < |s.ops| && s.ops[i].pc.Write? && t.ops == s.ops[i := s.ops[i].(pc := Done)]
    requires (forall d :: Members(t.db, d) == Members(s.db, d)) && OpsOnTrack(s)
    ensures OpsOnTrack(t)
  {
    hide Linked, Members;
    forall l | 0 <= l < |t.ops| ensures OnTrack(t.db, t.ops[l]) {
      assert OnTrack(s.db, s.ops[l]);
      SameLinked(s.db, t.db, s.ops[l].key);
    }
  }

  lemma WriteNoLost(root: Path, s: Sys, i: nat, t: Sys)
    requires i < |s.ops| && s.ops[i].pc.Write? && t.ops == s.ops[i := s.ops[i].(pc := Done)]
    requires forall d :: Members(t.db, d) == Members(s.db, d)
    requires NoLostDirectory(root, s)
    ensures NoLostDirectory(root, t)
  {
    forall d | Under(root, d) && Members(t.db, d) != {}
      ensures DirLinked(t.db, d) || exists l :: 0 <= l < |t.ops| && AboutToLink(t.ops[l], d)
    {
      if !DirLinked(s.db, d) {
        var l :| 0 <= l < |s.ops| && AboutToLink(s.ops[l], d);
        assert AboutToLink(t.ops[l], d);
      }
    }
  }

  lemma WriteStrings(db0: Db, s: Sys, i: nat)
    requires StringsFromOps(db0, s) && i < |s.ops| && s.ops[i].pc.Write?
    ensures StringsFromOps(db0, Step(s, i))
  {
    var t, k := Step(s, i), s.ops[i].key;
    assert WrittenBy(t, k, StrAt(t.db, k)) by { assert t.ops[i].key == k && t.ops[i].pc.Done?; }
    hide WrittenBy;
    forall p | p != k
      ensures StrAt(t.db, p) == StrAt(s.db, p) && (WrittenBy(s, p, StrAt(s.db, p)) ==> WrittenBy(t, p, StrAt(t.db, p)))
    {
      WrittenStays(s, t, p, StrAt(s.db, p));
    }
    forall l | 0 <= l < |t.ops| && t.ops[l].pc.Done? ensures WrittenBy(t, t.ops[l].key, StrAt(t.db, t.ops[l].key)) {
      if l != i { assert t.ops[l] == s.ops[l]; }
    }
  }

  lemma StepKeepsInv(db0: Db, root: Path, s: Sys, i: nat)
    requires Consistent(db0, root) && Compatible(db0, root, s.ops) && Inv(db0, root, s)
    requires i < |s.ops| && s.ops[i].Fits()
    ensures Inv(db0, root, Step(s, i)) && Compatible(db0, root, Step(s, i).ops)
  {
    hide Consistent, Grown, NoEmptySet, StepDb, StepPc, Clear;
    hide StringsFromOps, MembersFromOps, OpsOnTrack, NoLostDirectory;
    var t := Step(s, i);
    if s.ops[i].pc.Climb? {
      PathStaysClear(db0, root, s, i);
      ClimbEffect(s, i);
      assert Climbed(s, i, t);
      ClimbedStrings(db0, s, i, t);
      ClimbedMembers(db0, s, i, t);
      ClimbedOnTrack(s, i, t);
      ConsistentIsNamed(db0, root);
      ClimbedNoLost(root, s, i, t);
      assert NoEmptySet(t.db) by { GrownSets(s, i, t); }
    } else if s.ops[i].pc.Write? {
      WriteKeeps(db0, root, s, i);
    } else {
      IdleStep(s, i);
    }
  }

  lemma IdleStep(s: Sys, i: nat)
    requires i < |s.ops| && (s.ops[i].pc.Done? || s.ops[i].pc.Failed?)
    ensures Step(s, i) == s
  {
    assert s.ops[i := s.ops[i]] == s.ops;
  }

  ghost predicate Starts(db0: Db, root: Path, s: Sys) {
    && s.db == db0 && Consistent(db0, root) && Compatible(db0, root, s.ops)
    && forall i :: 0 <= i < |s.ops| ==> s.ops[i] == Begin(s.ops[i].key, s.ops[i].bytes)
  }

  lemma StartsInv(db0: Db, root: Path, s: Sys)
    requires Starts(db0, root, s)
    ensures Inv(db0, root, s)
  {
    hide Consistent, Compatible;
    ConsistentIsNamed(db0, root);
    forall i | 0 <= i < |s.ops| ensures OnTrack(s.db, s.ops[i]) {}
    forall d | Under(root, d) && Members(db0, d) != {} ensures DirLinked(db0, d) { DirectoryIsLinked(db0, root, d); }
  }

  lemma DirectoryIsLinked(db: Db, root: Path, d: Path)
    requires Consistent(db, root) && Under(root, d) && Members(db, d) != {}
    ensures DirLinked(db, d)
  {
    var m :| m in Members(db, d);
    var k :| IsStored(db, k) && Under(d, k) && LinkAt(k, |d|) == m;
    BelowUnder(root, d, k);
    StoredIsLinked(db, root, k, |d| - 1);
    assert k[..|d|][..|d| - 1] == k[..|d| - 1];
  }

  lemma {:induction false} RunKeepsInv(db0: Db, root: Path, s: Sys, schedule: seq<nat>, t: Sys)
    requires Consistent(db0, root) && Compatible(db0, root, s.ops) && Inv(db0, root, s) && Reaches(s, schedule, t)
    ensures Inv(db0, root, t) && Compatible(db0, root, t.ops)
    decreases |schedule|
  {
    hide Consistent, Compatible, Inv, Step;
    if schedule != [] {
      StepKeepsInv(db0, root, s, schedule[0]);
      RunKeepsInv(db0, root, Step(s, schedule[0]), schedule[1..], t);
    }
  }

  /** Under every interleaving of any number of compatible Stores, at every moment: no
      Store has failed, and every non-empty directory is linked in its parent or some
      Store is about to link it. */
  lemma NoDirectoryIsEverLost(db0: Db, root: Path, s: Sys, schedule: seq<nat>, t: Sys)
    requires Starts(db0, root, s) && Reaches(s, schedule, t)
    ensures NoLostDirectory(root, t)
    ensures forall i :: 0 <= i < |t.ops| ==> !t.ops[i].pc.Failed?
  {
    StartsInv(db0, root, s);
    RunKeepsInv(db0, root, s, schedule, t);
    assert forall i :: 0 <= i < |t.ops| ==> OnTrack(t.db, t.ops[i]);
  }

  /** From one moment of an interleaving to a later one, no directory entry goes. */
  lemma {:induction false} SetsGrow(db0: Db, root: Path, s: Sys, schedule: seq<nat>, t: Sys)
    requires Consistent(db0, root) && Compatible(db0, root, s.ops) && Inv(db0, root, s) && Reaches(s, schedule, t)
    ensures forall d, m :: m in Members(s.db, d) ==> m in Members(t.db, d)
    decreases |schedule|
  {
    hide Consistent, Compatible, Inv, Step;
    if schedule != [] {
      var u := Step(s, schedule[0]);
      StepKeepsInv(db0, root, s, schedule[0]);
      StepGrows(db0, root, s, schedule[0]);
      SetsGrow(db0, root, u, schedule[1..], t);
    }
  }

  lemma StepGrows(db0: Db, root: Path, s: Sys, i: nat)
    requires Consistent(db0, root) && Compatible(db0, root, s.ops) && Inv(db0, root, s)
    requires i < |s.ops| && s.ops[i].Fits()
    ensures forall d, m :: m in Members(s.db, d) ==> m in Members(Step(s, i).db, d)
  {
    hide Consistent, NoLostDirectory, OpsOnTrack;
    if s.ops[i].pc.Climb? {
      PathStaysClear(db0, root, s, i);
      ClimbEffect(s, i);
    } else if s.ops[i].pc.Write? {
      WriteEffect(db0, root, s, i);
    } else {
      IdleStep(s, i);
    }
  }

  // ----- when all have finished -----

  lemma {:induction false} FinishedIsLinked(root: Path, t: Sys, i: nat, n: nat)
    requires OpsOnTrack(t) && NoLostDirectory(root, t) && i < |t.ops| && Below(root, t.ops[i].key)
    requires 1 <= |root| <= n < |t.ops[i].key|
    requires forall l :: 0 <= l < |t.ops| ==> t.ops[l].pc.Done?
    ensures Linked(t.db, t.ops[i].key, n)
    decreases |t.ops[i].key| - n
  {
    hide Members;
    assert OnTrack(t.db, t.ops[i]);
    if n < |t.ops[i].key| - 1 {
      FinishedIsLinked(root, t, i, n + 1);
      LinkedUpwards(root, t, t.ops[i].key, n);
    }
  }

  lemma LinkedUpwards(root: Path, t: Sys, k: Path, n: nat)
    requires NoLostDirectory(root, t) && Below(root, k) && |root| <= n && n + 1 < |k| && Linked(t.db, k, n + 1)
    requires forall l :: 0 <= l < |t.ops| ==> t.ops[l].pc.Done?
    ensures Linked(t.db, k, n)
  {
    var d := k[..n + 1];
    assert d[..|root|] == k[..|root|];
    assert Parent(d) == k[..n] && Members(t.db, d) != {};
    assert DirLinked(t.db, d);
  }

  /** What is stored once all Stores have finished: the old keys and the new ones. */
  lemma FinishedStored(db0: Db, root: Path, t: Sys, p: Path)
    requires Inv(db0, root, t) && AllDone(t)
    ensures IsStored(t.db, p) <==> IsStored(db0, p) || exists i :: 0 <= i < |t.ops| && t.ops[i].key == p
    ensures IsStr(t.db, p) <==> IsStr(db0, p) || exists i :: 0 <= i < |t.ops| && t.ops[i].key == p
  {
    assert StrAt(t.db, p) == StrAt(db0, p) || WrittenBy(t, p, StrAt(t.db, p));
  }

  ghost predicate AllDone(t: Sys) { forall l :: 0 <= l < |t.ops| ==> t.ops[l].pc.Done? }

  lemma FinishedIsConsistent(db0: Db, root: Path, t: Sys)
    requires Consistent(db0, root) && Compatible(db0, root, t.ops) && Inv(db0, root, t) && AllDone(t)
    ensures Consistent(t.db, root)
  {
    hide Inv, Conflict;
    assert NoEmptySet(t.db) by { InvSets(db0, root, t); }
    forall i | 1 <= i < |root| ensures !IsStr(t.db, root[..i]) {
      FinishedStored(db0, root, t, root[..i]);
      assert forall l :: 0 <= l < |t.ops| ==> |t.ops[l].key| >= |root|;
    }
    forall d, k | Below(root, d) && IsStr(t.db, d) && IsStored(t.db, k) ensures !Under(d, k) {
      FinishedStored(db0, root, t, d);
      FinishedStored(db0, root, t, k);
      NoCollision(db0, root, t, d, k);
    }
    forall d, m | Below(root, d) ensures m in Members(t.db, d) <==> Needed(t.db, d, m) {
      FinishedNeeds(db0, root, t, d, m);
    }
  }

  lemma InvSets(db0: Db, root: Path, t: Sys)
    requires Inv(db0, root, t)
    ensures NoEmptySet(t.db)
  {}

  lemma NoCollision(db0: Db, root: Path, t: Sys, d: Path, k: Path)
    requires Consistent(db0, root) && Compatible(db0, root, t.ops) && Below(root, d)
    requires IsStr(db0, d) || exists i :: 0 <= i < |t.ops| && t.ops[i].key == d
    requires IsStored(db0, k) || exists i :: 0 <= i < |t.ops| && t.ops[i].key == k
    ensures !Under(d, k)
  {
    assert d != [];
  }

  lemma FinishedNeeds(db0: Db, root: Path, t: Sys, d: Path, m: Member)
    requires Consistent(db0, root) && Compatible(db0, root, t.ops) && Inv(db0, root, t) && AllDone(t) && Below(root, d)
    ensures m in Members(t.db, d) <==> Needed(t.db, d, m)
  {
    if m in Members(db0, d) {
      var k :| IsStored(db0, k) && Under(d, k) && LinkAt(k, |d|) == m;
      FinishedStored(db0, root, t, k);
    } else if m in Members(t.db, d) {
      var i :| 0 <= i < |t.ops| && IsLink(t.ops[i].key, 1, |t.ops[i].key|, d, m);
      FinishedStored(db0, root, t, t.ops[i].key);
    } else if k :| IsStored(t.db, k) && Under(d, k) && LinkAt(k, |d|) == m {
      FinishedStored(db0, root, t, k);
      assert Needed(db0, d, m) || !IsStored(db0, k);
      var i :| 0 <= i < |t.ops| && t.ops[i].key == k;
      FinishedIsLinked(root, t, i, |d|);
    }
  }

  /** Outside the root only entries that lead to it differ. */
  lemma FinishedOutside(db0: Db, root: Path, t: Sys)
    requires |root| >= 1 && Compatible(db0, root, t.ops) && StringsFromOps(db0, t) && MembersFromOps(db0, t)
    ensures OutsideKept(db0, t.db, root)
  {
    forall p | !Below(root, p) ensures StrAt(t.db, p) == StrAt(db0, p) {
      assert StrAt(t.db, p) == StrAt(db0, p) || WrittenBy(t, p, StrAt(t.db, p));
    }
    forall d, m | !Below(root, d) && !LeadsToRoot(root, d, m) ensures m in Members(t.db, d) <==> m in Members(db0, d) {
      if LinkOfSome(t.ops, d, m) {
        var i :| 0 <= i < |t.ops| && IsLink(t.ops[i].key, 1, |t.ops[i].key|, d, m);
        OwnLinkIsInside(root, t.ops[i].key, d, m);
      }
    }
  }

  /** The Stores keep their keys and values. */
  lemma {:induction false} SameStores(s: Sys, schedule: seq<nat>, t: Sys)
    requires Reaches(s, schedule, t)
    ensures |t.ops| == |s.ops|
    ensures forall l :: 0 <= l < |s.ops| ==> t.ops[l].key == s.ops[l].key && t.ops[l].bytes == s.ops[l].bytes
    decreases |schedule|
  {
    if schedule != [] { SameStores(Step(s, schedule[0]), schedule[1..], t); }
  }

  /** What a finished interleaving leaves under a name: the bytes of one of its Stores of that
      key, or what was there. */
  ghost predicate FinalValue(ops: seq<StoreOp>, p: Path, before: Option<Value>, after: Option<Value>) {
    if exists i :: 0 <= i < |ops| && ops[i].key == p
    then exists i :: 0 <= i < |ops| && ops[i].key == p && after == Some(Record(ops[i].bytes))
    else after == before
  }

  /** When all Stores of an interleaving have finished, the index is exact again, every key
      of a Store holds the bytes of a Store of that key, every other value is what it was, and
      nothing else on the server has changed; so recursive List finds every stored key. */
  lemma AllStoresSucceed(db0: Db, root: Path, s: Sys, schedule: seq<nat>, t: Sys)
    requires Starts(db0, root, s) && Reaches(s, schedule, t) && AllDone(t)
    ensures Consistent(t.db, root) && OutsideKept(db0, t.db, root)
    ensures forall p :: FinalValue(s.ops, p, StrAt(db0, p), StrAt(t.db, p))
  {
    StartsInv(db0, root, s);
    RunKeepsInv(db0, root, s, schedule, t);
    FinishedIsConsistent(db0, root, t);
    FinishedOutside(db0, root, t);
    SameStores(s, schedule, t);
    hide Consistent, MembersFromOps, OpsOnTrack, NoLostDirectory, NoEmptySet, Starts, Reaches, FinalValue;
    forall p ensures FinalValue(s.ops, p, StrAt(db0, p), StrAt(t.db, p)) { FinishedValue(db0, s, t, p); }
  }

  lemma FinishedValue(db0: Db, s: Sys, t: Sys, p: Path)
    requires StringsFromOps(db0, t) && |t.ops| == |s.ops| && AllDone(t)
    requires forall l :: 0 <= l < |s.ops| ==> t.ops[l].key == s.ops[l].key && t.ops[l].bytes == s.ops[l].bytes
    ensures FinalValue(s.ops, p, StrAt(db0, p), StrAt(t.db, p))
  {
    if i :| 0 <= i < |s.ops| && s.ops[i].key == p {
      assert WrittenBy(t, t.ops[i].key, StrAt(t.db, t.ops[i].key));
    }
  }
}
