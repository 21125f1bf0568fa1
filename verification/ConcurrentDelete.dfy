/** Any number of Deletes at once, interleaved between their single Redis commands.  Whoever
    removes the last member of a set finds the set gone afterwards, so some climb goes on. */
module ConcurrentDelete {
  import opened Common
  import opened Redis
  import opened DirectoryIndex

  /** Where a Delete stands: before the ZREM that takes `key[..n]` out of its parent, before
      the EXISTS on that parent, before its DEL, or finished. */
  datatype Pc = Unlink(n: nat) | Check(n: nat) | Erase | Done | Failed

  datatype DeleteOp = DeleteOp(key: Path, pc: Pc) {
    ghost predicate Fits() { pc.Unlink? || pc.Check? ==> 2 <= pc.n <= |key| }
  }

  datatype Sys = Sys(db: Db, ops: seq<DeleteOp>)

  function From(n: nat): Pc { if n <= 1 then Erase else Unlink(n) }

  function Begin(key: Path): DeleteOp { DeleteOp(key, From(|key|)) }

  /** One command of one Delete. */
  function StepDb(db: Db, op: DeleteOp): Db
    requires op.Fits()
  {
    match op.pc
    case Unlink(n) => ZRem(Conn(db, Unlimited), op.key[..n - 1], LinkAt(op.key, n - 1)).conn.db
    case Erase => Del(Conn(db, Unlimited), op.key).conn.db
    case _ => db
  }

  function StepPc(db: Db, op: DeleteOp): Pc
    requires op.Fits()
  {
    match op.pc
    case Unlink(n) =>
      if ZRem(Conn(db, Unlimited), op.key[..n - 1], LinkAt(op.key, n - 1)).Fail? then Failed else Check(n)
    case Check(n) => if Exists(Conn(db, Unlimited), op.key[..n - 1]).hit then Erase else From(n - 1)
    case Erase => Done
    case pc => pc
  }

  /** Delete number `i` sends its next command. */
  function Step(s: Sys, i: nat): Sys
    requires i < |s.ops| && s.ops[i].Fits()
  {
    Sys(StepDb(s.db, s.ops[i]), s.ops[i := s.ops[i].(pc := StepPc(s.db, s.ops[i]))])
  }

  /** `t` is reached from `s` by single commands in the order of `schedule`. */
  ghost predicate Reaches(s: Sys, schedule: seq<nat>, t: Sys)
    decreases |schedule|
  {
    if schedule == [] then t == s
    else var i := schedule[0];
      i < |s.ops| && s.ops[i].Fits() && Reaches(Step(s, i), schedule[1..], t)
  }

  // ----- one Delete on its own is the Delete of the source -----

  /** A Delete that is never interrupted by another runs through exactly the commands of
      DirectoryIndex.UnlinkUp; after the climb it stands before its DEL. */
  lemma {:induction false} UnlinkAlone(db: Db, key: Path, n: nat) returns (schedule: seq<nat>, t: Sys)
    requires 1 <= n <= |key| && NoEmptySet(db) && Clear(db, key, n)
    ensures Reaches(Sys(db, [DeleteOp(key, From(n))]), schedule, t)
    ensures t == Sys(UnlinkUp(Conn(db, Unlimited), key[..n], n < |key|).conn.db, [DeleteOp(key, Erase)])
    decreases n
  {
    hide UnlinkUp, NoEmptySet, Clear;
    var s := Sys(db, [DeleteOp(key, From(n))]);
    if n == 1 {
      UnlinkUpIdle(db, key);
      schedule, t := [], s;
    } else {
      var db1 := WithMembers(db, key[..n - 1], Members(db, key[..n - 1]) - {LinkAt(key, n - 1)});
      assert !IsStr(db, key[..n - 1]) by { ClearAt(db, key, n, n - 1); }
      UnlinkUpStep(db, key, n);
      ShrunkByZRem(db, db1, key, n);
      assert Step(s, 0) == Sys(db1, [DeleteOp(key, Check(n))]);
      var next := Step(Step(s, 0), 0);
      var rest: seq<nat>;
      if key[..n - 1] in db1 {
        assert next == Sys(db1, [DeleteOp(key, Erase)]);
        rest, t := [], next;
      } else {
        assert next == Sys(db1, [DeleteOp(key, From(n - 1))]);
        rest, t := UnlinkAlone(db1, key, n - 1);
      }
      var second := [0] + rest;
      assert second[1..] == rest && Reaches(Step(s, 0), second, t);
      schedule := [0] + second;
      assert schedule[1..] == second;
    }
  }

  // ----- the invariant -----

  /** Every Delete names a key below the root, no directory and no key below a value. */
  ghost predicate Compatible(db0: Db, root: Path, ops: seq<DeleteOp>) {
    forall i :: 0 <= i < |ops| ==> Below(root, ops[i].key) && !Conflict(db0, ops[i].key)
  }

  predicate IsKey(ops: seq<DeleteOp>, p: Path) {
    exists i :: 0 <= i < |ops| && ops[i].key == p
  }

  ghost predicate Erased(ops: seq<DeleteOp>, p: Path) {
    exists i :: 0 <= i < |ops| && ops[i].key == p && ops[i].pc.Done?
  }

  ghost predicate StringsLeft(db0: Db, s: Sys) {
    forall p :: StrAt(s.db, p) == if Erased(s.ops, p) then None else StrAt(db0, p)
  }

  ghost predicate LinkOfSome(ops: seq<DeleteOp>, d: Path, m: Member) {
    exists i :: 0 <= i < |ops| && IsLink(ops[i].key, 1, |ops[i].key|, d, m)
  }

  /** Entries only go, only links of the keys of the Deletes, and below the root none that
      another key needs. */
  ghost predicate MembersLeft(db0: Db, root: Path, s: Sys) {
    && (forall d, m :: m in Members(s.db, d) ==> m in Members(db0, d))
    && (forall d, m :: m in Members(db0, d) ==> m in Members(s.db, d) || LinkOfSome(s.ops, d, m))
    && (forall k, i :: IsStored(db0, k) && Below(root, k) && !IsKey(s.ops, k) && |root| <= i < |k| ==>
          Linked(s.db, k, i))
  }

  /** A Delete above its key has found the directory below gone, and past its first ZREM the
      file entry of its key is gone. */
  ghost predicate OnTrack(db: Db, op: DeleteOp) {
    && op.Fits() && !op.pc.Failed?
    && (op.pc.Unlink? && op.pc.n < |op.key| ==> Members(db, op.key[..op.pc.n]) == {})
    && (|op.key| >= 2 && op.pc != Unlink(|op.key|) ==> !Linked(db, op.key, |op.key| - 1))
  }

  ghost predicate OpsOnTrack(s: Sys) {
    forall i :: 0 <= i < |s.ops| ==> OnTrack(s.db, s.ops[i])
  }

  /** `op` is about to see that directory `d` is gone, or to take it out of its parent. */
  predicate Attends(op: DeleteOp, d: Path) {
    |d| < |op.key| && op.key[..|d|] == d && (op.pc == Check(|d| + 1) || op.pc == Unlink(|d|))
  }

  /** Every directory below the root that is gone but still linked is attended to. */
  ghost predicate GoneIsAttended(root: Path, s: Sys) {
    forall d :: Under(root, d) && Members(s.db, d) == {} && DirLinked(s.db, d) ==>
      exists i :: 0 <= i < |s.ops| && Attends(s.ops[i], d)
  }

  ghost predicate Inv(db0: Db, root: Path, s: Sys) {
    && |root| >= 1 && NoEmptySet(s.db)
    && StringsLeft(db0, s) && MembersLeft(db0, root, s) && OpsOnTrack(s) && GoneIsAttended(root, s)
  }

  // ----- ZREM -----

  /** What one ZREM of Delete `i` does to the system, without naming the command. */
  ghost predicate Unlinked(s: Sys, i: nat, t: Sys) {
    && i < |s.ops| && s.ops[i].Fits() && s.ops[i].pc.Unlink?
    && var k, n := s.ops[i].key, s.ops[i].pc.n;
       && t.ops == s.ops[i := DeleteOp(k, Check(n))] && NoEmptySet(t.db) && SameStrings(t.db, s.db)
       && (forall d :: d != k[..n - 1] ==> Members(t.db, d) == Members(s.db, d))
       && Members(t.db, k[..n - 1]) == Members(s.db, k[..n - 1]) - {LinkAt(k, n - 1)}
  }

  lemma UnlinkEffect(db0: Db, root: Path, s: Sys, i: nat)
    requires Compatible(db0, root, s.ops) && StringsLeft(db0, s) && NoEmptySet(s.db)
    requires i < |s.ops| && s.ops[i].Fits() && s.ops[i].pc.Unlink?
    ensures Unlinked(s, i, Step(s, i))
  {
    var k, n := s.ops[i].key, s.ops[i].pc.n;
    var e := k[..n - 1];
    assert Under(e, k);
    assert StrAt(s.db, e) == None;
    assert Step(s, i).db == WithMembers(s.db, e, Members(s.db, e) - {LinkAt(k, n - 1)});
  }

  /** The removed link is not one of a key that stays. */
  lemma OtherLink(db0: Db, root: Path, s: Sys, i: nat, k': Path, j: nat)
    requires MembersLeft(db0, root, s) && OpsOnTrack(s) && i < |s.ops| && s.ops[i].pc.Unlink?
    requires IsStored(db0, k') && Below(root, k') && !IsKey(s.ops, k') && 1 <= |root| <= j < |k'|
    ensures s.ops[i].Fits()
    ensures var k, n := s.ops[i].key, s.ops[i].pc.n; !(k'[..j] == k[..n - 1] && LinkAt(k', j) == LinkAt(k, n - 1))
  {
    assert OnTrack(s.db, s.ops[i]);
    var k, n := s.ops[i].key, s.ops[i].pc.n;
    assert j == n - 1 ==> k'[..n] == k'[..j] + [k'[j]] && k[..n] == k[..n - 1] + [k[n - 1]];
    assert n == |k| ==> k[..n] == k;
    assert n == |k'| ==> k'[..n] == k';
    assert IsKey(s.ops, k);
    assert j == n - 1 && n < |k'| ==> Linked(s.db, k', n);
  }

  lemma UnlinkedMembers(db0: Db, root: Path, s: Sys, i: nat, t: Sys)
    requires Unlinked(s, i, t) && MembersLeft(db0, root, s) && OpsOnTrack(s) && |root| >= 1
    ensures MembersLeft(db0, root, t)
  {
    hide OpsOnTrack, LinkOfSome;
    SameKeys(s.ops, t.ops);
    forall d, m | m in Members(db0, d) ensures m in Members(t.db, d) || LinkOfSome(t.ops, d, m) {
      SameLinksOf(s.ops, t.ops, d, m);
      if m in Members(s.db, d) && m !in Members(t.db, d) { RemovedIsLink(s, i, t, d, m); }
    }
    forall k, j | IsStored(db0, k) && Below(root, k) && !IsKey(t.ops, k) && |root| <= j < |k|
      ensures Linked(t.db, k, j)
    {
      assert Linked(s.db, k, j);
      OtherLink(db0, root, s, i, k, j);
    }
  }

  lemma SameLinksOf(a: seq<DeleteOp>, b: seq<DeleteOp>, d: Path, m: Member)
    requires |a| == |b| && forall l :: 0 <= l < |a| ==> a[l].key == b[l].key
    ensures LinkOfSome(a, d, m) ==> LinkOfSome(b, d, m)
  {
    hide IsLink;
    if l :| 0 <= l < |a| && IsLink(a[l].key, 1, |a[l].key|, d, m) { assert IsLink(b[l].key, 1, |b[l].key|, d, m); }
  }

  lemma RemovedIsLink(s: Sys, i: nat, t: Sys, d: Path, m: Member)
    requires Unlinked(s, i, t) && m in Members(s.db, d) && m !in Members(t.db, d)
    ensures LinkOfSome(t.ops, d, m)
  {
    var k, n := s.ops[i].key, s.ops[i].pc.n;
    assert d == k[..n - 1] && m == LinkAt(k, n - 1) && t.ops[i].key == k;
    assert IsLink(t.ops[i].key, 1, |t.ops[i].key|, d, m);
  }

  lemma SameKeys(a: seq<DeleteOp>, b: seq<DeleteOp>)
    requires |a| == |b| && forall l :: 0 <= l < |a| ==> a[l].key == b[l].key
    ensures forall p :: IsKey(a, p) <==> IsKey(b, p)
  {
    forall p ensures IsKey(a, p) <==> IsKey(b, p) {
      if l :| 0 <= l < |a| && a[l].key == p { assert b[l].key == p; }
      if l :| 0 <= l < |b| && b[l].key == p { assert a[l].key == p; }
    }
  }

  lemma UnlinkedOnTrack(s: Sys, i: nat, t: Sys)
    requires Unlinked(s, i, t) && OpsOnTrack(s)
    ensures OpsOnTrack(t)
  {
    assert forall d, m :: m in Members(t.db, d) ==> m in Members(s.db, d);
    forall l | 0 <= l < |t.ops| ensures OnTrack(t.db, t.ops[l]) {
      assert OnTrack(s.db, s.ops[l]);
      StillGone(s.db, t.db, s.ops[l]);
    }
  }

  lemma StillGone(a: Db, b: Db, op: DeleteOp)
    requires OnTrack(a, op) && forall d, m :: m in Members(b, d) ==> m in Members(a, d)
    ensures OnTrack(b, op)
  {}

  lemma UnlinkedAttended(root: Path, s: Sys, i: nat, t: Sys)
    requires Unlinked(s, i, t) && GoneIsAttended(root, s)
    ensures GoneIsAttended(root, t)
  {
    var k, n := s.ops[i].key, s.ops[i].pc.n;
    forall d | Under(root, d) && Members(t.db, d) == {} && DirLinked(t.db, d)
      ensures exists l :: 0 <= l < |t.ops| && Attends(t.ops[l], d)
    {
      if d == k[..n - 1] {
        assert Attends(t.ops[i], d);
      } else {
        assert DirLinked(s.db, d);
        var l :| 0 <= l < |s.ops| && Attends(s.ops[l], d);
        assert l != i by { assert d == k[..n] ==> Parent(d) == k[..n - 1]; }
        assert Attends(t.ops[l], d);
      }
    }
  }

  // ----- EXISTS -----

  lemma CheckKeeps(db0: Db, root: Path, s: Sys, i: nat)
    requires Compatible(db0, root, s.ops) && Inv(db0, root, s) && i < |s.ops| && s.ops[i].Fits() && s.ops[i].pc.Check?
    ensures Inv(db0, root, Step(s, i))
  {
    hide MembersLeft, StringsLeft, GoneIsAttended;
    var t, k, n := Step(s, i), s.ops[i].key, s.ops[i].pc.n;
    assert t.db == s.db;
    SameKeys(s.ops, t.ops);
    assert MembersLeft(db0, root, t) by { SameMembersLeft(db0, root, s, t); }
    assert StringsLeft(db0, t) by { SameStringsLeft(db0, s, t); }
    forall l | 0 <= l < |t.ops| ensures OnTrack(t.db, t.ops[l]) { assert OnTrack(s.db, s.ops[l]); }
    PathIsClear(db0, root, s, i, n - 1);
    CheckAttended(root, s, i);
  }

  lemma SameMembersLeft(db0: Db, root: Path, s: Sys, t: Sys)
    requires MembersLeft(db0, root, s) && (forall d :: Members(t.db, d) == Members(s.db, d))
    requires |s.ops| == |t.ops| && forall l :: 0 <= l < |s.ops| ==> s.ops[l].key == t.ops[l].key
    ensures MembersLeft(db0, root, t)
  {
    hide LinkOfSome, IsKey;
    SameKeys(s.ops, t.ops);
    forall d, m | LinkOfSome(s.ops, d, m) ensures LinkOfSome(t.ops, d, m) { SameLinksOf(s.ops, t.ops, d, m); }
    forall k, j | IsStored(db0, k) && Below(root, k) && !IsKey(t.ops, k) && |root| <= j < |k|
      ensures Linked(t.db, k, j)
    {
      assert Linked(s.db, k, j);
    }
  }

  lemma SameStringsLeft(db0: Db, s: Sys, t: Sys)
    requires StringsLeft(db0, s) && SameStrings(t.db, s.db) && |t.ops| == |s.ops|
    requires forall l :: 0 <= l < |s.ops| ==>
               t.ops[l].key == s.ops[l].key && (t.ops[l].pc.Done? <==> s.ops[l].pc.Done?)
    ensures StringsLeft(db0, t)
  {
    forall p ensures Erased(t.ops, p) <==> Erased(s.ops, p) {
      if l :| 0 <= l < |s.ops| && s.ops[l].key == p && s.ops[l].pc.Done? { assert t.ops[l].pc.Done?; }
      if l :| 0 <= l < |t.ops| && t.ops[l].key == p && t.ops[l].pc.Done? { assert s.ops[l].pc.Done?; }
    }
    forall p ensures StrAt(t.db, p) == if Erased(t.ops, p) then None else StrAt(db0, p) {
      assert StrAt(t.db, p) == StrAt(s.db, p);
    }
  }

  lemma CheckAttended(root: Path, s: Sys, i: nat)
    requires |root| >= 1 && NoEmptySet(s.db) && GoneIsAttended(root, s)
    requires i < |s.ops| && s.ops[i].Fits() && s.ops[i].pc.Check?
    requires !IsStr(s.db, s.ops[i].key[..s.ops[i].pc.n - 1])
    ensures GoneIsAttended(root, Step(s, i))
  {
    var t, k, n := Step(s, i), s.ops[i].key, s.ops[i].pc.n;
    forall d | Under(root, d) && Members(t.db, d) == {} && DirLinked(t.db, d)
      ensures exists l :: 0 <= l < |t.ops| && Attends(t.ops[l], d)
    {
      var l :| 0 <= l < |s.ops| && Attends(s.ops[l], d);
      if l == i { assert d == k[..n - 1] && d !in s.db; }
      assert Attends(t.ops[l], d);
    }
  }

  // ----- DEL -----

  lemma EraseKeeps(db0: Db, root: Path, s: Sys, i: nat)
    requires Consistent(db0, root) && Compatible(db0, root, s.ops) && Inv(db0, root, s)
    requires i < |s.ops| && s.ops[i].pc.Erase?
    ensures Inv(db0, root, Step(s, i))
  {
    hide Consistent, Compatible, MembersLeft, StringsLeft, GoneIsAttended;
    var t, k := Step(s, i), s.ops[i].key;
    KeyIsNoDirectory(db0, root, s, i);
    assert t.db == s.db - {k} && t.ops == s.ops[i := DeleteOp(k, Done)];
    assert forall d :: Members(t.db, d) == Members(s.db, d);
    SameKeys(s.ops, t.ops);
    SameMembersLeft(db0, root, s, t);
    EraseStrings(db0, s, i, t);
    forall l | 0 <= l < |t.ops| ensures OnTrack(t.db, t.ops[l]) {
      assert OnTrack(s.db, s.ops[l]);
      StillGone(s.db, t.db, s.ops[l]);
    }
    EraseAttended(root, s, i, t);
  }

  lemma KeyIsNoDirectory(db0: Db, root: Path, s: Sys, i: nat)
    requires Consistent(db0, root) && Compatible(db0, root, s.ops) && MembersLeft(db0, root, s) && i < |s.ops|
    ensures Members(s.db, s.ops[i].key) == {}
  {
    NoSetWithoutStored(db0, root, s.ops[i].key);
    assert forall m :: m in Members(s.db, s.ops[i].key) ==> m in Members(db0, s.ops[i].key);
  }

  lemma EraseStrings(db0: Db, s: Sys, i: nat, t: Sys)
    requires StringsLeft(db0, s) && i < |s.ops| && s.ops[i].pc.Erase?
    requires t == Sys(s.db - {s.ops[i].key}, s.ops[i := DeleteOp(s.ops[i].key, Done)])
    ensures StringsLeft(db0, t)
  {
    var k := s.ops[i].key;
    assert t.ops[i].key == k && t.ops[i].pc.Done?;
    forall p ensures StrAt(t.db, p) == if Erased(t.ops, p) then None else StrAt(db0, p) {
      if p == k { assert Erased(t.ops, p); }
      else {
        assert StrAt(t.db, p) == StrAt(s.db, p);
        if l :| 0 <= l < |s.ops| && s.ops[l].key == p && s.ops[l].pc.Done? { assert t.ops[l] == s.ops[l]; }
        if l :| 0 <= l < |t.ops| && t.ops[l].key == p && t.ops[l].pc.Done? { assert t.ops[l] == s.ops[l]; }
      }
    }
  }

  lemma EraseAttended(root: Path, s: Sys, i: nat, t: Sys)
    requires GoneIsAttended(root, s) && i < |s.ops| && s.ops[i].pc.Erase?
    requires (forall d :: Members(t.db, d) == Members(s.db, d)) && t.ops == s.ops[i := DeleteOp(s.ops[i].key, Done)]
    ensures GoneIsAttended(root, t)
  {
    forall d | Under(root, d) && Members(t.db, d) == {} && DirLinked(t.db, d)
      ensures exists l :: 0 <= l < |t.ops| && Attends(t.ops[l], d)
    {
      assert DirLinked(s.db, d);
      var l :| 0 <= l < |s.ops| && Attends(s.ops[l], d);
      assert Attends(t.ops[l], d);
    }
  }

  // ----- every run -----

  lemma UnlinkKeeps(db0: Db, root: Path, s: Sys, i: nat)
    requires Compatible(db0, root, s.ops) && Inv(db0, root, s) && i < |s.ops| && s.ops[i].Fits() && s.ops[i].pc.Unlink?
    ensures Inv(db0, root, Step(s, i))
  {
    hide MembersLeft, StringsLeft, OpsOnTrack, GoneIsAttended, Compatible, StepDb, StepPc;
    var t := Step(s, i);
    UnlinkEffect(db0, root, s, i);
    UnlinkedMembers(db0, root, s, i, t);
    UnlinkedOnTrack(s, i, t);
    UnlinkedAttended(root, s, i, t);
    SameStringsLeft(db0, s, t);
  }

  lemma PathIsClear(db0: Db, root: Path, s: Sys, i: nat, n: nat)
    requires Compatible(db0, root, s.ops) && StringsLeft(db0, s) && i < |s.ops| && 1 <= n < |s.ops[i].key|
    ensures !IsStr(s.db, s.ops[i].key[..n])
  {
    var e := s.ops[i].key[..n];
    assert Under(e, s.ops[i].key);
    assert StrAt(s.db, e) == None;
  }

  lemma StepKeepsInv(db0: Db, root: Path, s: Sys, i: nat)
    requires Consistent(db0, root) && Compatible(db0, root, s.ops) && Inv(db0, root, s)
    requires i < |s.ops| && s.ops[i].Fits()
    ensures Inv(db0, root, Step(s, i)) && Compatible(db0, root, Step(s, i).ops)
  {
    hide Consistent, Inv, StepDb, StepPc, Conflict;
    match s.ops[i].pc
    case Unlink(_) => UnlinkKeeps(db0, root, s, i);
    case Check(_) => CheckKeeps(db0, root, s, i);
    case Erase => EraseKeeps(db0, root, s, i);
    case _ => IdleStep(s, i);
  }

  lemma IdleStep(s: Sys, i: nat)
    requires i < |s.ops| && (s.ops[i].pc.Done? || s.ops[i].pc.Failed?)
    ensures Step(s, i) == s
  {
    assert s.ops[i := s.ops[i]] == s.ops;
  }

  ghost predicate Starts(db0: Db, root: Path, s: Sys) {
    && s.db == db0 && Consistent(db0, root) && Compatible(db0, root, s.ops)
    && forall i :: 0 <= i < |s.ops| ==> s.ops[i] == Begin(s.ops[i].key)
  }

  lemma StartsInv(db0: Db, root: Path, s: Sys)
    requires Starts(db0, root, s)
    ensures Inv(db0, root, s)
  {
    hide Consistent, Compatible;
    ConsistentIsNamed(db0, root);
    forall k, i | IsStored(db0, k) && Below(root, k) && |root| <= i < |k| ensures Linked(db0, k, i) {
      StoredIsLinked(db0, root, k, i);
    }
    forall d | Under(root, d) && DirLinked(db0, d) ensures Members(db0, d) != {} { LinkedIsThere(db0, root, d); }
  }

  lemma LinkedIsThere(db: Db, root: Path, d: Path)
    requires Consistent(db, root) && Under(root, d) && DirLinked(db, d)
    ensures Members(db, d) != {}
  {
    assert Parent(d)[..|root|] == d[..|root|];
    assert Needed(db, Parent(d), Dir(d[|d| - 1]));
    var k :| IsStored(db, k) && Under(Parent(d), k) && LinkAt(k, |d| - 1) == Dir(d[|d| - 1]);
    assert k[..|d|] == k[..|d| - 1] + [k[|d| - 1]] == Parent(d) + [d[|d| - 1]] == d;
    BelowUnder(root, d, k);
    StoredIsLinked(db, root, k, |d|);
  }

  lemma {:induction false} RunKeepsInv(db0: Db, root: Path, s: Sys, schedule: seq<nat>, t: Sys)
    requires Consistent(db0, root) && Compatible(db0, root, s.ops) && Inv(db0, root, s) && Reaches(s, schedule, t)
    ensures Inv(db0, root, t) && Compatible(db0, root, t.ops)
    ensures |t.ops| == |s.ops| && forall l :: 0 <= l < |s.ops| ==> t.ops[l].key == s.ops[l].key
    decreases |schedule|
  {
    hide Consistent, Compatible, Inv, StepDb, StepPc;
    if schedule != [] {
      StepKeepsInv(db0, root, s, schedule[0]);
      RunKeepsInv(db0, root, Step(s, schedule[0]), schedule[1..], t);
    }
  }

  /** Under every interleaving of any number of Deletes, at every moment: no Delete has
      failed, no link that another key needs is gone, and every directory that is gone but
      still linked is attended to by a Delete. */
  lemma NoStaleDirectoryIsForgotten(db0: Db, root: Path, s: Sys, schedule: seq<nat>, t: Sys)
    requires Starts(db0, root, s) && Reaches(s, schedule, t)
    ensures GoneIsAttended(root, t) && MembersLeft(db0, root, t)
    ensures forall i :: 0 <= i < |t.ops| ==> !t.ops[i].pc.Failed?
  {
    StartsInv(db0, root, s);
    RunKeepsInv(db0, root, s, schedule, t);
    assert forall i :: 0 <= i < |t.ops| ==> OnTrack(t.db, t.ops[i]);
  }

  // ----- when all have finished -----

  ghost predicate AllDone(t: Sys) { forall l :: 0 <= l < |t.ops| ==> t.ops[l].pc.Done? }

  lemma FinishedStored(db0: Db, t: Sys, p: Path)
    requires StringsLeft(db0, t) && AllDone(t)
    ensures StrAt(t.db, p) == if IsKey(t.ops, p) then None else StrAt(db0, p)
    ensures IsStored(t.db, p) <==> IsStored(db0, p) && !IsKey(t.ops, p)
    ensures IsStr(t.db, p) ==> IsStr(db0, p)
  {
    if l :| 0 <= l < |t.ops| && t.ops[l].key == p { assert t.ops[l].pc.Done? && Erased(t.ops, p); }
    assert StrAt(t.db, p) == if Erased(t.ops, p) then None else StrAt(db0, p);
  }

  /** Every entry that is left below the root leads down to a key that is still stored. */
  lemma {:induction false} LeftIsNeeded(db0: Db, root: Path, t: Sys, d: Path, m: Member, bound: nat)
    requires Consistent(db0, root) && Inv(db0, root, t) && AllDone(t) && Below(root, d) && m in Members(t.db, d)
    requires forall p :: p in db0 ==> |p| <= bound
    ensures Needed(t.db, d, m)
    decreases bound - |d|
  {
    hide Consistent, GoneIsAttended, OpsOnTrack;
    assert m in Members(db0, d) && |d| <= bound;
    if m.File? {
      LeftFileIsStored(db0, root, t, d, m);
    } else {
      var c := d + [m.name];
      assert Parent(c) == d && c[|c| - 1] == m.name && c[..|root|] == d[..|root|];
      assert Members(t.db, c) != {} by { LeftDirectoryIsThere(root, t, c); }
      var m2 :| m2 in Members(t.db, c);
      assert c in db0 && |c| <= bound by { assert m2 in Members(db0, c); }
      LeftIsNeeded(db0, root, t, c, m2, bound);
      var k :| IsStored(t.db, k) && Under(c, k) && LinkAt(k, |c|) == m2;
      assert k[..|d|] == k[..|c|][..|d|] == d && k[|d|] == k[..|c|][|d|] == m.name;
    }
  }

  lemma LeftDirectoryIsThere(root: Path, t: Sys, c: Path)
    requires GoneIsAttended(root, t) && AllDone(t) && Under(root, c) && DirLinked(t.db, c)
    ensures Members(t.db, c) != {}
  {}

  lemma LeftFileIsStored(db0: Db, root: Path, t: Sys, d: Path, m: Member)
    requires Consistent(db0, root) && Inv(db0, root, t) && AllDone(t) && Below(root, d)
    requires m in Members(t.db, d) && m.File?
    ensures Needed(t.db, d, m)
  {
    hide NoEmptySet, GoneIsAttended, StringsLeft, OpsOnTrack, Consistent, AllDone;
    var k := FileIsNeeded(db0, root, d, m);
    NotDeleted(t, k);
    FinishedStored(db0, t, k);
  }

  lemma FileIsNeeded(db: Db, root: Path, d: Path, m: Member) returns (k: Path)
    requires Consistent(db, root) && Below(root, d) && m in Members(db, d) && m.File?
    ensures IsStored(db, k) && |k| == |d| + 1 >= 2 && k[..|d|] == d && LinkAt(k, |d|) == m
  {
    assert Needed(db, d, m);
    k :| IsStored(db, k) && Under(d, k) && LinkAt(k, |d|) == m;
  }

  lemma NotDeleted(t: Sys, k: Path)
    requires OpsOnTrack(t) && AllDone(t) && |k| >= 2 && Linked(t.db, k, |k| - 1)
    ensures !IsKey(t.ops, k)
  {
    forall l | 0 <= l < |t.ops| ensures t.ops[l].key != k { assert OnTrack(t.db, t.ops[l]); }
  }

  lemma {:induction false} LongestKey(db: Db) returns (bound: nat)
    ensures forall p :: p in db ==> |p| <= bound
    decreases |db|
  {
    if db == map[] { return 0; }
    var p :| p in db;
    bound := LongestKey(db - {p});
    assert forall q :: q in db ==> q == p || q in db - {p};
    if bound < |p| { bound := |p|; }
  }

  /** When all Deletes of an interleaving have finished, the index is exact again, the keys of
      the Deletes are gone, every other value is what it was, and nothing else on the server
      has changed: the climbs are driven by what EXISTS finds, so no emptied directory is left
      behind, and none that is needed is lost. */
  lemma AllDeletesSucceed(db0: Db, root: Path, s: Sys, schedule: seq<nat>, t: Sys)
    requires Starts(db0, root, s) && Reaches(s, schedule, t) && AllDone(t)
    ensures Consistent(t.db, root) && OutsideKept(db0, t.db, root)
    ensures forall p :: StrAt(t.db, p) == if IsKey(s.ops, p) then None else StrAt(db0, p)
  {
    hide Inv, Reaches, OutsideKept;
    StartsInv(db0, root, s);
    RunKeepsInv(db0, root, s, schedule, t);
    SameKeys(s.ops, t.ops);
    InvParts(db0, root, t);
    FinishedIsConsistent(db0, root, t);
    FinishedOutside(db0, root, t);
    forall p ensures StrAt(t.db, p) == if IsKey(s.ops, p) then None else StrAt(db0, p) { FinishedStored(db0, t, p); }
  }

  lemma InvParts(db0: Db, root: Path, t: Sys)
    requires Inv(db0, root, t)
    ensures |root| >= 1 && StringsLeft(db0, t) && MembersLeft(db0, root, t) && NoEmptySet(t.db)
  {}

  /** Outside the root only entries that lead to it differ. */
  lemma FinishedOutside(db0: Db, root: Path, t: Sys)
    requires |root| >= 1 && Compatible(db0, root, t.ops) && StringsLeft(db0, t) && MembersLeft(db0, root, t)
    ensures OutsideKept(db0, t.db, root)
  {
    forall p | !Below(root, p) ensures StrAt(t.db, p) == StrAt(db0, p) {
      assert StrAt(t.db, p) == if Erased(t.ops, p) then None else StrAt(db0, p);
    }
    forall d, m | !Below(root, d) && !LeadsToRoot(root, d, m) ensures m in Members(t.db, d) <==> m in Members(db0, d) {
      if LinkOfSome(t.ops, d, m) {
        var i :| 0 <= i < |t.ops| && IsLink(t.ops[i].key, 1, |t.ops[i].key|, d, m);
        OwnLinkIsInside(root, t.ops[i].key, d, m);
      }
    }
  }

  lemma FinishedIsConsistent(db0: Db, root: Path, t: Sys)
    requires Consistent(db0, root) && Inv(db0, root, t) && AllDone(t)
    ensures Consistent(t.db, root)
  {
    hide Inv, StringsLeft, AllDone;
    InvParts(db0, root, t);
    var bound := LongestKey(db0);
    forall i | 1 <= i < |root| ensures !IsStr(t.db, root[..i]) { FinishedStored(db0, t, root[..i]); }
    forall d, k | Below(root, d) && IsStr(t.db, d) && IsStored(t.db, k) ensures !Under(d, k) {
      FinishedStored(db0, t, d);
      FinishedStored(db0, t, k);
    }
    forall d, m | Below(root, d) ensures m in Members(t.db, d) <==> Needed(t.db, d, m) {
      if m in Members(t.db, d) { LeftIsNeeded(db0, root, t, d, m, bound); }
      if k :| IsStored(t.db, k) && Under(d, k) && LinkAt(k, |d|) == m {
        FinishedStored(db0, t, k);
        BelowUnder(root, d, k);
        assert Linked(t.db, k, |d|);
      }
    }
  }
}
