/** One Delete against one Store, interleaved between their single Redis commands.  The EXISTS
    of Delete and the ZREM in the parent that follows are two commands, so a Store between them
    can lose a link.  This module says exactly when every interleaving ends well. */
module Race {
  import opened Common
  import opened Redis
  import opened DirectoryIndex
  import opened Sequential
  import D = ConcurrentDelete
  import C = Concurrent

  datatype Sys = Sys(db: Db, del: D.DeleteOp, sto: C.StoreOp)

  /** The next command of the Delete, or of the Store. */
  function Step(s: Sys, deletes: bool): Sys
    requires s.del.Fits() && s.sto.Fits()
  {
    if deletes then Sys(D.StepDb(s.db, s.del), s.del.(pc := D.StepPc(s.db, s.del)), s.sto)
    else Sys(C.StepDb(s.db, s.sto), s.del, s.sto.(pc := C.StepPc(s.db, s.sto)))
  }

  ghost predicate Reaches(s: Sys, schedule: seq<bool>, t: Sys)
    decreases |schedule|
  {
    if schedule == [] then t == s
    else s.del.Fits() && s.sto.Fits() && Reaches(Step(s, schedule[0]), schedule[1..], t)
  }

  function Begin(db: Db, x: Path, y: Path, bytes: string): Sys { Sys(db, D.Begin(x), C.Begin(y, bytes)) }

  predicate Finished(s: Sys) { (s.del.pc.Done? || s.del.pc.Failed?) && (s.sto.pc.Done? || s.sto.pc.Failed?) }

  /** Every interleaving of Delete `x` and Store `y` succeeds and leaves an exact index. */
  ghost predicate AlwaysExact(db: Db, root: Path, x: Path, y: Path, bytes: string) {
    forall schedule, t :: Reaches(Begin(db, x, y, bytes), schedule, t) && Finished(t) ==>
      t.del.pc.Done? && t.sto.pc.Done? && Consistent(t.db, root)
  }

  ghost predicate Setting(db0: Db, root: Path, x: Path, y: Path, n: nat) {
    && Consistent(db0, root) && Below(root, x) && Below(root, y) && !Conflict(db0, x) && !Conflict(db0, y)
    && ShareExactly(x, y, n) && |root| <= n
  }

  /** Deleting `x` does not empty their common directory, or that directory is the root. */
  ghost predicate Harmless(db0: Db, root: Path, x: Path, n: nat) {
    n == |root| || (n >= 1 && !Empties(db0, x, n - 1, |x|))
  }

  // ----- the invariant -----

  ghost predicate Strings(db0: Db, s: Sys) {
    forall p :: StrAt(s.db, p) ==
      (if p == s.del.key then (if s.del.pc.Done? then None else StrAt(db0, p))
       else if p == s.sto.key && s.sto.pc.Done? then Some(Record(s.sto.bytes)) else StrAt(db0, p))
  }

  /** The level from which on the links of the stored key are in place. */
  function Placed(op: C.StoreOp, root: Path): nat { if op.pc.Climb? then op.pc.n else |root| }

  /** The level from which on the links of the deleted key have been handled. */
  function Handled(op: D.DeleteOp): nat {
    match op.pc
    case Unlink(m) => m
    case Check(m) => if m == 0 then 0 else m - 1
    case _ => 0
  }

  ghost predicate Added(db0: Db, root: Path, s: Sys) {
    && s.sto.Fits() && !s.sto.pc.Failed?
    && (forall d, m :: Below(root, d) && m in Members(s.db, d) ==>
          m in Members(db0, d) || IsLink(s.sto.key, Placed(s.sto, root), |s.sto.key|, d, m))
    && (forall i :: |root| <= i < |s.sto.key| && Placed(s.sto, root) <= i ==> Linked(s.db, s.sto.key, i))
  }

  /** Nothing goes but links of the deleted key below the common directory, and of these
      exactly the dead ones. */
  ghost predicate Removed(db0: Db, root: Path, n: nat, s: Sys) {
    && s.del.Fits() && !s.del.pc.Failed?
    && (forall d, m :: Below(root, d) && m in Members(db0, d) ==>
          m in Members(s.db, d) || IsLink(s.del.key, n, |s.del.key|, d, m))
    && (forall i :: n <= i < |s.del.key| ==>
          (Linked(s.db, s.del.key, i) <==>
           Linked(db0, s.del.key, i) && !(Handled(s.del) <= i && Empties(db0, s.del.key, i, |s.del.key|))))
    && (s.del.pc.Unlink? || s.del.pc.Check? ==>
          && (s.del.pc.n > n ==> Empties(db0, s.del.key, s.del.pc.n - 1, |s.del.key|))
          && (s.del.pc.n <= n ==> n == |root|))
  }

  ghost predicate Inv(db0: Db, root: Path, x: Path, y: Path, n: nat, s: Sys) {
    && s.del.key == x && s.sto.key == y && NoEmptySet(s.db)
    && Strings(db0, s) && Added(db0, root, s) && Removed(db0, root, n, s)
  }

  // ----- paths -----

  /** Below the common directory the keys share no link. */
  lemma NoSharedLink(x: Path, y: Path, n: nat, i: nat)
    requires ShareExactly(x, y, n)
    ensures i < |y| ==> !IsLink(x, n, |x|, y[..i], LinkAt(y, i))
    ensures n <= i < |x| ==> !IsLink(y, 0, |y|, x[..i], LinkAt(x, i))
  {
    assert n < i < |y| && i <= |x| ==> x[..i][n] == x[n] && y[..i][n] == y[n];
    assert n < i < |x| && i <= |y| ==> x[..i][n] == x[n] && y[..i][n] == y[n];
  }

  lemma NoStringOnPath(db0: Db, s: Sys, root: Path, x: Path, y: Path, n: nat, k: Path, i: nat)
    requires Setting(db0, root, x, y, n) && Strings(db0, s) && s.del.key == x && s.sto.key == y
    requires (k == x || k == y) && 1 <= i < |k|
    ensures !IsStr(s.db, k[..i])
  {
    var p := k[..i];
    assert Under(p, k);
    PartsApart(x, y, n);
    assert StrAt(s.db, p) == None;
  }

  lemma PartsApart(x: Path, y: Path, n: nat)
    requires ShareExactly(x, y, n)
    ensures !Under(x, y) && !Under(y, x) && x != y
  {
    var a, b := x[n], y[n];
    assert |x| <= |y| ==> y[..|x|][n] == b;
    assert |y| <= |x| ==> x[..|y|][n] == a;
  }

  // ----- the commands of the Store -----

  lemma ClimbKeeps(db0: Db, root: Path, x: Path, y: Path, n: nat, s: Sys)
    requires Setting(db0, root, x, y, n) && Inv(db0, root, x, y, n, s) && s.sto.pc.Climb?
    ensures Inv(db0, root, x, y, n, Step(s, false))
  {
    hide Setting, Conflict, Strings, Added, Removed;
    var c := s.sto.pc.n;
    assert s.sto.Fits() && s.del.Fits() by { InvFits(db0, root, x, y, n, s); }
    NoStringOnPath(db0, s, root, x, y, n, y, c - 1);
    GrownByZAdd(s.db, Unlimited, y, c - 1);
    var t := Step(s, false);
    var pc := if Linked(s.db, y, c - 1) then C.Write else C.From(c - 1);
    assert t == Sys(t.db, s.del, s.sto.(pc := pc)) && Grown(s.db, t.db, y, c - 1, c);
    ClimbStrings(db0, s, t, c);
    ClimbAdds(db0, root, x, y, n, s, t);
    ClimbRemoves(db0, root, x, y, n, s, t);
  }

  lemma InvFits(db0: Db, root: Path, x: Path, y: Path, n: nat, s: Sys)
    requires Inv(db0, root, x, y, n, s)
    ensures s.sto.Fits() && s.del.Fits() && !s.sto.pc.Failed? && !s.del.pc.Failed? && NoEmptySet(s.db)
  {}

  lemma ClimbStrings(db0: Db, s: Sys, t: Sys, c: nat)
    requires Strings(db0, s) && 1 <= c <= |s.sto.key| && Grown(s.db, t.db, s.sto.key, c - 1, c)
    requires t.del == s.del && t.sto.key == s.sto.key && t.sto.bytes == s.sto.bytes
    requires !s.sto.pc.Done? && !t.sto.pc.Done?
    ensures Strings(db0, t)
  {
    forall p ensures StrAt(t.db, p) == StrAt(s.db, p) {}
  }

  lemma ClimbAdds(db0: Db, root: Path, x: Path, y: Path, n: nat, s: Sys, t: Sys)
    requires Setting(db0, root, x, y, n) && Inv(db0, root, x, y, n, s) && s.sto.pc.Climb? && s.sto.Fits()
    requires var c := s.sto.pc.n;
             && Grown(s.db, t.db, y, c - 1, c)
             && t.sto == s.sto.(pc := if Linked(s.db, y, c - 1) then C.Write else C.From(c - 1))
    ensures Added(db0, root, t)
  {
    hide Setting, Inv, Grown, Linked, IsLink;
    var c := s.sto.pc.n;
    SettingApart(db0, root, x, y, n);
    assert Added(db0, root, s) && s.sto.key == y by { InvParts(db0, root, x, y, n, s); }
    forall i | |root| <= i < |y| && Placed(t.sto, root) <= i ensures Linked(t.db, y, i) {
      GrownLinks(s.db, t.db, y, c - 1, c, i);
      if i < c - 1 { HigherIsLinked(db0, root, x, y, n, s, i); }
    }
    forall d, m | Below(root, d) && m in Members(t.db, d)
      ensures m in Members(db0, d) || IsLink(y, Placed(t.sto, root), |y|, d, m)
    {
      NewMember(s.db, t.db, root, y, c, d, m);
      PlacedLower(y, c, Placed(t.sto, root), d, m);
      PlacedLower(y, c - 1, Placed(t.sto, root), d, m);
      LinkIsDeep(y, c, d, m);
    }
  }

  lemma InvParts(db0: Db, root: Path, x: Path, y: Path, n: nat, s: Sys)
    requires Inv(db0, root, x, y, n, s)
    ensures s.del.key == x && s.sto.key == y && Strings(db0, s) && Added(db0, root, s) && Removed(db0, root, n, s)
  {}

  lemma NewMember(a: Db, b: Db, root: Path, y: Path, c: nat, d: Path, m: Member)
    requires 1 <= c <= |y| && Grown(a, b, y, c - 1, c) && Below(root, d) && m in Members(b, d)
    ensures m in Members(a, d) || (IsLink(y, c - 1, |y|, d, m) && |d| == c - 1 && |root| <= c - 1)
    ensures IsLink(y, c - 1, c, d, m) && Linked(a, y, c - 1) ==> m in Members(a, d)
  {
    assert m in Members(a, d) || IsLink(y, c - 1, c, d, m);
  }

  lemma PlacedLower(y: Path, c: nat, lo: nat, d: Path, m: Member)
    ensures IsLink(y, c, |y|, d, m) && lo <= |d| ==> IsLink(y, lo, |y|, d, m)
  {}

  lemma LinkIsDeep(y: Path, c: nat, d: Path, m: Member)
    ensures IsLink(y, c, |y|, d, m) ==> |d| >= c
  {}

  /** A link that the Store finds was there from the start, and so were those above it. */
  lemma HigherIsLinked(db0: Db, root: Path, x: Path, y: Path, n: nat, s: Sys, i: nat)
    requires Setting(db0, root, x, y, n) && Inv(db0, root, x, y, n, s) && s.sto.pc.Climb? && s.sto.Fits()
    requires 1 <= |root| <= i < s.sto.pc.n - 1 && Linked(s.db, y, s.sto.pc.n - 1)
    ensures Linked(s.db, y, i)
  {
    hide Conflict, Strings;
    var c := s.sto.pc.n;
    BelowPrefix(root, y, c - 1);
    BelowPrefix(root, y, i);
    assert Linked(db0, y, c - 1);
    ConsistentUpClosed(db0, root, y);
    assert Linked(db0, y, i);
    NoSharedLink(x, y, n, i);
  }

  lemma ClimbRemoves(db0: Db, root: Path, x: Path, y: Path, n: nat, s: Sys, t: Sys)
    requires Setting(db0, root, x, y, n) && Inv(db0, root, x, y, n, s) && s.sto.pc.Climb? && s.sto.Fits()
    requires Grown(s.db, t.db, y, s.sto.pc.n - 1, s.sto.pc.n) && t.del == s.del
    ensures Removed(db0, root, n, t)
  {
    hide Conflict, Strings, Added, Consistent, Empties;
    forall i | n <= i < |x| ensures Linked(t.db, x, i) <==> Linked(s.db, x, i) {
      NoSharedLink(x, y, n, i);
      assert LinkAt(x, i) in Members(t.db, x[..i]) <==>
             LinkAt(x, i) in Members(s.db, x[..i]) || IsLink(y, s.sto.pc.n - 1, s.sto.pc.n, x[..i], LinkAt(x, i));
    }
  }

  lemma WriteKeeps(db0: Db, root: Path, x: Path, y: Path, n: nat, s: Sys)
    requires Setting(db0, root, x, y, n) && Inv(db0, root, x, y, n, s) && s.sto.pc.Write?
    ensures Inv(db0, root, x, y, n, Step(s, false))
  {
    hide Setting, Strings, Added, Removed;
    assert s.sto.Fits() && s.del.Fits() by { InvFits(db0, root, x, y, n, s); }
    var t := Step(s, false);
    KeyHasNoSet(db0, root, x, y, n, s, y);
    assert t.db == s.db[y := Str(Record(s.sto.bytes))];
    assert forall d :: Members(t.db, d) == Members(s.db, d);
    assert x != y by { SettingApart(db0, root, x, y, n); }
    WriteStrings(db0, s, t);
    SameMembers(db0, root, n, s, t);
  }

  lemma KeyHasNoSet(db0: Db, root: Path, x: Path, y: Path, n: nat, s: Sys, k: Path)
    requires Setting(db0, root, x, y, n) && Inv(db0, root, x, y, n, s) && (k == x || k == y)
    ensures Members(s.db, k) == {}
  {
    NoSetWithoutStored(db0, root, k);
    PartsApart(x, y, n);
    forall m ensures m !in Members(s.db, k) {
      assert !IsLink(y, Placed(s.sto, root), |y|, k, m);
    }
  }

  lemma SettingApart(db0: Db, root: Path, x: Path, y: Path, n: nat)
    requires Setting(db0, root, x, y, n)
    ensures x != y && |root| >= 1
  {}

  lemma WriteStrings(db0: Db, s: Sys, t: Sys)
    requires Strings(db0, s) && s.del.key != s.sto.key && !s.sto.pc.Done?
    requires t == Sys(s.db[s.sto.key := Str(Record(s.sto.bytes))], s.del, s.sto.(pc := C.Done))
    ensures Strings(db0, t)
  {
    forall p | p != s.sto.key ensures StrAt(t.db, p) == StrAt(s.db, p) {}
  }

  lemma SameMembers(db0: Db, root: Path, n: nat, s: Sys, t: Sys)
    requires Added(db0, root, s) && Removed(db0, root, n, s) && forall d :: Members(t.db, d) == Members(s.db, d)
    requires t.del.key == s.del.key && t.sto.key == s.sto.key
    requires t.sto == s.sto || (s.sto.pc.Write? && t.sto.pc.Done?)
    requires t.del == s.del || (s.del.pc.Erase? && t.del.pc.Done?)
    ensures Added(db0, root, t) && Removed(db0, root, n, t)
  {
    hide Empties, IsLink;
    forall k: Path, i: nat | i < |k| ensures Linked(t.db, k, i) <==> Linked(s.db, k, i) {}
  }

  // ----- the commands of the Delete -----

  lemma EraseKeeps(db0: Db, root: Path, x: Path, y: Path, n: nat, s: Sys)
    requires Setting(db0, root, x, y, n) && Inv(db0, root, x, y, n, s) && s.del.pc.Erase?
    ensures Inv(db0, root, x, y, n, Step(s, true))
  {
    hide Setting, Strings, Added, Removed;
    assert s.sto.Fits() && s.del.Fits() by { InvFits(db0, root, x, y, n, s); }
    var t := Step(s, true);
    KeyHasNoSet(db0, root, x, y, n, s, x);
    assert t.db == s.db - {x};
    assert forall d :: Members(t.db, d) == Members(s.db, d);
    EraseStrings(db0, s, t);
    SameMembers(db0, root, n, s, t);
  }

  lemma EraseStrings(db0: Db, s: Sys, t: Sys)
    requires Strings(db0, s) && t == Sys(s.db - {s.del.key}, s.del.(pc := D.Done), s.sto)
    ensures Strings(db0, t)
  {
    forall p | p != s.del.key ensures StrAt(t.db, p) == StrAt(s.db, p) {}
  }

  lemma UnlinkKeeps(db0: Db, root: Path, x: Path, y: Path, n: nat, s: Sys)
    requires Setting(db0, root, x, y, n) && Inv(db0, root, x, y, n, s) && s.del.pc.Unlink?
    ensures Inv(db0, root, x, y, n, Step(s, true))
  {
    hide Setting, Strings, Added, Removed;
    assert s.sto.Fits() && s.del.Fits() by { InvFits(db0, root, x, y, n, s); }
    var t, e := Step(s, true), x[..s.del.pc.n - 1];
    NoStringOnPath(db0, s, root, x, y, n, x, s.del.pc.n - 1);
    var m := LinkAt(x, s.del.pc.n - 1);
    assert t.db == WithMembers(s.db, e, Members(s.db, e) - {m}) && t.del.pc == D.Check(s.del.pc.n);
    assert (forall d :: d != e ==> Members(t.db, d) == Members(s.db, d)) && Members(t.db, e) == Members(s.db, e) - {m};
    assert SameStrings(t.db, s.db);
    UnlinkStrings(db0, s, t);
    UnlinkAdds(db0, root, x, y, n, s, t);
    UnlinkRemoves(db0, root, x, y, n, s, t);
  }

  lemma UnlinkStrings(db0: Db, s: Sys, t: Sys)
    requires Strings(db0, s) && SameStrings(t.db, s.db) && t.sto == s.sto
    requires t.del.key == s.del.key && !t.del.pc.Done? && !s.del.pc.Done?
    ensures Strings(db0, t)
  {
    forall p ensures StrAt(t.db, p) == StrAt(s.db, p) {}
  }

  /** One link of the deleted key has gone. */
  ghost predicate OneLess(s: Sys, t: Sys) {
    && s.del.Fits() && s.del.pc.Unlink? && t.sto == s.sto && t.del == s.del.(pc := D.Check(s.del.pc.n))
    && var e, m := s.del.key[..s.del.pc.n - 1], LinkAt(s.del.key, s.del.pc.n - 1);
       (forall d :: d != e ==> Members(t.db, d) == Members(s.db, d)) && Members(t.db, e) == Members(s.db, e) - {m}
  }

  lemma UnlinkAdds(db0: Db, root: Path, x: Path, y: Path, n: nat, s: Sys, t: Sys)
    requires Setting(db0, root, x, y, n) && Inv(db0, root, x, y, n, s) && OneLess(s, t)
    ensures Added(db0, root, t)
  {
    hide Conflict, Strings, Consistent, Empties;
    var k := s.del.pc.n - 1;
    forall i | |root| <= i < |y| && Placed(t.sto, root) <= i ensures Linked(t.db, y, i) {
      assert Linked(s.db, y, i);
      NoSharedLink(x, y, n, i);
      if k >= n { assert IsLink(x, n, |x|, x[..k], LinkAt(x, k)); }
    }
  }

  lemma UnlinkRemoves(db0: Db, root: Path, x: Path, y: Path, n: nat, s: Sys, t: Sys)
    requires Setting(db0, root, x, y, n) && Inv(db0, root, x, y, n, s) && OneLess(s, t)
    ensures Removed(db0, root, n, t)
  {
    hide Conflict, Strings, Consistent, Empties, Added;
    var k := s.del.pc.n - 1;
    forall d, m | Below(root, d) && m in Members(db0, d) ensures m in Members(t.db, d) || IsLink(x, n, |x|, d, m) {
      assert m in Members(s.db, d) || IsLink(x, n, |x|, d, m);
      if d == x[..k] && m == LinkAt(x, k) && k >= n { assert IsLink(x, n, |x|, d, m); }
    }
    forall i | n <= i < |x|
      ensures Linked(t.db, x, i) <==> Linked(db0, x, i) && !(Handled(t.del) <= i && Empties(db0, x, i, |x|))
    {
      assert Linked(s.db, x, i) <==> Linked(db0, x, i) && !(Handled(s.del) <= i && Empties(db0, x, i, |x|));
      assert i != k ==> x[..i] != x[..k];
    }
  }

  lemma CheckKeeps(db0: Db, root: Path, x: Path, y: Path, n: nat, s: Sys)
    requires Setting(db0, root, x, y, n) && 1 <= n && Harmless(db0, root, x, n)
    requires Inv(db0, root, x, y, n, s) && s.del.pc.Check?
    ensures Inv(db0, root, x, y, n, Step(s, true))
  {
    hide Setting, Strings, Added, Removed, Empties;
    assert s.sto.Fits() && s.del.Fits() by { InvFits(db0, root, x, y, n, s); }
    var t := Step(s, true);
    NoStringOnPath(db0, s, root, x, y, n, x, s.del.pc.n - 1);
    assert t.db == s.db && t.sto == s.sto;
    UnlinkStrings(db0, s, t);
    SameAdded(db0, root, s, t);
    CheckRemoves(db0, root, x, y, n, s, t);
  }

  lemma SameAdded(db0: Db, root: Path, s: Sys, t: Sys)
    requires Added(db0, root, s) && t.db == s.db && t.sto == s.sto
    ensures Added(db0, root, t)
  {}

  lemma CheckRemoves(db0: Db, root: Path, x: Path, y: Path, n: nat, s: Sys, t: Sys)
    requires Setting(db0, root, x, y, n) && 1 <= n && Harmless(db0, root, x, n)
    requires Inv(db0, root, x, y, n, s) && s.del.Fits() && s.del.pc.Check? && t.db == s.db
    requires !IsStr(s.db, x[..s.del.pc.n - 1])
    requires t.del == s.del.(pc := if x[..s.del.pc.n - 1] in s.db then D.Erase else D.From(s.del.pc.n - 1))
    ensures Removed(db0, root, n, t)
  {
    hide Conflict, Strings, Consistent, Added;
    var k := s.del.pc.n - 1;
    if x[..k] in s.db {
      if k > n { OtherMember(db0, root, x, y, n, s, k); }
      forall i | n <= i < |x|
        ensures Linked(t.db, x, i) <==> Linked(db0, x, i) && !(Handled(t.del) <= i && Empties(db0, x, i, |x|))
      {
        assert Linked(s.db, x, i) <==> Linked(db0, x, i) && !(k <= i && Empties(db0, x, i, |x|));
      }
    } else {
      assert k >= n ==> Empties(db0, x, k - 1, |x|) by { if k >= n { OnlyOwnMember(db0, root, x, y, n, s, k); } }
      assert k == n ==> n == |root|;
    }
  }

  /** What EXISTS finds below the common directory was there from the start. */
  lemma OtherMember(db0: Db, root: Path, x: Path, y: Path, n: nat, s: Sys, k: nat)
    requires Setting(db0, root, x, y, n) && Inv(db0, root, x, y, n, s) && s.del.pc == D.Check(k + 1) && n < k < |x|
    requires x[..k] in s.db && !IsStr(s.db, x[..k])
    ensures forall i :: n <= i < k ==> !Empties(db0, x, i, |x|)
  {
    hide Conflict, Strings, Consistent;
    var m :| m in Members(s.db, x[..k]);
    BelowPrefix(root, x, k);
    assert !Linked(s.db, x, k);
    assert x[..k][n] == x[n];
    assert |y| >= k ==> y[..k][n] == y[n];
    assert !IsLink(y, Placed(s.sto, root), |y|, x[..k], m);
    assert m in Members(db0, x[..k]) && m != LinkAt(x, k);
  }

  /** A directory that EXISTS does not find held nothing but the link of the deleted key. */
  lemma OnlyOwnMember(db0: Db, root: Path, x: Path, y: Path, n: nat, s: Sys, k: nat)
    requires Setting(db0, root, x, y, n) && Inv(db0, root, x, y, n, s) && s.del.pc == D.Check(k + 1) && n <= k < |x|
    requires x[..k] !in s.db && k >= 1
    ensures Empties(db0, x, k - 1, |x|)
  {
    hide Conflict, Strings, Consistent, Added;
    BelowPrefix(root, x, k);
    forall m | m in Members(db0, x[..k]) ensures m == LinkAt(x, k) {
      assert IsLink(x, n, |x|, x[..k], m);
    }
    assert Empties(db0, x, k, |x|);
  }

  lemma StepKeeps(db0: Db, root: Path, x: Path, y: Path, n: nat, s: Sys, deletes: bool)
    requires Setting(db0, root, x, y, n) && 1 <= n && Harmless(db0, root, x, n) && Inv(db0, root, x, y, n, s)
    ensures s.del.Fits() && s.sto.Fits() && Inv(db0, root, x, y, n, Step(s, deletes))
  {
    hide Setting, Harmless, Inv;
    InvFits(db0, root, x, y, n, s);
    if deletes {
      match s.del.pc
      case Unlink(_) => UnlinkKeeps(db0, root, x, y, n, s);
      case Check(_) => CheckKeeps(db0, root, x, y, n, s);
      case Erase => EraseKeeps(db0, root, x, y, n, s);
      case _ =>
    } else {
      match s.sto.pc
      case Climb(_) => ClimbKeeps(db0, root, x, y, n, s);
      case Write => WriteKeeps(db0, root, x, y, n, s);
      case _ =>
    }
  }

  lemma BeginInv(db0: Db, root: Path, x: Path, y: Path, n: nat, bytes: string)
    requires Setting(db0, root, x, y, n)
    ensures Inv(db0, root, x, y, n, Begin(db0, x, y, bytes))
  {}

  lemma {:induction false} RunKeeps(db0: Db, root: Path, x: Path, y: Path, n: nat, s: Sys, schedule: seq<bool>, t: Sys)
    requires Setting(db0, root, x, y, n) && 1 <= n && Harmless(db0, root, x, n) && Inv(db0, root, x, y, n, s)
    requires Reaches(s, schedule, t)
    ensures Inv(db0, root, x, y, n, t)
    decreases |schedule|
  {
    hide Setting, Harmless, Inv, Step;
    if schedule != [] {
      StepKeeps(db0, root, x, y, n, s, schedule[0]);
      RunKeeps(db0, root, x, y, n, Step(s, schedule[0]), schedule[1..], t);
    }
  }

  // ----- when both have finished -----

  lemma FinishedStored(db0: Db, t: Sys, p: Path)
    requires Strings(db0, t) && t.del.pc.Done? && t.sto.pc.Done? && t.del.key != t.sto.key
    ensures IsStored(t.db, p) <==> (IsStored(db0, p) && p != t.del.key) || p == t.sto.key
    ensures IsStr(t.db, p) <==> (IsStr(db0, p) && p != t.del.key) || p == t.sto.key
  {
    var v := StrAt(t.db, p);
    assert v == if p == t.del.key then None else if p == t.sto.key then Some(Record(t.sto.bytes)) else StrAt(db0, p);
  }

  lemma FinishedMember(db0: Db, root: Path, x: Path, y: Path, n: nat, t: Sys, d: Path, m: Member)
    requires Setting(db0, root, x, y, n) && Inv(db0, root, x, y, n, t) && t.del.pc.Done? && t.sto.pc.Done?
    requires Below(root, d)
    ensures m in Members(t.db, d) <==> Needed(t.db, d, m)
  {
    PartsApart(x, y, n);
    if m in Members(t.db, d) { LeftIsNeeded(db0, root, x, y, n, t, d, m); }
    if k :| IsStored(t.db, k) && Under(d, k) && LinkAt(k, |d|) == m {
      FinishedStored(db0, t, k);
      NeededIsLeft(db0, root, x, y, n, t, d, m, k);
    }
  }

  lemma NeededIsLeft(db0: Db, root: Path, x: Path, y: Path, n: nat, t: Sys, d: Path, m: Member, k: Path)
    requires Setting(db0, root, x, y, n) && Inv(db0, root, x, y, n, t) && t.del.pc.Done? && t.sto.pc.Done?
    requires Below(root, d)
    requires Under(d, k) && LinkAt(k, |d|) == m && (k == y || (IsStored(db0, k) && k != x))
    ensures m in Members(t.db, d)
  {
    hide Strings, Empties;
    if k == y {
      assert Linked(t.db, y, |d|);
    } else {
      assert Needed(db0, d, m);
      if IsLink(x, n, |x|, d, m) {
        DeadLinkNotNeeded(db0, root, x, d);
        assert Linked(t.db, x, |d|);
      }
    }
  }

  lemma LeftIsNeeded(db0: Db, root: Path, x: Path, y: Path, n: nat, t: Sys, d: Path, m: Member)
    requires Setting(db0, root, x, y, n) && Inv(db0, root, x, y, n, t) && t.del.pc.Done? && t.sto.pc.Done?
    requires Below(root, d)
    requires m in Members(t.db, d)
    ensures Needed(t.db, d, m)
  {
    hide Strings, Empties;
    SettingApart(db0, root, x, y, n);
    assert Strings(db0, t);
    FinishedStored(db0, t, y);
    if IsLink(y, |root|, |y|, d, m) {
      assert Under(d, y) && LinkAt(y, |d|) == m;
    } else {
      assert Needed(db0, d, m);
      var p :| IsStored(db0, p) && Under(d, p) && LinkAt(p, |d|) == m;
      FinishedStored(db0, t, p);
      if p == x { OnlyForDeleted(db0, root, x, y, n, t, d, m); }
    }
  }

  /** A link of the deleted key that is left is needed by another one. */
  lemma OnlyForDeleted(db0: Db, root: Path, x: Path, y: Path, n: nat, t: Sys, d: Path, m: Member)
    requires Setting(db0, root, x, y, n) && Inv(db0, root, x, y, n, t) && t.del.pc.Done? && t.sto.pc.Done?
    requires Below(root, d)
    requires m in Members(t.db, d) && !IsLink(y, |root|, |y|, d, m)
    requires IsStored(db0, x) && Under(d, x) && LinkAt(x, |d|) == m
    ensures Needed(t.db, d, m)
  {
    hide Strings, Empties;
    SettingApart(db0, root, x, y, n);
    assert |d| >= n by { if |d| < n { SharedAbove(x, y, n, d); } }
    assert Linked(t.db, x, |d|);
    DeadLinkNotNeeded(db0, root, x, d);
    var p :| IsStored(db0, p) && p != x && Under(d, p) && LinkAt(p, |d|) == LinkAt(x, |d|);
    assert Strings(db0, t);
    FinishedStored(db0, t, p);
  }

  lemma SharedAbove(x: Path, y: Path, n: nat, d: Path)
    requires ShareExactly(x, y, n) && |d| < n && Under(d, x)
    ensures Under(d, y) && LinkAt(y, |d|) == LinkAt(x, |d|)
  {
    assert y[..|d|] == y[..n][..|d|] == x[..n][..|d|] && y[|d|] == y[..n][|d|] == x[..n][|d|];
  }

  lemma FinishedIsConsistent(db0: Db, root: Path, x: Path, y: Path, n: nat, t: Sys)
    requires Setting(db0, root, x, y, n) && Inv(db0, root, x, y, n, t) && t.del.pc.Done? && t.sto.pc.Done?
    ensures Consistent(t.db, root)
  {
    hide Strings, Added, Removed;
    PartsApart(x, y, n);
    forall i | 1 <= i < |root| ensures !IsStr(t.db, root[..i]) { FinishedStored(db0, t, root[..i]); }
    forall d, k | Below(root, d) && IsStr(t.db, d) && IsStored(t.db, k) ensures !Under(d, k) {
      FinishedStored(db0, t, d);
      FinishedStored(db0, t, k);
    }
    forall d, m | Below(root, d) ensures m in Members(t.db, d) <==> Needed(t.db, d, m) {
      FinishedMember(db0, root, x, y, n, t, d, m);
    }
  }

  /** If deleting `x` does not empty the common directory, every interleaving ends well. */
  lemma HarmlessIsExact(db0: Db, root: Path, x: Path, y: Path, n: nat, bytes: string)
    requires Setting(db0, root, x, y, n) && 1 <= n && Harmless(db0, root, x, n)
    ensures AlwaysExact(db0, root, x, y, bytes)
  {
    hide Setting, Harmless, Inv, Reaches;
    forall schedule, t | Reaches(Begin(db0, x, y, bytes), schedule, t) && Finished(t)
      ensures t.del.pc.Done? && t.sto.pc.Done? && Consistent(t.db, root)
    {
      BeginInv(db0, root, x, y, n, bytes);
      RunKeeps(db0, root, x, y, n, Begin(db0, x, y, bytes), schedule, t);
      InvFits(db0, root, x, y, n, t);
      FinishedIsConsistent(db0, root, x, y, n, t);
    }
  }

  // ----- the runs that lose a link -----

  lemma {:induction false} RunTwice(s: Sys, first: seq<bool>, t: Sys, second: seq<bool>, u: Sys)
    requires Reaches(s, first, t) && Reaches(t, second, u)
    ensures Reaches(s, first + second, u)
    decreases |first|
  {
    hide Step;
    if first == [] {
      assert first + second == second;
    } else {
      RunTwice(Step(s, first[0]), first[1..], t, second, u);
      assert (first + second)[1..] == first[1..] + second;
    }
  }

  /** The commands of the Delete alone. */
  lemma {:induction false} DeleteAlone(s: Sys, schedule: seq<nat>, t: D.Sys) returns (run: seq<bool>)
    requires D.Reaches(D.Sys(s.db, [s.del]), schedule, t) && s.sto.Fits()
    ensures |t.ops| == 1 && Reaches(s, run, Sys(t.db, t.ops[0], s.sto))
    decreases |schedule|
  {
    run := [];
    if schedule != [] {
      var u := Step(s, true);
      assert D.Step(D.Sys(s.db, [s.del]), 0) == D.Sys(u.db, [u.del]);
      var rest := DeleteAlone(u, schedule[1..], t);
      run := [true] + rest;
      assert run[1..] == rest;
    }
  }

  /** The commands of the Store alone. */
  lemma {:induction false} StoreAlone(s: Sys, schedule: seq<nat>, t: C.Sys) returns (run: seq<bool>)
    requires C.Reaches(C.Sys(s.db, [s.sto]), schedule, t) && s.del.Fits()
    ensures |t.ops| == 1 && Reaches(s, run, Sys(t.db, s.del, t.ops[0]))
    decreases |schedule|
  {
    run := [];
    if schedule != [] {
      var u := Step(s, false);
      assert C.Step(C.Sys(s.db, [s.sto]), 0) == C.Sys(u.db, [u.sto]);
      var rest := StoreAlone(u, schedule[1..], t);
      run := [false] + rest;
      assert run[1..] == rest;
    }
  }

  /** The whole Store, while the Delete waits. */
  lemma StoreRuns(db: Db, del: D.DeleteOp, y: Path, bytes: string) returns (run: seq<bool>, t: Sys)
    requires NoEmptySet(db) && |y| >= 1 && Clear(db, y, |y|) && del.Fits()
    ensures Reaches(Sys(db, del, C.Begin(y, bytes)), run, t)
    ensures t == Sys(LinkUp(Conn(db, Unlimited), y, false, false).conn.db[y := Str(Record(bytes))], del,
                     C.StoreOp(y, bytes, C.Done))
  {
    hide LinkUp, Clear, NoEmptySet;
    assert y[..|y|] == y;
    var schedule, u := C.ClimbAlone(db, y, bytes, |y|);
    var first := StoreAlone(Sys(db, del, C.Begin(y, bytes)), schedule, u);
    var mid := Sys(u.db, del, u.ops[0]);
    t := Step(mid, false);
    assert [false][1..] == [] && Reaches(mid, [false], t);
    RunTwice(Sys(db, del, C.Begin(y, bytes)), first, mid, [false], t);
    run := first + [false];
  }

  /** The rest of the Delete from level `n` on, once the Store is done. */
  lemma DeleteEnds(db: Db, x: Path, n: nat, sto: C.StoreOp) returns (run: seq<bool>, t: Sys)
    requires NoEmptySet(db) && 1 <= n <= |x| && Clear(db, x, n) && sto.Fits()
    ensures Reaches(Sys(db, D.DeleteOp(x, D.From(n)), sto), run, t)
    ensures t == Sys(UnlinkUp(Conn(db, Unlimited), x[..n], n < |x|).conn.db - {x}, D.DeleteOp(x, D.Done), sto)
  {
    hide UnlinkUp, Clear, NoEmptySet;
    var schedule, u := D.UnlinkAlone(db, x, n);
    var s := Sys(db, D.DeleteOp(x, D.From(n)), sto);
    var first := DeleteAlone(s, schedule, u);
    var mid := Sys(u.db, u.ops[0], sto);
    t := Step(mid, true);
    assert [true][1..] == [] && Reaches(mid, [true], t);
    RunTwice(s, first, mid, [true], t);
    run := first + [true];
  }

  /** The Delete from level `m` up to the point where it has seen that level `n` is gone. */
  lemma {:induction false} DeleteHalf(db: Db, x: Path, m: nat, n: nat, sto: C.StoreOp) returns (run: seq<bool>, db': Db)
    requires NoEmptySet(db) && 1 <= n <= m <= |x| && Clear(db, x, m) && sto.Fits()
    requires forall j :: n <= j < m ==> Members(db, x[..j]) <= {LinkAt(x, j)}
    ensures NoEmptySet(db') && SameStrings(db', db)
    ensures Reaches(Sys(db, D.DeleteOp(x, D.From(m)), sto), run, Sys(db', D.DeleteOp(x, D.From(n)), sto))
    decreases m
  {
    hide NoEmptySet, Clear;
    if m == n { return [], db; }
    var s := Sys(db, D.DeleteOp(x, D.From(m)), sto);
    var db1 := WithMembers(db, x[..m - 1], Members(db, x[..m - 1]) - {LinkAt(x, m - 1)});
    assert !IsStr(db, x[..m - 1]) by { ClearAt(db, x, m, m - 1); }
    ShrunkByZRem(db, db1, x, m);
    var s1 := Step(s, true);
    assert s1 == Sys(db1, D.DeleteOp(x, D.Check(m)), sto);
    var s2 := Step(s1, true);
    assert s2 == Sys(db1, D.DeleteOp(x, D.From(m - 1)), sto);
    assert forall j :: n <= j < m - 1 ==> x[..j] != x[..m - 1];
    var rest;
    rest, db' := DeleteHalf(db1, x, m - 1, n, sto);
    var tail := [true] + rest;
    assert tail[1..] == rest && Reaches(s1, tail, Sys(db', D.DeleteOp(x, D.From(n)), sto));
    run := [true] + tail;
    assert run[1..] == tail;
    forall p ensures StrAt(db', p) == StrAt(db, p) { assert StrAt(db', p) == StrAt(db1, p); }
  }

  /** Deleting `x` empties the common directory, and that is not the root: the Store runs
      right after the EXISTS that found it gone, and the ZREM after it takes the link away. */
  lemma EmptiedIsLost(db0: Db, root: Path, x: Path, y: Path, n: nat, bytes: string)
    requires Setting(db0, root, x, y, n) && |root| < n && Empties(db0, x, n - 1, |x|)
    ensures !AlwaysExact(db0, root, x, y, bytes)
  {
    SettingApart(db0, root, x, y, n);
    ConsistentIsClear(db0, root, x);
    ConsistentIsClear(db0, root, y);
    PartsApart(x, y, n);
    hide Setting, Conflict, Consistent, LinkUp, UnlinkUp, Clear, UpClosed, Empties, Reaches, NoEmptySet;
    var sto := C.Begin(y, bytes);
    assert forall j :: n <= j < |x| ==> Members(db0, x[..j]) <= {LinkAt(x, j)} by { EmptiesAt(db0, x, n); }
    var run1, db1 := DeleteHalf(db0, x, |x|, n, sto);
    SameClear(db0, db1, y);
    var del := D.DeleteOp(x, D.From(n));
    var run2, s2 := StoreRuns(db1, del, y, bytes);
    AfterStore(db0, db1, s2.db, root, x, y, n, bytes);
    var run3, t := DeleteEnds(s2.db, x, n, s2.sto);
    LinkIsGone(s2.db, x, n);
    RunTwice(Begin(db0, x, y, bytes), run1, Sys(db1, del, sto), run2, s2);
    RunTwice(Begin(db0, x, y, bytes), run1 + run2, s2, run3, t);
    RaceResult(t.db, root, x, y, n, s2.db);
    assert Finished(t);
  }

  lemma EmptiesAt(db: Db, x: Path, n: nat)
    requires 1 <= n && Empties(db, x, n - 1, |x|)
    ensures forall j :: n <= j < |x| ==> Members(db, x[..j]) <= {LinkAt(x, j)}
  {}

  lemma SameClear(a: Db, b: Db, y: Path)
    requires SameStrings(b, a) && Clear(a, y, |y|)
    ensures Clear(b, y, |y|)
  {
    forall i | 1 <= i < |y| ensures !IsStr(b, y[..i]) { assert StrAt(b, y[..i]) == StrAt(a, y[..i]); }
  }

  /** What the Store leaves for the rest of the Delete. */
  lemma AfterStore(db0: Db, db1: Db, db2: Db, root: Path, x: Path, y: Path, n: nat, bytes: string)
    requires Setting(db0, root, x, y, n) && NoEmptySet(db1) && SameStrings(db1, db0) && Clear(db1, y, |y|)
    requires db2 == LinkUp(Conn(db1, Unlimited), y, false, false).conn.db[y := Str(Record(bytes))]
    ensures NoEmptySet(db2) && Clear(db2, x, n) && IsStored(db2, y)
  {
    hide LinkUp, Conflict;
    assert y[..|y|] == y;
    LinkUpCut(db1, Unlimited, y, |y|);
    PartsApart(x, y, n);
    var db3 := LinkUp(Conn(db1, Unlimited), y, false, false).conn.db;
    forall i | 1 <= i < n ensures !IsStr(db2, x[..i]) { OnlyNewString(db0, db1, db3, root, x, y, n, i); }
  }

  lemma OnlyNewString(db0: Db, db1: Db, db3: Db, root: Path, x: Path, y: Path, n: nat, i: nat)
    requires Setting(db0, root, x, y, n) && SameStrings(db1, db0) && SameStrings(db3, db1) && 1 <= i < n
    ensures !IsStr(db3, x[..i]) && x[..i] != y
  {
    assert Under(x[..i], x);
    assert StrAt(db3, x[..i]) == StrAt(db1, x[..i]) == StrAt(db0, x[..i]);
    PartsApart(x, y, n);
  }

  lemma LinkIsGone(db: Db, x: Path, n: nat)
    requires NoEmptySet(db) && 1 < n < |x| && Clear(db, x, n)
    ensures var db' := UnlinkUp(Conn(db, Unlimited), x[..n], true).conn.db;
            LinkAt(x, n - 1) !in Members(db', x[..n - 1]) && SameStrings(db', db)
  {
    hide UnlinkUp;
    var db' := UnlinkUpRemoves(db, x, n);
    assert IsDead(db, x, n, x[..n - 1], LinkAt(x, n - 1));
  }

  lemma RaceResult(end: Db, root: Path, x: Path, y: Path, n: nat, db2: Db)
    requires ShareExactly(x, y, n) && 1 <= |root| < n && Below(root, y) && x != y && IsStored(db2, y)
    requires end == UnlinkUp(Conn(db2, Unlimited), x[..n], true).conn.db - {x}
    requires SameStrings(UnlinkUp(Conn(db2, Unlimited), x[..n], true).conn.db, db2)
    requires LinkAt(x, n - 1) !in Members(UnlinkUp(Conn(db2, Unlimited), x[..n], true).conn.db, x[..n - 1])
    ensures !Consistent(end, root)
  {
    hide UnlinkUp, Consistent;
    var db3 := UnlinkUp(Conn(db2, Unlimited), x[..n], true).conn.db;
    assert StrAt(db3, y) == StrAt(db2, y);
    assert IsStored(end, y);
    assert x[..n - 1] == x[..n][..n - 1] == y[..n][..n - 1] == y[..n - 1] && x[n - 1] == x[..n][n - 1] == y[..n][n - 1];
    assert LinkAt(y, n - 1) == LinkAt(x, n - 1) && !Linked(end, y, n - 1);
    if Consistent(end, root) { StoredIsLinked(end, root, y, n - 1); }
  }

  /** The same key: the Store runs between the climb of the Delete and its DEL. */
  lemma SameKeyIsLost(db0: Db, root: Path, x: Path, bytes: string)
    requires Consistent(db0, root) && Under(root, x) && !Conflict(db0, x)
    ensures !AlwaysExact(db0, root, x, x, bytes)
  {
    ConsistentIsClear(db0, root, x);
    hide Conflict, Consistent, LinkUp, UnlinkUp, Clear, UpClosed, Reaches, NoEmptySet;
    var sto := C.Begin(x, bytes);
    assert x[..|x|] == x;
    var schedule, u := D.UnlinkAlone(db0, x, |x|);
    var run1 := DeleteAlone(Begin(db0, x, x, bytes), schedule, u);
    var s1 := Sys(u.db, u.ops[0], sto);
    UnlinkedIsClear(db0, x);
    var run2, s2 := StoreRuns(u.db, s1.del, x, bytes);
    RunTwice(Begin(db0, x, x, bytes), run1, s1, run2, s2);
    EraseLosesValue(Begin(db0, x, x, bytes), run1 + run2, u.db, root, x, bytes, s2);
  }

  lemma EraseLosesValue(start: Sys, run: seq<bool>, db1: Db, root: Path, x: Path, bytes: string, s: Sys)
    requires Reaches(start, run, s) && start == Begin(start.db, x, x, bytes) && Under(root, x) && |root| >= 1
    requires NoEmptySet(db1) && Clear(db1, x, |x|) && s.del == D.DeleteOp(x, D.Erase) && s.sto.pc.Done?
    requires s.db == LinkUp(Conn(db1, Unlimited), x, false, false).conn.db[x := Str(Record(bytes))]
    ensures !AlwaysExact(start.db, root, x, x, bytes)
  {
    hide LinkUp, Clear, NoEmptySet, Consistent, Reaches;
    var t := Step(s, true);
    OneStep(s, true);
    RunTwice(start, run, s, [true], t);
    LinkWithoutValue(db1, root, x, Record(bytes), t.db);
    assert Finished(t);
  }

  lemma OneStep(s: Sys, deletes: bool)
    requires s.del.Fits() && s.sto.Fits()
    ensures Reaches(s, [deletes], Step(s, deletes))
  {
    assert [deletes][1..] == [];
  }

  lemma UnlinkedIsClear(db: Db, x: Path)
    requires NoEmptySet(db) && |x| >= 1 && Clear(db, x, |x|)
    ensures var db1 := UnlinkUp(Conn(db, Unlimited), x, false).conn.db; NoEmptySet(db1) && Clear(db1, x, |x|)
  {
    hide UnlinkUp;
    assert x[..|x|] == x;
    var db1 := UnlinkUpRemoves(db, x, |x|);
    SameClear(db, db1, x);
  }

  lemma LinkWithoutValue(db1: Db, root: Path, x: Path, v: Value, end: Db)
    requires NoEmptySet(db1) && Under(root, x) && |root| >= 1 && Clear(db1, x, |x|)
    requires end == LinkUp(Conn(db1, Unlimited), x, false, false).conn.db[x := Str(v)] - {x}
    ensures !Consistent(end, root)
  {
    hide LinkUp, Consistent;
    assert x[..|x|] == x;
    var db2 := LinkUp(Conn(db1, Unlimited), x, false, false).conn.db;
    LinkUpCut(db1, Unlimited, x, |x|);
    GrownLinks(db1, db2, x, |x| - NewLinks(db1, x, |x|), |x|, |x| - 1);
    assert Linked(db2, x, |x| - 1);
    assert x[..|x| - 1] != x && Linked(end, x, |x| - 1) && x !in end;
    if Consistent(end, root) { FileLinkIsStored(end, root, x); }
  }

  // ----- main result -----

  /** Delete of `x` and Store of `y`, neither above the other: every interleaving of their
      commands succeeds and leaves an exact index if and only if the keys differ and their
      deepest common directory is the root, or deleting `x` does not empty it. */
  lemma EveryRaceEndsWellIff(db: Db, root: Path, x: Path, y: Path, bytes: string)
    requires Consistent(db, root) && Under(root, x) && Under(root, y) && !Conflict(db, x) && !Conflict(db, y)
    requires !Under(x, y) && !Under(y, x)
    ensures AlwaysExact(db, root, x, y, bytes) <==>
            x != y && Harmless(db, root, x, CommonLength(x, y, 0))
  {
    hide Consistent, Conflict, AlwaysExact, Empties;
    ConsistentIsNamed(db, root);
    if x == y {
      SameKeyIsLost(db, root, x, bytes);
    } else {
      var n := CommonLength(x, y, 0);
      KeysPart(root, x, y);
      assert Setting(db, root, x, y, n);
      if Harmless(db, root, x, n) { HarmlessIsExact(db, root, x, y, n, bytes); }
      else { EmptiedIsLost(db, root, x, y, n, bytes); }
    }
  }

  lemma KeysPart(root: Path, x: Path, y: Path)
    requires Below(root, x) && Below(root, y) && x != y && !Under(x, y) && !Under(y, x)
    ensures var n := CommonLength(x, y, 0); ShareExactly(x, y, n) && |root| <= n
  {
    assert x[..0] == y[..0];
    CommonIsShared(x, y, 0);
    var n := CommonLength(x, y, 0);
    WholeIsAbove(x, y, n);
    WholeIsAbove(y, x, n);
    RootIsShared(root, x, y, n);
  }

  lemma WholeIsAbove(x: Path, y: Path, n: nat)
    requires n <= |x| && n <= |y| && x[..n] == y[..n]
    ensures n == |x| ==> x == y || Under(x, y)
  {
    if n == |x| { assert x[..n] == x; if n == |y| { assert y[..n] == y; } }
  }

  lemma RootIsShared(root: Path, x: Path, y: Path, n: nat)
    requires Below(root, x) && Below(root, y)
    ensures n < |root| ==> x[n] == y[n]
  {
    if n < |root| { assert x[n] == x[..|root|][n] && y[n] == y[..|root|][n]; }
  }
}
