/** Store and Delete of storage.go with their climbs over the directory sets, and what
    it means for the index to agree with the stored keys. */
module DirectoryIndex {
  import opened Common
  import opened Redis

  // ----- splitDirectoryKey on segments -----

  function Parent(p: Path): Path requires |p| > 0 { p[..|p| - 1] }

  function Base(p: Path, isDir: bool): Member
    requires |p| > 0
  {
    if isDir then Dir(p[|p| - 1]) else File(p[|p| - 1])
  }

  // ----- storeDirectoryRecord, deleteDirectoryRecord, Store, Delete -----

  function LinkUp(c: Conn, p: Path, isDir: bool, repair: bool): Reply
    decreases |p|
  {
    if |p| <= 1 then Ok(c, true) else
    var r :- ZAdd(c, Parent(p), Base(p, isDir));
    if r.hit || repair then LinkUp(r.conn, Parent(p), true, repair) else Ok(r.conn, true)
  }

  function UnlinkUp(c: Conn, p: Path, isDir: bool): Reply
    decreases |p|
  {
    if |p| <= 1 then Ok(c, true) else
    var r :- ZRem(c, Parent(p), Base(p, isDir));
    var e :- Exists(r.conn, Parent(p));
    if e.hit then Ok(e.conn, true) else UnlinkUp(e.conn, Parent(p), true)
  }

  function Store(c: Conn, key: Path, v: Value): Reply {
    var r :- LinkUp(c, key, false, false);
    Set(r.conn, key, v)
  }

  function Delete(c: Conn, key: Path): Reply {
    var r :- UnlinkUp(c, key, false);
    Del(r.conn, key)
  }

  // ----- what the index should hold -----

  /** `k` lies strictly below directory `d`. */
  predicate Under(d: Path, k: Path) { |d| < |k| && k[..|d|] == d }

  /** The member that key `k` needs in its ancestor directory of length `n`. */
  function LinkAt(k: Path, n: nat): Member
    requires n < |k|
  {
    if n + 1 == |k| then File(k[n]) else Dir(k[n])
  }

  predicate Linked(db: Db, k: Path, n: nat)
    requires n < |k|
  {
    LinkAt(k, n) in Members(db, k[..n])
  }

  /** Directory `d` is linked in its parent. */
  predicate DirLinked(db: Db, d: Path)
    requires |d| > 0
  {
    Dir(d[|d| - 1]) in Members(db, Parent(d))
  }

  /** Some stored key needs member `m` in directory `d`. */
  ghost predicate Needed(db: Db, d: Path, m: Member) {
    exists k :: IsStored(db, k) && Under(d, k) && LinkAt(k, |d|) == m
  }

  /** `d` is the root or lies below it. */
  predicate Below(root: Path, d: Path) { |root| <= |d| && d[..|root|] == root }

  /** The index below the root agrees with the keys stored there: every directory set holds
      exactly the members some stored key needs, and no string stands above a stored key.
      The rest of the server may hold anything, except that the segments of the root itself
      are not used up by strings. */
  ghost predicate Consistent(db: Db, root: Path) {
    && |root| >= 1 && NoEmptySet(db) && Clear(db, root, |root|)
    && (forall d, k :: Below(root, d) && IsStr(db, d) && IsStored(db, k) ==> !Under(d, k))
    && (forall d, m :: Below(root, d) ==> (m in Members(db, d) <==> Needed(db, d, m)))
  }

  /** Key `k` collides with the tree: a string stands where `k` needs a directory, or
      `k` is itself a directory of stored keys. */
  ghost predicate Conflict(db: Db, k: Path) {
    || (exists p :: p != [] && IsStr(db, p) && Under(p, k))
    || (exists p :: IsStored(db, p) && Under(k, p))
  }

  /** `m` in directory `d` stands for the next segment of the root on the way down to it. */
  predicate LeadsToRoot(root: Path, d: Path, m: Member) {
    1 <= |d| < |root| && root[..|d|] == d && m.name == root[|d|]
  }

  /** Nothing outside the tree below the root differs, but for the entries that lead to the
      root; under a root of one segment there are none. */
  ghost predicate OutsideKept(a: Db, b: Db, root: Path) {
    && (forall p :: !Below(root, p) ==> StrAt(b, p) == StrAt(a, p))
    && (forall d, m :: !Below(root, d) && !LeadsToRoot(root, d, m) ==> (m in Members(b, d) <==> m in Members(a, d)))
  }

  lemma OutsideTwice(a: Db, b: Db, c: Db, root: Path)
    requires OutsideKept(a, b, root) && OutsideKept(b, c, root)
    ensures OutsideKept(a, c, root)
  {
    forall p | !Below(root, p) ensures StrAt(c, p) == StrAt(a, p) { assert StrAt(c, p) == StrAt(b, p); }
    forall d, m | !Below(root, d) && !LeadsToRoot(root, d, m) ensures m in Members(c, d) <==> m in Members(a, d) {
      assert m in Members(c, d) <==> m in Members(b, d);
    }
  }

  /** A link of a key below the root lies below the root or leads to it. */
  lemma OwnLinkIsInside(root: Path, k: Path, d: Path, m: Member)
    requires |root| >= 1 && Below(root, k) && IsLink(k, 1, |k|, d, m)
    ensures Below(root, d) || LeadsToRoot(root, d, m)
    ensures Below(root, d) <==> |d| >= |root|
  {
    if |d| < |root| {
      assert root[..|d|] == k[..|root|][..|d|] == d && root[|d|] == k[..|root|][|d|] == k[|d|];
    } else {
      assert d[..|root|] == k[..|d|][..|root|] == k[..|root|];
    }
  }

  // ----- two keys -----

  /** The keys have exactly their first `n` segments in common. */
  predicate ShareExactly(j: Path, k: Path, n: nat) {
    n < |j| && n < |k| && j[..n] == k[..n] && j[n] != k[n]
  }

  /** How many segments two keys have in common, counted from `n` on. */
  function CommonLength(j: Path, k: Path, n: nat): nat
    decreases |j| - n
  {
    if n < |j| && n < |k| && j[n] == k[n] then CommonLength(j, k, n + 1) else n
  }

  lemma {:induction false} CommonIsShared(j: Path, k: Path, n: nat)
    requires n <= |j| && n <= |k| && j[..n] == k[..n]
    ensures var c := CommonLength(j, k, n);
      && n <= c <= |j| && c <= |k| && j[..c] == k[..c] && (c < |j| && c < |k| ==> j[c] != k[c])
    decreases |j| - n
  {
    if n < |j| && n < |k| && j[n] == k[n] {
      assert j[..n + 1] == j[..n] + [j[n]] && k[..n + 1] == k[..n] + [k[n]];
      CommonIsShared(j, k, n + 1);
    }
  }

  // ----- the upward climb of Store -----

  /** `m` in directory `d` is a link of `k` at a level from `lo` below `hi`. */
  predicate IsLink(k: Path, lo: int, hi: int, d: Path, m: Member)
    requires hi <= |k|
  {
    lo <= |d| < hi && k[..|d|] == d && m == LinkAt(k, |d|)
  }

  /** `b` is `a` with the links of `k` at the levels from `lo` below `hi` added. */
  ghost predicate Grown(a: Db, b: Db, k: Path, lo: int, hi: int)
    requires hi <= |k|
  {
    && NoEmptySet(b) && SameStrings(b, a)
    && (forall d, m :: m in Members(b, d) <==> m in Members(a, d) || IsLink(k, lo, hi, d, m))
  }

  lemma GrownByZAdd(db: Db, budget: Budget, k: Path, n: nat)
    requires 1 <= n < |k| && NoEmptySet(db) && !IsStr(db, k[..n]) && budget != Left(0)
    ensures var r := ZAdd(Conn(db, budget), k[..n], LinkAt(k, n));
      && r.Ok? && NoEmptySet(r.conn.db) && r.conn.budget == Spend(budget)
      && Grown(db, r.conn.db, k, n, n + 1) && (r.hit <==> !Linked(db, k, n))
  {}

  /** Adding links that are there already changes nothing. */
  lemma GrownNothing(a: Db, b: Db, k: Path, lo: int, hi: int)
    requires hi <= |k| && Grown(a, b, k, lo, hi)
    requires 0 <= lo && forall i :: lo <= i < hi ==> Linked(a, k, i)
    ensures Grown(a, b, k, hi, hi)
  {
    forall d, m | IsLink(k, lo, hi, d, m) ensures m in Members(a, d) { assert Linked(a, k, |d|); }
  }

  lemma GrownTwice(a: Db, b: Db, c: Db, k: Path, lo: int, mid: int, hi: int)
    requires lo <= mid <= hi <= |k| && Grown(a, b, k, mid, hi) && Grown(b, c, k, lo, mid)
    ensures Grown(a, c, k, lo, hi)
  {
    forall p ensures StrAt(c, p) == StrAt(a, p) { assert StrAt(c, p) == StrAt(b, p); }
    forall d, m ensures m in Members(c, d) <==> m in Members(a, d) || IsLink(k, lo, hi, d, m) {
      assert m in Members(c, d) <==> m in Members(b, d) || IsLink(k, lo, mid, d, m);
    }
  }

  lemma GrownSame(a: Db, b: Db, c: Db, k: Path, lo: int, hi: int)
    requires hi <= |k| && Grown(a, b, k, lo, hi) && Grown(a, c, k, lo, hi)
    ensures b == c
  {
    forall p ensures StrAt(b, p) == StrAt(c, p) { assert StrAt(b, p) == StrAt(a, p); }
    forall p ensures Members(b, p) == Members(c, p) {
      assert forall m :: m in Members(b, p) <==> m in Members(c, p);
    }
    SameViews(b, c);
  }

  lemma GrownLinks(a: Db, b: Db, k: Path, lo: int, hi: int, i: nat)
    requires hi <= |k| && Grown(a, b, k, lo, hi) && i < |k|
    ensures Linked(b, k, i) <==> Linked(a, k, i) || lo <= i < hi
    ensures IsStr(b, k[..i]) <==> IsStr(a, k[..i])
  {
    assert LinkAt(k, i) in Members(b, k[..i]) <==>
           LinkAt(k, i) in Members(a, k[..i]) || IsLink(k, lo, hi, k[..i], LinkAt(k, i));
    assert StrAt(b, k[..i]) == StrAt(a, k[..i]);
  }

  /** Once a link of `k` is there, so are all links above it down from level `lo`: what lets
      Store stop early. */
  ghost predicate UpClosed(db: Db, k: Path, lo: nat) {
    forall i, j :: lo <= i < j < |k| && Linked(db, k, j) ==> Linked(db, k, i)
  }

  /** How many links of `k`, counted upward from level `n`, an uninterrupted climb adds. */
  function NewLinks(db: Db, k: Path, n: nat): (a: nat)
    requires n <= |k|
    ensures n >= 1 ==> a <= n - 1
    decreases n
  {
    if n <= 1 || Linked(db, k, n - 1) then 0 else 1 + NewLinks(db, k, n - 1)
  }

  function Commands(b: Budget, limit: nat): nat { if b.Left? then Min(b.commands, limit) else limit }

  lemma NewLinksAreMissing(db: Db, k: Path, n: nat, i: nat)
    requires n <= |k| && n - NewLinks(db, k, n) <= i < n
    ensures !Linked(db, k, i)
    decreases n
  {
    if i < n - 1 { NewLinksAreMissing(db, k, n - 1, i); }
  }

  /** The count stops at a link that is there, or at the top. */
  lemma {:induction false} NewLinksStop(db: Db, k: Path, n: nat)
    requires 1 <= n <= |k|
    ensures var i := n - NewLinks(db, k, n) - 1; i >= 1 ==> Linked(db, k, i)
    decreases n
  {
    if n > 1 && !Linked(db, k, n - 1) { NewLinksStop(db, k, n - 1); }
  }

  lemma {:induction false} SameNewLinks(a: Db, b: Db, k: Path, n: nat)
    requires n <= |k| && forall i :: 1 <= i < n ==> Linked(a, k, i) == Linked(b, k, i)
    ensures NewLinks(a, k, n) == NewLinks(b, k, n)
    decreases n
  {
    if n > 1 { SameNewLinks(a, b, k, n - 1); }
  }

  lemma LinkUpStep(c: Conn, k: Path, n: nat, repair: bool)
    requires 1 < n <= |k|
    ensures var r := ZAdd(c, k[..n - 1], LinkAt(k, n - 1));
      LinkUp(c, k[..n], n < |k|, repair) ==
        if r.Fail? then Fail(r.conn, r.error)
        else if r.hit || repair then LinkUp(r.conn, k[..n - 1], n - 1 < |k|, repair)
        else Ok(r.conn, true)
  {
    assert Parent(k[..n]) == k[..n - 1] && Base(k[..n], n < |k|) == LinkAt(k, n - 1);
  }

  lemma LinkUpIdle(db: Db, budget: Budget, k: Path, n: nat, repair: bool)
    requires 1 <= n <= |k| && NoEmptySet(db) && (n == 1 || budget == Left(0))
    ensures LinkUp(Conn(db, budget), k[..n], n < |k|, repair) ==
      if n == 1 then Ok(Conn(db, budget), true) else Fail(Conn(db, budget), Closed)
    ensures Grown(db, db, k, n, n)
  {}

  /** No string stands where `k` needs a directory below level `n`. */
  ghost predicate Clear(db: Db, k: Path, n: nat)
    requires n <= |k|
  {
    forall i :: 1 <= i < n ==> !IsStr(db, k[..i])
  }

  lemma ClearAt(db: Db, k: Path, n: nat, i: nat)
    requires 1 <= i < n <= |k| && Clear(db, k, n)
    ensures !IsStr(db, k[..i])
  {}

  /** One ZADD of the climb leaves the path clear and the higher links as they were. */
  lemma StepKeepsRest(db: Db, db1: Db, k: Path, n: nat)
    requires 1 < n <= |k| && Clear(db, k, n) && Grown(db, db1, k, n - 1, n)
    ensures Clear(db1, k, n - 1) && NewLinks(db1, k, n - 1) == NewLinks(db, k, n - 1)
  {
    forall i | 1 <= i < n - 1 ensures (Linked(db1, k, i) <==> Linked(db, k, i)) && !IsStr(db1, k[..i]) {
      GrownLinks(db, db1, k, n - 1, n, i);
    }
    SameNewLinks(db, db1, k, n - 1);
  }

  /** A climb that may be cut off adds the new links from the bottom up, as many as its
      budget allows. */
  lemma {:induction false} LinkUpCut(db: Db, budget: Budget, k: Path, n: nat)
    requires 1 <= n <= |k| && NoEmptySet(db) && Clear(db, k, n)
    ensures Grown(db, LinkUp(Conn(db, budget), k[..n], n < |k|, false).conn.db,
                  k, n - Commands(budget, NewLinks(db, k, n)), n)
    decreases n
  {
    hide LinkUp, Grown, NoEmptySet, ZAdd, Members;
    if n == 1 || budget == Left(0) { LinkUpIdle(db, budget, k, n, false); return; }
    LinkUpStep(Conn(db, budget), k, n, false);
    GrownByZAdd(db, budget, k, n - 1);
    var z := ZAdd(Conn(db, budget), k[..n - 1], LinkAt(k, n - 1));
    if z.hit {
      StepKeepsRest(db, z.conn.db, k, n);
      LinkUpCut(z.conn.db, Spend(budget), k, n - 1);
      GrownTwice(db, z.conn.db, LinkUp(z.conn, k[..n - 1], true, false).conn.db,
                 k, n - 1 - Commands(Spend(budget), NewLinks(db, k, n - 1)), n - 1, n);
    } else {
      GrownNothing(db, z.conn.db, k, n - 1, n);
    }
  }

  /** Such a climb fails only when its client is closed under it, which is certain while
      new links are left to add. */
  lemma {:induction false} LinkUpOutcome(db: Db, budget: Budget, k: Path, n: nat)
    requires 1 <= n <= |k| && NoEmptySet(db) && Clear(db, k, n)
    ensures var r := LinkUp(Conn(db, budget), k[..n], n < |k|, false);
      && (budget.Unlimited? ==> r == Ok(Conn(r.conn.db, Unlimited), true))
      && (r.Fail? ==> r.error == Closed)
      && (budget.Left? && budget.commands < NewLinks(db, k, n) ==> r.Fail?)
    decreases n
  {
    hide LinkUp, Grown, NoEmptySet, ZAdd, Members;
    if n == 1 || budget == Left(0) { LinkUpIdle(db, budget, k, n, false); return; }
    LinkUpStep(Conn(db, budget), k, n, false);
    GrownByZAdd(db, budget, k, n - 1);
    var z := ZAdd(Conn(db, budget), k[..n - 1], LinkAt(k, n - 1));
    if z.hit {
      StepKeepsRest(db, z.conn.db, k, n);
      LinkUpOutcome(z.conn.db, Spend(budget), k, n - 1);
    }
  }

  /** `b` is `a` with links of `k` added, at level `lo` and below all of them. */
  ghost predicate GrownDownFrom(a: Db, b: Db, k: Path, lo: nat) {
    && NoEmptySet(b) && SameStrings(b, a)
    && (forall d, m :: m in Members(a, d) || IsLink(k, lo, |k|, d, m) ==> m in Members(b, d))
    && (forall d, m :: m in Members(b, d) ==> m in Members(a, d) || IsLink(k, 1, |k|, d, m))
  }

  /** An uninterrupted climb over links that are closed upward from level `lo` on leaves all
      of these in place. */
  lemma LinkUpAdds(db: Db, k: Path, lo: nat) returns (db': Db)
    requires 1 <= lo <= |k| && NoEmptySet(db) && Clear(db, k, |k|) && UpClosed(db, k, lo)
    ensures LinkUp(Conn(db, Unlimited), k, false, false) == Ok(Conn(db', Unlimited), true)
    ensures GrownDownFrom(db, db', k, lo)
  {
    assert k[..|k|] == k;
    hide LinkUp;
    LinkUpCut(db, Unlimited, k, |k|);
    LinkUpOutcome(db, Unlimited, k, |k|);
    db' := LinkUp(Conn(db, Unlimited), k, false, false).conn.db;
    EarlyStopIsComplete(db, db', k, lo);
  }

  /** With the lowest link in place, all links are. */
  lemma EarlyStopIsComplete(db: Db, db': Db, k: Path, lo: nat)
    requires 1 <= lo <= |k| && UpClosed(db, k, lo) && Grown(db, db', k, |k| - NewLinks(db, k, |k|), |k|)
    ensures GrownDownFrom(db, db', k, lo)
  {
    NewLinksStop(db, k, |k|);
    var low := |k| - NewLinks(db, k, |k|);
    forall d, m | IsLink(k, lo, |k|, d, m) && |d| < low ensures m in Members(db, d) { assert Linked(db, k, |d|); }
    assert forall d, m :: IsLink(k, low, |k|, d, m) ==> IsLink(k, 1, |k|, d, m);
  }

  /** The climb of Repair adds the links of `k` at every level. */
  lemma {:induction false} LinkUpRepairs(db: Db, k: Path, n: nat) returns (db': Db)
    requires 1 <= n <= |k| && NoEmptySet(db) && Clear(db, k, n)
    ensures LinkUp(Conn(db, Unlimited), k[..n], n < |k|, true) == Ok(Conn(db', Unlimited), true)
    ensures Grown(db, db', k, 1, n)
    decreases n
  {
    hide LinkUp, Grown, NoEmptySet, ZAdd;
    if n == 1 { LinkUpIdle(db, Unlimited, k, n, true); return db; }
    LinkUpStep(Conn(db, Unlimited), k, n, true);
    GrownByZAdd(db, Unlimited, k, n - 1);
    var db1 := ZAdd(Conn(db, Unlimited), k[..n - 1], LinkAt(k, n - 1)).conn.db;
    StepKeepsRest(db, db1, k, n);
    db' := LinkUpRepairs(db1, k, n - 1);
    GrownTwice(db, db1, db', k, 1, n - 1, n);
  }

  /** In a consistent index the links of any path are closed upward to the root. */
  lemma ConsistentUpClosed(db: Db, root: Path, k: Path)
    requires Consistent(db, root) && Below(root, k)
    ensures UpClosed(db, k, |root|)
  {
    forall i, j | |root| <= i < j < |k| && Linked(db, k, j) ensures Linked(db, k, i) {
      BelowPrefix(root, k, i);
      BelowPrefix(root, k, j);
      var k' :| IsStored(db, k') && Under(k[..j], k') && LinkAt(k', j) == LinkAt(k, j);
      assert k'[..i] == k'[..j][..i] == k[..i] && k'[i] == k'[..j][i] == k[i];
      assert Under(k[..i], k') && LinkAt(k', i) == LinkAt(k, i);
      assert Needed(db, k[..i], LinkAt(k, i));
    }
  }

  lemma BelowPrefix(root: Path, k: Path, i: nat)
    requires Below(root, k) && |root| <= i <= |k|
    ensures Below(root, k[..i])
  {
    assert k[..i][..|root|] == k[..|root|];
  }

  lemma BelowUnder(root: Path, d: Path, k: Path)
    requires Below(root, d) && Under(d, k)
    ensures Under(root, k) && Below(root, k)
  {
    assert k[..|root|] == k[..|d|][..|root|];
  }

  /** A stored key is linked at every level from the root down. */
  lemma StoredIsLinked(db: Db, root: Path, k: Path, n: nat)
    requires Consistent(db, root) && IsStored(db, k) && Below(root, k) && |root| <= n < |k|
    ensures Linked(db, k, n)
  {
    BelowPrefix(root, k, n);
    assert Under(k[..n], k);
    assert Needed(db, k[..n], LinkAt(k, n));
  }

  lemma ConsistentIsNamed(db: Db, root: Path)
    requires Consistent(db, root)
    ensures |root| >= 1 && NoEmptySet(db)
  {}

  lemma ConsistentIsClear(db: Db, root: Path, k: Path)
    requires Consistent(db, root) && Below(root, k) && !Conflict(db, k)
    ensures 1 <= |root| <= |k| && NoEmptySet(db) && Clear(db, k, |k|) && UpClosed(db, k, |root|)
  {
    forall i | 1 <= i < |k| ensures !IsStr(db, k[..i]) { assert Under(k[..i], k); }
    ConsistentUpClosed(db, root, k);
  }

  /** Store of a key that collides with nothing: the key joins the stored keys, the index
      below the root stays exact, nothing else changes. */
  lemma StoreExact(db: Db, root: Path, k: Path, bytes: string)
    requires Consistent(db, root) && Below(root, k) && !Conflict(db, k)
    ensures var r := Store(Conn(db, Unlimited), k, Record(bytes));
      && r.Ok? && r.conn.budget.Unlimited? && Consistent(r.conn.db, root) && OutsideKept(db, r.conn.db, root)
      && (forall p :: StrAt(r.conn.db, p) == if p == k then Some(Record(bytes)) else StrAt(db, p))
  {
    hide LinkUp, Consistent, Conflict, Clear, UpClosed, GrownDownFrom;
    ConsistentIsClear(db, root, k);
    var db1 := LinkUpAdds(db, k, |root|);
    StoreIsExact(db, db1, root, k, Record(bytes));
  }

  lemma StoreIsExact(db: Db, db1: Db, root: Path, k: Path, v: Value)
    requires Consistent(db, root) && Below(root, k) && !Conflict(db, k) && v.Record?
    requires GrownDownFrom(db, db1, k, |root|)
    ensures var db2 := db1[k := Str(v)];
      && Consistent(db2, root) && OutsideKept(db, db2, root)
      && (forall p :: StrAt(db2, p) == if p == k then Some(v) else StrAt(db, p))
  {
    var db2 := db1[k := Str(v)];
    forall p ensures StrAt(db2, p) == if p == k then Some(v) else StrAt(db, p) {
      assert StrAt(db1, p) == StrAt(db, p);
    }
    StringViews(db, db2);
    KeyHasNoMembers(db, db1, root, k);
    assert forall d :: Members(db2, d) == Members(db1, d);
    forall i | 1 <= i < |root| ensures !IsStr(db2, root[..i]) { assert !IsStr(db, root[..i]); }
    forall d, m ensures m in Members(db2, d) && !Below(root, d) && !LeadsToRoot(root, d, m) ==> m in Members(db, d) {
      if IsLink(k, 1, |k|, d, m) { OwnLinkIsInside(root, k, d, m); }
    }
    forall d, m | Below(root, d) ensures m in Members(db2, d) <==> Needed(db2, d, m) {
      NeededAfterStore(db, db2, k, d, m);
      assert IsLink(k, 1, |k|, d, m) <==> IsLink(k, |root|, |k|, d, m);
    }
  }

  lemma KeyHasNoMembers(db: Db, db1: Db, root: Path, k: Path)
    requires Consistent(db, root) && Below(root, k) && !Conflict(db, k) && GrownDownFrom(db, db1, k, |root|)
    ensures Members(db1, k) == {}
  {
    NoSetWithoutStored(db, root, k);
    assert forall m :: m in Members(db1, k) ==> m in Members(db, k) || IsLink(k, 1, |k|, k, m);
  }

  lemma StringViews(a: Db, b: Db)
    ensures forall p :: IsStored(a, p) <==> StrAt(a, p).Some? && StrAt(a, p).value.Record?
    ensures forall p :: IsStored(b, p) <==> StrAt(b, p).Some? && StrAt(b, p).value.Record?
    ensures forall p :: (IsStr(a, p) <==> StrAt(a, p).Some?) && (IsStr(b, p) <==> StrAt(b, p).Some?)
  {}

  lemma NeededAfterStore(db: Db, db2: Db, k: Path, d: Path, m: Member)
    requires forall p :: IsStored(db2, p) <==> IsStored(db, p) || p == k
    ensures Needed(db2, d, m) <==> Needed(db, d, m) || (Under(d, k) && LinkAt(k, |d|) == m)
  {
    assert IsStored(db2, k);
  }

  /** A climb that would pass through a string is refused there. */
  lemma {:induction false} LinkUpBlocked(db: Db, k: Path, n: nat, s: nat)
    requires 1 <= s < n <= |k| && IsStr(db, k[..s])
    requires forall i :: s < i < n ==> Members(db, k[..i]) == {}
    ensures LinkUp(Conn(db, Unlimited), k[..n], n < |k|, false).Fail?
    decreases n
  {
    assert Parent(k[..n]) == k[..n - 1];
    if s < n - 1 && !IsStr(db, k[..n - 1]) {
      var db1 := ZAdd(Conn(db, Unlimited), k[..n - 1], Base(k[..n], n < |k|)).conn.db;
      assert forall i :: 1 <= i < n - 1 ==> k[..i] != k[..n - 1];
      LinkUpBlocked(db1, k, n - 1, s);
    }
  }

  /** No set can lie below a string, and none at or below a path without stored keys. */
  lemma NoSetWithoutStored(db: Db, root: Path, d: Path)
    requires Consistent(db, root) && Below(root, d)
    requires forall p :: IsStored(db, p) ==> !Under(d, p)
    ensures Members(db, d) == {}
  {
    assert forall m :: m in Members(db, d) ==> Needed(db, d, m);
  }

  lemma NoSetBelowString(db: Db, root: Path, d: Path, k: Path, n: nat)
    requires Consistent(db, root) && Below(root, d) && IsStr(db, d) && Under(d, k) && |d| < n <= |k|
    ensures Members(db, k[..n]) == {}
  {
    forall p | Under(k[..n], p) ensures Under(d, p) {
      assert p[..|d|] == p[..n][..|d|] == k[..|d|];
    }
    BelowUnder(root, d, k);
    BelowPrefix(root, k, n);
    NoSetWithoutStored(db, root, k[..n]);
  }

  /** A string above an own key stands below the root. */
  lemma StringAboveIsOwn(db: Db, root: Path, p: Path, k: Path)
    requires Clear(db, root, |root|) && Below(root, k) && p != [] && IsStr(db, p) && Under(p, k)
    ensures Below(root, p)
  {
    PrefixesNest(root, p, k);
  }

  lemma PrefixesNest(root: Path, p: Path, k: Path)
    requires Below(root, k) && Under(p, k)
    ensures if |p| < |root| then root[..|p|] == p else Below(root, p)
  {
    if |p| < |root| { assert k[..|root|][..|p|] == k[..|p|]; } else { assert p[..|root|] == k[..|p|][..|root|]; }
  }

  /** Exactly when Store keeps its promise: it succeeds and leaves an exact index if and
      only if the key collides with nothing. */
  lemma StoreExactIff(db: Db, root: Path, k: Path, bytes: string)
    requires Consistent(db, root) && Below(root, k)
    ensures var r := Store(Conn(db, Unlimited), k, Record(bytes));
      (r.Ok? && Consistent(r.conn.db, root)) <==> !Conflict(db, k)
  {
    assert k[..|k|] == k;
    if p :| p != [] && IsStr(db, p) && Under(p, k) {
      StringAboveIsOwn(db, root, p, k);
      forall i | |p| < i < |k| ensures Members(db, k[..i]) == {} { NoSetBelowString(db, root, p, k, i); }
      LinkUpBlocked(db, k, |k|, |p|);
    } else if p :| IsStored(db, p) && Under(k, p) {
      forall i | 1 <= i < |k| ensures !IsStr(db, k[..i]) { assert Under(k[..i], k); }
      ConsistentUpClosed(db, root, k);
      var db1 := LinkUpAdds(db, k, |root|);
      assert StrAt(db1, p) == StrAt(db, p);
      assert IsStored(db1[k := Str(Record(bytes))], p);
    } else {
      StoreExact(db, root, k, bytes);
    }
  }

  // ----- the climb of Delete -----

  /** Deleting `k` empties every directory between level `i` and level `n`. */
  ghost predicate Empties(db: Db, k: Path, i: nat, n: nat)
    requires n <= |k|
  {
    forall j :: i < j < n ==> Members(db, k[..j]) <= {LinkAt(k, j)}
  }

  /** Delete of `k` removes `m` from directory `d` on its way up from level `n`. */
  ghost predicate IsDead(db: Db, k: Path, n: nat, d: Path, m: Member)
    requires n <= |k|
  {
    IsLink(k, 1, n, d, m) && Empties(db, k, |d|, n)
  }

  /** `b` is `a` without the links that Delete removes on its way up from level `n`. */
  ghost predicate Shrunk(a: Db, b: Db, k: Path, n: nat)
    requires n <= |k|
  {
    && NoEmptySet(b) && SameStrings(b, a)
    && (forall d, m :: m in Members(b, d) <==> m in Members(a, d) && !IsDead(a, k, n, d, m))
  }

  lemma UnlinkUpStep(db: Db, k: Path, n: nat)
    requires 1 < n <= |k| && !IsStr(db, k[..n - 1])
    ensures var db1 := WithMembers(db, k[..n - 1], Members(db, k[..n - 1]) - {LinkAt(k, n - 1)});
      UnlinkUp(Conn(db, Unlimited), k[..n], n < |k|) ==
        if k[..n - 1] in db1 then Ok(Conn(db1, Unlimited), true)
        else UnlinkUp(Conn(db1, Unlimited), k[..n - 1], n - 1 < |k|)
  {
    assert Parent(k[..n]) == k[..n - 1] && Base(k[..n], n < |k|) == LinkAt(k, n - 1);
  }

  lemma ShrunkByZRem(db: Db, db1: Db, k: Path, n: nat)
    requires 1 < n <= |k| && NoEmptySet(db) && Clear(db, k, n)
    requires db1 == WithMembers(db, k[..n - 1], Members(db, k[..n - 1]) - {LinkAt(k, n - 1)})
    ensures NoEmptySet(db1) && Clear(db1, k, n - 1) && SameStrings(db1, db)
    ensures forall d :: d != k[..n - 1] ==> Members(db1, d) == Members(db, d)
    ensures Members(db1, k[..n - 1]) == Members(db, k[..n - 1]) - {LinkAt(k, n - 1)}
    ensures k[..n - 1] in db1 <==> !(Members(db, k[..n - 1]) <= {LinkAt(k, n - 1)})
  {
    forall i | 1 <= i < n - 1 ensures !IsStr(db1, k[..i]) { assert !IsStr(db, k[..i]); }
  }

  lemma ShrunkOnce(db: Db, db1: Db, k: Path, n: nat)
    requires 1 < n <= |k| && NoEmptySet(db) && Clear(db, k, n)
    requires db1 == WithMembers(db, k[..n - 1], Members(db, k[..n - 1]) - {LinkAt(k, n - 1)})
    requires k[..n - 1] in db1
    ensures Shrunk(db, db1, k, n)
  {
    ShrunkByZRem(db, db1, k, n);
  }

  lemma ShrunkTwice(db: Db, db1: Db, db2: Db, k: Path, n: nat)
    requires 1 < n <= |k| && NoEmptySet(db) && Clear(db, k, n)
    requires db1 == WithMembers(db, k[..n - 1], Members(db, k[..n - 1]) - {LinkAt(k, n - 1)})
    requires k[..n - 1] !in db1 && Shrunk(db1, db2, k, n - 1)
    ensures Shrunk(db, db2, k, n)
  {
    hide WithMembers, NoEmptySet;
    ShrunkByZRem(db, db1, k, n);
    forall p ensures StrAt(db2, p) == StrAt(db, p) { assert StrAt(db2, p) == StrAt(db1, p); }
    forall d, m ensures m in Members(db2, d) <==> m in Members(db, d) && !IsDead(db, k, n, d, m) {
      assert m in Members(db2, d) <==> m in Members(db1, d) && !IsDead(db1, k, n - 1, d, m);
      if 1 <= |d| < n - 1 {
        assert forall j :: |d| < j < n - 1 ==> Members(db1, k[..j]) == Members(db, k[..j]);
        assert Empties(db, k, |d|, n) <==> Empties(db1, k, |d|, n - 1);
      }
    }
  }

  lemma {:induction false} UnlinkUpRemoves(db: Db, k: Path, n: nat) returns (db': Db)
    requires 1 <= n <= |k| && NoEmptySet(db) && Clear(db, k, n)
    ensures UnlinkUp(Conn(db, Unlimited), k[..n], n < |k|) == Ok(Conn(db', Unlimited), true)
    ensures Shrunk(db, db', k, n)
    decreases n
  {
    hide UnlinkUp, Shrunk, NoEmptySet, WithMembers, Members;
    if n == 1 { UnlinkUpIdle(db, k); return db; }
    UnlinkUpStep(db, k, n);
    var db1 := WithMembers(db, k[..n - 1], Members(db, k[..n - 1]) - {LinkAt(k, n - 1)});
    if k[..n - 1] in db1 {
      db' := db1;
      ShrunkOnce(db, db1, k, n);
    } else {
      ShrunkByZRem(db, db1, k, n);
      db' := UnlinkUpRemoves(db1, k, n - 1);
      ShrunkTwice(db, db1, db', k, n);
    }
  }

  lemma UnlinkUpIdle(db: Db, k: Path)
    requires |k| >= 1 && NoEmptySet(db)
    ensures UnlinkUp(Conn(db, Unlimited), k[..1], 1 < |k|) == Ok(Conn(db, Unlimited), true)
    ensures Shrunk(db, db, k, 1)
  {}

  lemma {:induction false} UnlinkUpBlocked(db: Db, k: Path, n: nat, s: nat)
    requires 1 <= s < n <= |k| && IsStr(db, k[..s]) && NoEmptySet(db)
    requires forall i :: s < i < n ==> Members(db, k[..i]) == {}
    ensures UnlinkUp(Conn(db, Unlimited), k[..n], n < |k|).Fail?
    decreases n
  {
    assert Parent(k[..n]) == k[..n - 1];
    if s < n - 1 && !IsStr(db, k[..n - 1]) {
      var db1 := ZRem(Conn(db, Unlimited), k[..n - 1], Base(k[..n], n < |k|)).conn.db;
      assert forall i :: 1 <= i < n - 1 ==> k[..i] != k[..n - 1];
      UnlinkUpBlocked(db1, k, n - 1, s);
    }
  }

  lemma NeededAfterDelete(db: Db, db2: Db, k: Path, d: Path, m: Member)
    requires forall p :: IsStored(db2, p) <==> IsStored(db, p) && p != k
    ensures Needed(db2, d, m) ==> Needed(db, d, m)
    ensures Needed(db, d, m) && !Needed(db2, d, m) ==> IsStored(db, k) && Under(d, k) && LinkAt(k, |d|) == m
  {}

  /** A link the climb removes is needed by no stored key other than `k`, and a link of
      `k` it leaves behind is needed by another one. */
  lemma DeadLinkNotNeeded(db: Db, root: Path, k: Path, d: Path)
    requires Consistent(db, root) && Below(root, d) && Under(d, k)
    requires forall p :: IsStored(db, p) ==> !Under(k, p)
    ensures Empties(db, k, |d|, |k|) ==>
      forall p :: IsStored(db, p) && Under(d, p) && LinkAt(p, |d|) == LinkAt(k, |d|) ==> p == k
    ensures IsStored(db, k) && !Empties(db, k, |d|, |k|) ==>
      exists p :: IsStored(db, p) && p != k && Under(d, p) && LinkAt(p, |d|) == LinkAt(k, |d|)
  {
    BelowUnder(root, d, k);
    if Empties(db, k, |d|, |k|) {
      forall p | IsStored(db, p) && Under(d, p) && LinkAt(p, |d|) == LinkAt(k, |d|) ensures p == k {
        BelowUnder(root, d, p);
        SharedLinksMeet(db, root, k, p, |d| + 1);
      }
    } else if IsStored(db, k) {
      var j :| |d| < j < |k| && !(Members(db, k[..j]) <= {LinkAt(k, j)});
      var m :| m in Members(db, k[..j]) && m != LinkAt(k, j);
      BelowPrefix(root, k, j);
      assert Needed(db, k[..j], m);
      var p :| IsStored(db, p) && Under(k[..j], p) && LinkAt(p, j) == m;
      assert p[..|d|] == p[..j][..|d|] == k[..|d|] && p[|d|] == p[..j][|d|];
      assert Under(d, p) && LinkAt(p, |d|) == LinkAt(k, |d|);
    }
  }

  /** Two keys that share their first `n` segments, where `k` is alone in every
      directory from level `n` on, are the same key. */
  lemma {:induction false} SharedLinksMeet(db: Db, root: Path, k: Path, p: Path, n: nat)
    requires Consistent(db, root) && IsStored(db, p) && Below(root, p)
    requires |root| <= n <= |k| && n <= |p| && p[..n] == k[..n]
    requires n == |k| ==> n == |p|
    requires n == |p| ==> n == |k|
    requires forall j :: n <= j < |k| ==> Members(db, k[..j]) <= {LinkAt(k, j)}
    ensures p == k
    decreases |k| - n
  {
    if n == |k| { assert p == p[..n] && k == k[..n]; }
    else {
      assert p[..n + 1] == p[..n] + [p[n]];
      assert k[..n + 1] == k[..n] + [k[n]];
      StoredIsLinked(db, root, p, n);
      assert LinkAt(p, n) in Members(db, k[..n]);
      SharedLinksMeet(db, root, k, p, n + 1);
    }
  }

  /** Delete of a key that is no directory and has no string above it: the key leaves the
      stored keys, the index below the root stays exact, nothing else changes.  The key may
      be absent. */
  lemma DeleteExact(db: Db, root: Path, k: Path)
    requires Consistent(db, root) && Below(root, k) && !Conflict(db, k)
    ensures var r := Delete(Conn(db, Unlimited), k);
      && r.Ok? && r.conn.budget.Unlimited? && Consistent(r.conn.db, root) && OutsideKept(db, r.conn.db, root)
      && (forall p :: StrAt(r.conn.db, p) == if p == k then None else StrAt(db, p))
  {
    hide UnlinkUp, Consistent, Conflict, Clear, UpClosed, Shrunk;
    ConsistentIsClear(db, root, k);
    assert k[..|k|] == k;
    var db1 := UnlinkUpRemoves(db, k, |k|);
    DeleteIsExact(db, db1, root, k);
  }

  lemma DeleteIsExact(db: Db, db1: Db, root: Path, k: Path)
    requires Consistent(db, root) && Below(root, k) && !Conflict(db, k) && Shrunk(db, db1, k, |k|)
    ensures var db2 := db1 - {k};
      && Consistent(db2, root) && OutsideKept(db, db2, root)
      && (forall p :: StrAt(db2, p) == if p == k then None else StrAt(db, p))
  {
    hide Empties;
    var db2 := db1 - {k};
    forall p ensures StrAt(db2, p) == if p == k then None else StrAt(db, p) {
      assert StrAt(db1, p) == StrAt(db, p);
    }
    StringViews(db, db2);
    assert Members(db1, k) == {} by {
      NoSetWithoutStored(db, root, k);
      assert forall m :: m in Members(db1, k) ==> m in Members(db, k);
    }
    assert forall d :: Members(db2, d) == Members(db1, d);
    forall i | 1 <= i < |root| ensures !IsStr(db2, root[..i]) { assert !IsStr(db, root[..i]); }
    forall d, m ensures m in Members(db, d) && !Below(root, d) && !LeadsToRoot(root, d, m) ==> m in Members(db2, d) {
      if IsLink(k, 1, |k|, d, m) { OwnLinkIsInside(root, k, d, m); }
    }
    forall d, m | Below(root, d) ensures m in Members(db2, d) <==> Needed(db2, d, m) {
      NeededAfterDelete(db, db2, k, d, m);
      assert m in Members(db1, d) <==> m in Members(db, d) && !IsDead(db, k, |k|, d, m);
      if Under(d, k) { DeadLinkNotNeeded(db, root, k, d); }
    }
  }

  /** Exactly when Delete keeps its promise.  Deleting a directory name destroys the set
      of its children (DEL does not look at the type), and a string above the key makes
      ZREM fail. */
  lemma DeleteExactIff(db: Db, root: Path, k: Path)
    requires Consistent(db, root) && Below(root, k)
    ensures var r := Delete(Conn(db, Unlimited), k);
      (r.Ok? && Consistent(r.conn.db, root)) <==> !Conflict(db, k)
  {
    assert k[..|k|] == k;
    if p :| p != [] && IsStr(db, p) && Under(p, k) {
      StringAboveIsOwn(db, root, p, k);
      forall i | |p| < i < |k| ensures Members(db, k[..i]) == {} { NoSetBelowString(db, root, p, k, i); }
      UnlinkUpBlocked(db, k, |k|, |p|);
    } else if p :| IsStored(db, p) && Under(k, p) {
      forall i | 1 <= i < |k| ensures !IsStr(db, k[..i]) { assert Under(k[..i], k); }
      var db1 := UnlinkUpRemoves(db, k, |k|);
      assert StrAt(db1, p) == StrAt(db, p);
      assert IsStored(db1 - {k}, p);
      assert Needed(db1 - {k}, k, LinkAt(p, |k|));
    } else {
      DeleteExact(db, root, k);
    }
  }
}
