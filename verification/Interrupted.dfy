/** withReconnectOnClosed (reconnect.go) re-runs an operation whose client was closed
    between two of its commands.  Delete survives every cut; Store survives exactly the
    cuts before its first and after its last new link. */
module Interrupted {
  import opened Common
  import opened Redis
  import opened DirectoryIndex

  // ----- Delete -----

  lemma {:induction false} UnlinkUpFrame(c: Conn, p: Path, isDir: bool, q: Path)
    requires |q| >= |p|
    ensures var db := UnlinkUp(c, p, isDir).conn.db; (q in db <==> q in c.db) && (q in db ==> db[q] == c.db[q])
    decreases |p|
  {
    if |p| > 1 {
      var r := ZRem(c, Parent(p), Base(p, isDir));
      if r.Ok? {
        var e := Exists(r.conn, Parent(p));
        if e.Ok? && !e.hit { UnlinkUpFrame(e.conn, Parent(p), true, q); }
      }
    }
  }

  /** Running the climb again after any prefix of its commands ends like one run. */
  lemma {:induction false} UnlinkUpResumes(db: Db, budget: Budget, p: Path, isDir: bool)
    ensures var cut := UnlinkUp(Conn(db, budget), p, isDir);
      UnlinkUp(Conn(cut.conn.db, Unlimited), p, isDir) == UnlinkUp(Conn(db, Unlimited), p, isDir)
    decreases |p|
  {
    if |p| > 1 && budget != Left(0) && !IsStr(db, Parent(p)) {
      var q, m := Parent(p), Base(p, isDir);
      var db1 := ZRem(Conn(db, budget), q, m).conn.db;
      ZRemTwice(db, q, m);
      if Spend(budget) != Left(0) && q !in db1 {
        var b := Spend(Spend(budget));
        UnlinkUpResumes(db1, b, q, true);
        UnlinkUpFrame(Conn(db1, b), q, true, q);
        var db2 := UnlinkUp(Conn(db1, b), q, true).conn.db;
        assert db2 - {q} == db2;
        assert WithMembers(db2, q, Members(db2, q) - {m}) == db2;
      }
    }
  }

  lemma ZRemTwice(db: Db, q: Path, m: Member)
    requires !IsStr(db, q)
    ensures var db1 := WithMembers(db, q, Members(db, q) - {m});
      !IsStr(db1, q) && WithMembers(db1, q, Members(db1, q) - {m}) == db1
  {
    var ms := Members(db, q) - {m};
    assert ms - {m} == ms;
    var db1 := WithMembers(db, q, ms);
    assert Members(db1, q) == ms;
    if ms == {} { assert db1 - {q} == db1; }
  }

  /** A Delete cut off before any one of its commands and re-run ends in the same database
      and with the same answer as one uninterrupted Delete, from every database. */
  lemma DeleteSurvivesEveryCut(db: Db, k: Path, commands: nat)
    ensures var cut := Delete(Conn(db, Left(commands)), k);
      cut.Fail? ==> Delete(Conn(cut.conn.db, Unlimited), k) == Delete(Conn(db, Unlimited), k)
  {
    UnlinkUpResumes(db, Left(commands), k, false);
  }

  // ----- Store -----

  /** What a Store leaves when it is cut off after `commands` commands and run again. */
  function Rerun(db: Db, k: Path, v: Value, commands: nat): Reply {
    Store(Conn(Store(Conn(db, Left(commands)), k, v).conn.db, Unlimited), k, v)
  }

  /** A link that was added stops the re-run at its first command. */
  lemma RerunStopsAtOnce(cut: Db, k: Path, v: Value)
    requires NoEmptySet(cut) && |k| >= 2 && Clear(cut, k, |k|)
    requires Linked(cut, k, |k| - 1)
    ensures Store(Conn(cut, Unlimited), k, v) == Ok(Conn(cut[k := Str(v)], Unlimited), true)
  {
    assert k[..|k|] == k;
    LinkUpCut(cut, Unlimited, k, |k|);
    LinkUpOutcome(cut, Unlimited, k, |k|);
    assert Grown(cut, cut, k, |k|, |k|);
    GrownSame(cut, cut, LinkUp(Conn(cut, Unlimited), k, false, false).conn.db, k, |k|, |k|);
  }

  lemma RerunKeepsCut(db: Db, k: Path, v: Value, commands: nat)
    requires NoEmptySet(db) && |k| >= 1 && Clear(db, k, |k|)
    requires Store(Conn(db, Left(commands)), k, v).Fail?
    ensures var cut := LinkUp(Conn(db, Left(commands)), k, false, false).conn.db;
      var added := Min(commands, NewLinks(db, k, |k|));
      && Grown(db, cut, k, |k| - added, |k|)
      && Rerun(db, k, v, commands) == if added == 0 then Store(Conn(db, Unlimited), k, v)
                                      else Ok(Conn(cut[k := Str(v)], Unlimited), true)
  {
    assert k[..|k|] == k;
    LinkUpCut(db, Left(commands), k, |k|);
    LinkUpOutcome(db, Left(commands), k, |k|);
    var cut := LinkUp(Conn(db, Left(commands)), k, false, false).conn.db;
    assert Store(Conn(db, Left(commands)), k, v).conn.db == cut;
    var added := Min(commands, NewLinks(db, k, |k|));
    if added == 0 {
      assert Grown(db, db, k, |k|, |k|);
      GrownSame(db, db, cut, k, |k|, |k|);
    } else {
      forall i | 1 <= i < |k| ensures !IsStr(cut, k[..i]) { GrownLinks(db, cut, k, |k| - added, |k|, i); }
      GrownLinks(db, cut, k, |k| - added, |k|, |k| - 1);
      RerunStopsAtOnce(cut, k, v);
    }
  }

  /** Which links of `k` a cut climb leaves, where the links were closed upward before. */
  lemma CutLinks(db: Db, cut: Db, k: Path, lo: nat, added: nat, i: nat)
    requires 1 <= lo <= i < |k| && UpClosed(db, k, lo) && added <= NewLinks(db, k, |k|)
    requires Grown(db, cut, k, |k| - added, |k|)
    ensures Linked(cut, k, i) <==> i < |k| - NewLinks(db, k, |k|) || i >= |k| - added
  {
    GrownLinks(db, cut, k, |k| - added, |k|, i);
    if i >= |k| - NewLinks(db, k, |k|) { NewLinksAreMissing(db, k, |k|, i); }
    else { NewLinksStop(db, k, |k|); assert Linked(db, k, i); }
  }

  /** A Store cut off after `commands` commands and re-run ends like one uninterrupted
      Store if and only if the cut fell before its first new link or after its last.
      Otherwise the value loads, but the links above the cut stay missing: no directory
      above the cut lists the key. */
  lemma StoreSurvivesCutIff(db: Db, root: Path, k: Path, bytes: string, commands: nat)
    requires Consistent(db, root) && Below(root, k) && !Conflict(db, k)
    requires Store(Conn(db, Left(commands)), k, Record(bytes)).Fail?
    ensures var v, added := Record(bytes), NewLinks(db, k, |k|);
      var rerun := Rerun(db, k, v, commands);
      && rerun.Ok? && StrAt(rerun.conn.db, k) == Some(v)
      && (rerun == Store(Conn(db, Unlimited), k, v) <==> commands == 0 || commands >= added)
      && (0 < commands < added ==> forall i :: |root| <= i < |k| ==>
            (Linked(rerun.conn.db, k, i) <==> i < |k| - added || i >= |k| - commands))
  {
    hide LinkUp, Grown, NoEmptySet, Consistent, Conflict, Clear, UpClosed, NewLinks, Linked;
    var v, a := Record(bytes), NewLinks(db, k, |k|);
    ConsistentIsClear(db, root, k);
    assert k[..|k|] == k;
    RerunKeepsCut(db, k, v, commands);
    var cut := LinkUp(Conn(db, Left(commands)), k, false, false).conn.db;
    LinkUpCut(db, Unlimited, k, |k|);
    LinkUpOutcome(db, Unlimited, k, |k|);
    var full := LinkUp(Conn(db, Unlimited), k, false, false).conn.db;
    if commands >= a > 0 {
      GrownSame(db, full, cut, k, |k| - a, |k|);
    } else if 0 < commands < a {
      LateCutLosesLinks(db, cut, full, k, |root|, Str(v), commands);
    }
  }

  lemma LateCutLosesLinks(db: Db, cut: Db, full: Db, k: Path, lo: nat, e: Entry, commands: nat)
    requires 1 <= lo <= |k| && UpClosed(db, k, lo) && 0 < commands < NewLinks(db, k, |k|)
    requires Grown(db, cut, k, |k| - commands, |k|) && Grown(db, full, k, |k| - NewLinks(db, k, |k|), |k|)
    ensures var rerun := cut[k := e];
      rerun != full[k := e] && forall i :: lo <= i < |k| ==>
        (Linked(rerun, k, i) <==> i < |k| - NewLinks(db, k, |k|) || i >= |k| - commands)
  {
    var a, rerun, whole := NewLinks(db, k, |k|), cut[k := e], full[k := e];
    forall i | lo <= i < |k| ensures Linked(rerun, k, i) <==> i < |k| - a || i >= |k| - commands {
      CutLinks(db, cut, k, lo, commands, i);
      assert k[..i] != k;
    }
    var top := |k| - a;
    GrownLinks(db, cut, k, |k| - commands, |k|, top);
    GrownLinks(db, full, k, top, |k|, top);
    NewLinksAreMissing(db, k, |k|, top);
    assert k[..top] != k;
    assert Linked(whole, k, top) && !Linked(rerun, k, top);
  }

  /** An input at which the re-run differs: a cut after the first of three new links. */
  lemma LateCutExample(bytes: string)
    ensures var k: Path := ["caddy", "a", "b", "x"];
            var rerun := Rerun(map[], k, Record(bytes), 1);
            && rerun.Ok? && rerun != Store(Conn(map[], Unlimited), k, Record(bytes))
            && !Linked(rerun.conn.db, k, 1) && !Linked(rerun.conn.db, k, 2)
  {
    hide LinkUp, Store, Rerun, Linked, Consistent, Conflict, NewLinks;
    var k: Path := ["caddy", "a", "b", "x"];
    assert k[..1] == ["caddy"];
    LateCutSetup(k[..1], k, bytes);
    StoreSurvivesCutIff(map[], k[..1], k, bytes, 1);
  }

  /** With too few commands for its new links a Store is cut off. */
  lemma LateCutFails(db: Db, root: Path, k: Path, v: Value, commands: nat)
    requires Consistent(db, root) && Below(root, k) && !Conflict(db, k) && commands < NewLinks(db, k, |k|)
    ensures Store(Conn(db, Left(commands)), k, v).Fail?
  {
    hide LinkUp, Consistent, Conflict;
    ConsistentIsClear(db, root, k);
    assert k[..|k|] == k;
    LinkUpOutcome(db, Left(commands), k, |k|);
  }

  /** From the empty database, every link of a key is new. */
  lemma LateCutSetup(root: Path, k: Path, bytes: string)
    requires |k| >= 3 && |root| >= 1 && Below(root, k)
    ensures Consistent(map[], root) && !Conflict(map[], k) && NewLinks(map[], k, |k|) == |k| - 1
    ensures Store(Conn(map[], Left(1)), k, Record(bytes)).Fail?
    ensures forall p :: StrAt(map[], p) == None
  {
    LinksOfEmpty(k, |k|);
    LateCutFails(map[], root, k, Record(bytes), 1);
  }

  lemma {:induction false} LinksOfEmpty(k: Path, n: nat)
    requires 1 <= n <= |k|
    ensures NewLinks(map[], k, n) == n - 1
  {
    if n > 1 { LinksOfEmpty(k, n - 1); }
  }

  // ----- what a Store leaves for its caller -----

  /** Store as the caller sees it when Redis can be reached again: run once, and once more
      if the client was closed under it. */
  function StoreWithReconnect(db: Db, budget: Budget, k: Path, v: Value): Reply {
    var first := Store(Conn(db, budget), k, v);
    if first.Fail? && first.error.Closed? then Store(Conn(first.conn.db, Unlimited), k, v) else first
  }

  /** How many of the new links of `k` lie at the root or below it. */
  function NewLinksIn(db: Db, root: Path, k: Path): nat
    requires |root| <= |k|
  {
    Min(NewLinks(db, k, |k|), |k| - |root|)
  }

  /** The cut fell after the first new link and before the last one below the root. */
  predicate LateCut(db: Db, budget: Budget, root: Path, k: Path)
    requires |root| <= |k|
  {
    budget.Left? && 0 < budget.commands < NewLinksIn(db, root, k)
  }

  /** The call always succeeds and changes this one value and nothing outside the root; the
      index is exact afterwards if and only if the client was not closed between two new
      links. */
  lemma StoreWithReconnectIff(db: Db, budget: Budget, root: Path, k: Path, bytes: string)
    requires Consistent(db, root) && Below(root, k) && !Conflict(db, k)
    ensures var r := StoreWithReconnect(db, budget, k, Record(bytes));
            && r.Ok? && OutsideKept(db, r.conn.db, root)
            && (forall p :: StrAt(r.conn.db, p) == if p == k then Some(Record(bytes)) else StrAt(db, p))
            && (Consistent(r.conn.db, root) <==> !LateCut(db, budget, root, k))
  {
    hide Store, LinkUp, Grown, Consistent, Conflict, Clear, UpClosed, NewLinks, Linked, OutsideKept;
    var v := Record(bytes);
    StoreExact(db, root, k, bytes);
    StoreOutcome(db, root, budget, k, v);
    if budget.Left? && Store(Conn(db, budget), k, v).Fail? {
      RerunOutcome(db, root, k, bytes, budget.commands);
    }
  }

  /** A Store fails only through a closed client, and one that succeeds is a whole one. */
  lemma StoreOutcome(db: Db, root: Path, budget: Budget, k: Path, v: Value)
    requires Consistent(db, root) && Below(root, k) && !Conflict(db, k)
    ensures var r := Store(Conn(db, budget), k, v);
            && (r.Fail? ==> r.error == Closed && budget.Left?)
            && (r.Ok? ==> r.conn.db == Store(Conn(db, Unlimited), k, v).conn.db && !LateCut(db, budget, root, k))
  {
    hide LinkUp, Grown, Consistent, Conflict, Clear, UpClosed, NewLinks, Linked;
    assert k[..|k|] == k;
    ConsistentIsClear(db, root, k);
    LinkUpOutcome(db, budget, k, |k|);
    LinkUpOutcome(db, Unlimited, k, |k|);
    LinkUpCut(db, budget, k, |k|);
    LinkUpCut(db, Unlimited, k, |k|);
    var r, whole := LinkUp(Conn(db, budget), k, false, false), LinkUp(Conn(db, Unlimited), k, false, false);
    if r.Ok? { GrownSame(db, r.conn.db, whole.conn.db, k, |k| - NewLinks(db, k, |k|), |k|); }
  }

  lemma RerunOutcome(db: Db, root: Path, k: Path, bytes: string, commands: nat)
    requires Consistent(db, root) && Below(root, k) && !Conflict(db, k)
    requires Store(Conn(db, Left(commands)), k, Record(bytes)).Fail?
    ensures var r := Rerun(db, k, Record(bytes), commands);
            && r.Ok? && OutsideKept(db, r.conn.db, root)
            && (forall p :: StrAt(r.conn.db, p) == if p == k then Some(Record(bytes)) else StrAt(db, p))
            && (Consistent(r.conn.db, root) <==> !LateCut(db, Left(commands), root, k))
  {
    hide Store, LinkUp, Grown, Consistent, Conflict, Clear, UpClosed, NewLinks, Linked, OutsideKept, GrownDownFrom;
    var v := Record(bytes);
    ConsistentIsClear(db, root, k);
    StoreExact(db, root, k, bytes);
    RerunKeepsCut(db, k, v, commands);
    var added := Min(commands, NewLinks(db, k, |k|));
    var cut := LinkUp(Conn(db, Left(commands)), k, false, false).conn.db;
    if added > 0 {
      CutKeepsRest(db, cut, root, k, v, added);
      if LateCut(db, Left(commands), root, k) {
        LateCutIsInexact(db, root, k, bytes, commands);
      } else {
        FullCut(db, cut, root, k, added);
        StoreIsExact(db, cut, root, k, v);
      }
    }
  }

  lemma CutKeepsRest(db: Db, cut: Db, root: Path, k: Path, v: Value, added: nat)
    requires |root| >= 1 && Below(root, k) && added < |k| && Grown(db, cut, k, |k| - added, |k|)
    requires Consistent(db, root) && !Conflict(db, k)
    ensures OutsideKept(db, cut[k := Str(v)], root)
    ensures forall p :: StrAt(cut[k := Str(v)], p) == if p == k then Some(v) else StrAt(db, p)
  {
    var r := cut[k := Str(v)];
    forall p ensures StrAt(r, p) == if p == k then Some(v) else StrAt(db, p) { assert StrAt(cut, p) == StrAt(db, p); }
    forall d, m | !Below(root, d) && !LeadsToRoot(root, d, m) ensures m in Members(r, d) <==> m in Members(db, d) {
      assert m in Members(cut, d) <==> m in Members(db, d) || IsLink(k, |k| - added, |k|, d, m);
      if IsLink(k, 1, |k|, d, m) { OwnLinkIsInside(root, k, d, m); }
    }
  }

  /** A climb that added all new links below the root left all links below the root. */
  lemma FullCut(db: Db, cut: Db, root: Path, k: Path, added: nat)
    requires |root| >= 1 && Below(root, k) && UpClosed(db, k, |root|)
    requires NewLinksIn(db, root, k) <= added <= NewLinks(db, k, |k|) && Grown(db, cut, k, |k| - added, |k|)
    ensures GrownDownFrom(db, cut, k, |root|)
  {
    forall d, m | IsLink(k, |root|, |k|, d, m) ensures m in Members(cut, d) {
      CutLinks(db, cut, k, |root|, added, |d|);
      assert Linked(cut, k, |d|);
    }
    assert forall d, m :: IsLink(k, |k| - added, |k|, d, m) ==> IsLink(k, 1, |k|, d, m);
  }

  lemma LateCutIsInexact(db: Db, root: Path, k: Path, bytes: string, commands: nat)
    requires Consistent(db, root) && Below(root, k) && !Conflict(db, k) && 0 < commands < NewLinksIn(db, root, k)
    requires Store(Conn(db, Left(commands)), k, Record(bytes)).Fail?
    ensures !Consistent(Rerun(db, k, Record(bytes), commands).conn.db, root)
  {
    hide LinkUp, Consistent, Conflict, Clear, UpClosed, NewLinks, Linked, Store;
    var db1, n := Rerun(db, k, Record(bytes), commands).conn.db, |k| - commands - 1;
    StoreSurvivesCutIff(db, root, k, bytes, commands);
    assert !Linked(db1, k, n);
    if Consistent(db1, root) { StoredIsLinked(db1, root, k, n); }
  }

  // ----- Delete against Store -----

  /** A Store that runs between the EXISTS and the parent ZREM of a Delete loses its
      directory link: the new value is stored, its directory is not linked. */
  lemma DeleteStoreRace()
    ensures
      var x, y: Path := ["caddy", "a", "x"], ["caddy", "a", "y"];
      var start := Store(Conn(map[], Unlimited), x, Record("old")).conn.db;
      var half := Delete(Conn(start, Left(2)), x).conn.db;
      var stored := Store(Conn(half, Unlimited), y, Record("new"));
      var rest := UnlinkUp(stored.conn, Parent(x), true);
      var end_ := Del(rest.conn, x);
      && stored.Ok? && rest.Ok? && end_.Ok?
      && IsStored(end_.conn.db, y) && !Linked(end_.conn.db, y, 1)
  {
    hide Store, Delete, UnlinkUp, LinkUp;
    RaceStart();
    RaceEnd();
  }

  lemma RaceStart()
    ensures
      var x, a, root: Path := ["caddy", "a", "x"], ["caddy", "a"], ["caddy"];
      var start: Db := map[root := ZSet({Dir("a")}), a := ZSet({File("x")}), x := Str(Record("old"))];
      && Store(Conn(map[], Unlimited), x, Record("old")) == Ok(Conn(start, Unlimited), true)
      && Delete(Conn(start, Left(2)), x).conn.db == map[root := ZSet({Dir("a")}), x := Str(Record("old"))]
  {
    var x, a, root: Path := ["caddy", "a", "x"], ["caddy", "a"], ["caddy"];
    assert Parent(x) == a && Parent(a) == root;
    var e1: Db := map[a := ZSet({File("x")})];
    assert Members(map[], a) + {File("x")} == {File("x")} && Members(e1, root) + {Dir("a")} == {Dir("a")};
    assert ZAdd(Conn(map[], Unlimited), a, File("x")) == Ok(Conn(e1, Unlimited), true);
    assert LinkUp(Conn(e1, Unlimited), a, true, false) == Ok(Conn(e1[root := ZSet({Dir("a")})], Unlimited), true);
  }

  lemma RaceEnd()
    ensures
      var x, y, a, root: Path := ["caddy", "a", "x"], ["caddy", "a", "y"], ["caddy", "a"], ["caddy"];
      var half: Db := map[root := ZSet({Dir("a")}), x := Str(Record("old"))];
      var stored := half[a := ZSet({File("y")})][y := Str(Record("new"))];
      && Store(Conn(half, Unlimited), y, Record("new")) == Ok(Conn(stored, Unlimited), true)
      && UnlinkUp(Conn(stored, Unlimited), Parent(x), true) == Ok(Conn(stored - {root}, Unlimited), true)
      && y[..1] == root
  {
    var x, y, a, root: Path := ["caddy", "a", "x"], ["caddy", "a", "y"], ["caddy", "a"], ["caddy"];
    assert Parent(x) == a && Parent(y) == a && Parent(a) == root;
    var half: Db := map[root := ZSet({Dir("a")}), x := Str(Record("old"))];
    var linked := half[a := ZSet({File("y")})];
    assert Members(half, a) + {File("y")} == {File("y")} && Members(linked, root) + {Dir("a")} == {Dir("a")};
    assert linked[root := ZSet({Dir("a")})] == linked;
    assert ZAdd(Conn(half, Unlimited), a, File("y")) == Ok(Conn(linked, Unlimited), true);
    assert LinkUp(Conn(linked, Unlimited), a, true, false) == Ok(Conn(linked, Unlimited), true);
    var stored := linked[y := Str(Record("new"))];
    assert Members(stored, root) - {Dir("a")} == {};
  }
}
