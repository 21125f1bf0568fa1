/** The loops of Repair, step by step: the scan adds the links of one key after the other,
    the walk handles one directory entry after the other. */
module RepairWalk {
  import opened Redis
  import opened DirectoryIndex
  import opened Sequential
  import opened Repair
  import Paths

  // ----- the scan -----

  /** The key that the scan loads for a key that SCAN returned: the own prefix is cut off, as
      far as it is there, and put in front again. */
  function LookUp(root: Path, key: Path): Path {
    Paths.Split(Paths.PrefixKey(Paths.Render(root), Paths.TrimKey(Paths.Render(root), Paths.Render(key))))
  }

  /** The scan re-creates the links of `key`. */
  predicate Relinks(db: Db, root: Path, key: Path) {
    IsStr(db, key) && IsStored(db, LookUp(root, key))
  }

  /** For a key below the prefix the scan loads that very key. */
  lemma OwnKeyIsLookedUp(root: Path, key: Path)
    requires Paths.IsClean(root) && Paths.IsClean(key) && root != [] && Below(root, key)
    ensures LookUp(root, key) == key
  {
    var rest := key[|root|..];
    assert key == root + rest;
    Paths.PrefixRoundTrip(root, rest);
    Paths.SplitRender(key);
  }

  /** A key of another prefix passes through no directory below the root. */
  lemma OtherKeyLinksElsewhere(root: Path, key: Path, d: Path, m: Member)
    requires !Below(root, key) && Below(root, d)
    ensures !IsLink(key, 1, |key|, d, m)
  {
    assert |d| <= |key| ==> key[..|d|][..|root|] == key[..|root|];
  }

  /** The links of the keys in `done` have been added, and no others. */
  ghost predicate RebuiltFor(a: Db, b: Db, done: set<Path>) {
    && NoEmptySet(b) && SameStrings(b, a)
    && (forall d, m :: m in Members(b, d) <==> m in Members(a, d) || LinkOfDone(done, d, m))
  }

  ghost predicate LinkOfDone(done: set<Path>, d: Path, m: Member) {
    exists k :: k in done && IsLink(k, 1, |k|, d, m)
  }

  /** The keys that SCAN returned and the scan linked: among those below the root, all stored
      ones and no others.  The order and repetitions are free, and so are further keys that
      are not below the root. */
  ghost predicate ScanCovers(db: Db, root: Path, done: set<Path>) {
    && (forall k :: k in done && Below(root, k) ==> IsStored(db, k))
    && (forall k :: IsStored(db, k) && Under(root, k) ==> k in done)
  }

  lemma ScanStarts(a: Db, root: Path)
    ensures SameStrings(a, a) && (Repairable(a, root) ==> RebuiltFor(a, a, {}))
  {}

  lemma ScanAdds(a: Db, b: Db, c: Db, done: set<Path>, k: Path)
    requires RebuiltFor(a, b, done) && Grown(b, c, k, 1, |k|)
    ensures RebuiltFor(a, c, done + {k})
  {
    forall p ensures StrAt(c, p) == StrAt(a, p) { assert StrAt(c, p) == StrAt(b, p); }
    forall d, m ensures m in Members(c, d) <==> m in Members(a, d) || LinkOfDone(done + {k}, d, m) {
      assert m in Members(c, d) <==> m in Members(b, d) || IsLink(k, 1, |k|, d, m);
      assert LinkOfDone(done + {k}, d, m) <==> LinkOfDone(done, d, m) || IsLink(k, 1, |k|, d, m) by {
        assert k in done + {k};
      }
    }
  }

  lemma StoredIsClear(a: Db, root: Path, k: Path)
    requires Repairable(a, root) && IsStored(a, k) && Below(root, k)
    ensures |k| >= 1 && Clear(a, k, |k|)
  {
    assert k != root;
    forall i | 1 <= i < |k| ensures !IsStr(a, k[..i]) { assert Under(k[..i], k); }
  }

  lemma ClearStays(a: Db, b: Db, k: Path)
    requires SameStrings(b, a) && Clear(a, k, |k|)
    ensures Clear(b, k, |k|)
  {
    forall i | 1 <= i < |k| ensures !IsStr(b, k[..i]) { assert StrAt(b, k[..i]) == StrAt(a, k[..i]); }
  }

  /** Whatever keys of other prefixes the scan meets, below the root it is the rebuild. */
  lemma ScanDone(a: Db, b: Db, done: set<Path>, root: Path)
    requires Repairable(a, root) && RebuiltFor(a, b, done) && ScanCovers(a, root, done)
    ensures Rebuilt(a, b, root)
  {
    forall d, m | NeededFor(a, root, d, m) ensures LinkOfDone(done, d, m) {
      var k :| IsStored(a, k) && Under(root, k) && IsLink(k, 1, |k|, d, m);
    }
    forall d, m | Below(root, d) && LinkOfDone(done, d, m) ensures NeededFor(a, root, d, m) {
      var k :| k in done && IsLink(k, 1, |k|, d, m);
      if !Below(root, k) { OtherKeyLinksElsewhere(root, k, d, m); }
      assert k != root && Under(root, k);
    }
  }

  /** No climb ever changes a string. */
  lemma {:induction false} LinkUpKeepsStrings(c: Conn, p: Path, isDir: bool, repair: bool)
    ensures SameStrings(LinkUp(c, p, isDir, repair).conn.db, c.db)
    decreases |p|
  {
    if |p| > 1 {
      var z := ZAdd(c, Parent(p), Base(p, isDir));
      if z.Ok? && (z.hit || repair) {
        LinkUpKeepsStrings(z.conn, Parent(p), true, repair);
        StringsTrans(LinkUp(z.conn, Parent(p), true, repair).conn.db, z.conn.db, c.db);
      }
    }
  }

  lemma StringsTrans(a: Db, b: Db, c: Db)
    requires SameStrings(a, b) && SameStrings(b, c)
    ensures SameStrings(a, c)
  {
    forall p ensures StrAt(a, p) == StrAt(c, p) { assert StrAt(a, p) == StrAt(b, p); }
  }

  // ----- the walk on any database -----

  /** No chain of directory links from `d` leads to a string. */
  ghost predicate NoStringReached(db: Db, d: Path) {
    forall p :: Reached(db, d, p) ==> !IsStr(db, p)
  }

  lemma StringIsReached(db: Db, d: Path)
    requires IsStr(db, d)
    ensures !NoStringReached(db, d)
  {
    assert Reached(db, d, d);
  }

  lemma ReachedThrough(db: Db, d: Path, m: Member, p: Path)
    requires m.Dir? && m in Members(db, d) && Reached(db, Child(d, m), p)
    ensures Reached(db, d, p)
  {
    var c := Child(d, m);
    assert p[..|d|] == p[..|c|][..|d|] == d;
    forall i | |d| <= i < |p| ensures Dir(p[i]) in Members(db, p[..i]) {
      if i == |d| { assert p[i] == p[..|c|][i] == m.name; }
    }
  }

  lemma StringBelowIsReached(db: Db, d: Path, m: Member)
    requires m.Dir? && m in Members(db, d) && !NoStringReached(db, Child(d, m))
    ensures !NoStringReached(db, d)
  {
    var p :| Reached(db, Child(d, m), p) && IsStr(db, p);
    ReachedThrough(db, d, m, p);
  }

  lemma NoneReached(db: Db, d: Path, ms: seq<Member>)
    requires !IsStr(db, d) && forall m :: m in ms <==> m in Members(db, d)
    requires forall j :: 0 <= j < |ms| && ms[j].Dir? ==> NoStringReached(db, Child(d, ms[j]))
    ensures NoStringReached(db, d)
  {
    forall p | Reached(db, d, p) ensures !IsStr(db, p) {
      if |p| == |d| { assert p == d; }
      else {
        var m := Dir(p[|d|]);
        assert m in Members(db, p[..|d|]) && m in ms;
        var j :| 0 <= j < |ms| && ms[j] == m;
        assert p[..|d| + 1] == p[..|d|] + [p[|d|]] == Child(d, m);
        assert Reached(db, Child(d, ms[j]), p);
      }
    }
  }

  /** A walk from `cur` removes entries below `cur` and does nothing else. */
  ghost predicate Thinned(a: Db, b: Db, cur: Path) {
    && SameStrings(b, a)
    && (forall d, m :: m in Members(b, d) ==> m in Members(a, d))
    && (forall d, m :: !Below(cur, d) && m in Members(a, d) ==> m in Members(b, d))
  }

  /** In the middle of the walk: the trees below the entries not yet handled are intact. */
  ghost predicate ThinnedFor(a: Db, b: Db, cur: Path, done: set<Member>) {
    && Thinned(a, b, cur)
    && (forall d, m :: Under(cur, d) && Dir(d[|cur|]) !in done && m in Members(a, d) ==> m in Members(b, d))
  }

  lemma ThinnedStarts(a: Db, cur: Path)
    ensures ThinnedFor(a, a, cur, {})
  {}

  lemma ThinnedByRemoval(a: Db, b: Db, cur: Path, done: set<Member>, m: Member)
    requires ThinnedFor(a, b, cur, done) && !IsStr(b, cur)
    ensures ThinnedFor(a, WithMembers(b, cur, Members(b, cur) - {m}), cur, done + {m})
  {
    var c := WithMembers(b, cur, Members(b, cur) - {m});
    forall p ensures StrAt(c, p) == StrAt(a, p) { assert StrAt(b, p) == StrAt(a, p); }
    assert forall d :: d != cur ==> Members(c, d) == Members(b, d);
    assert !Under(cur, cur) && Below(cur, cur);
  }

  lemma ThinnedByWalk(a: Db, b: Db, c: Db, cur: Path, done: set<Member>, m: Member)
    requires ThinnedFor(a, b, cur, done) && m.Dir? && Thinned(b, c, Child(cur, m))
    ensures ThinnedFor(a, c, cur, done + {m})
  {
    forall p ensures StrAt(c, p) == StrAt(a, p) { assert StrAt(b, p) == StrAt(a, p); }
    forall d, x | !Below(cur, d) && x in Members(a, d) ensures x in Members(c, d) {
      if Below(Child(cur, m), d) { AboveChild(cur, m, d); }
    }
    forall d, x | Under(cur, d) && Dir(d[|cur|]) !in done + {m} && x in Members(a, d) ensures x in Members(c, d) {
      if Below(Child(cur, m), d) { AboveChild(cur, m, d); }
    }
  }

  lemma ThinnedByCheck(a: Db, b: Db, cur: Path, done: set<Member>, m: Member)
    requires ThinnedFor(a, b, cur, done)
    ensures ThinnedFor(a, b, cur, done + {m})
  {}

  /** The tree below an entry not yet handled reaches what it reached at the start. */
  lemma IntactReach(a: Db, b: Db, cur: Path, done: set<Member>, m: Member)
    requires ThinnedFor(a, b, cur, done) && m.Dir? && m !in done
    ensures NoStringReached(b, Child(cur, m)) <==> NoStringReached(a, Child(cur, m))
    ensures Child(cur, m) !in b ==> NoStringReached(a, Child(cur, m))
  {
    var e := Child(cur, m);
    forall p ensures Reached(a, e, p) <==> Reached(b, e, p) { IntactReached(a, b, cur, done, m, p); }
    forall p ensures IsStr(a, p) <==> IsStr(b, p) { assert StrAt(a, p) == StrAt(b, p); }
    if e !in b { MissingReachesNothing(b, e); }
  }

  lemma MissingReachesNothing(db: Db, e: Path)
    requires e !in db
    ensures NoStringReached(db, e)
  {
    forall p ensures Reached(db, e, p) ==> !IsStr(db, p) {
      if Below(e, p) {
        if |p| > |e| { assert Dir(p[|e|]) !in Members(db, p[..|e|]); } else { assert p[..|e|] == p; }
      }
    }
  }

  lemma ThinnedAt(a: Db, b: Db, cur: Path, done: set<Member>)
    requires ThinnedFor(a, b, cur, done)
    ensures Thinned(a, b, cur) && SameStrings(b, a) && StrAt(b, cur) == StrAt(a, cur)
  {}

  lemma IntactReached(a: Db, b: Db, cur: Path, done: set<Member>, m: Member, p: Path)
    requires ThinnedFor(a, b, cur, done) && m.Dir? && m !in done
    ensures Reached(a, Child(cur, m), p) <==> Reached(b, Child(cur, m), p)
  {
    var e := Child(cur, m);
    forall i, x | |e| <= i <= |p| && Below(e, p) ensures x in Members(a, p[..i]) <==> x in Members(b, p[..i]) {
      assert p[..i][..|e|] == p[..|e|];
      AboveChild(cur, m, p[..i]);
    }
  }

  // ----- the walk, where its outcome does not depend on the order of the entries -----

  /** Where a file and a directory entry share their name, that directory is empty; so no
      existence check depends on an earlier step of the walk. */
  ghost predicate Walkable(db: Db, cur: Path) {
    && NoEmptySet(db)
    && (forall d, name :: Reached(db, cur, d) && File(name) in Members(db, d) && Dir(name) in Members(db, d) ==>
                            Members(db, d + [name]) == {})
  }

  lemma RebuiltIsWalkable(a: Db, mid: Db, root: Path)
    requires Repairable(a, root) && Rebuilt(a, mid, root)
    ensures Walkable(mid, root) && NoStringReached(mid, root)
  {
    forall d, name | Reached(mid, root, d) && File(name) in Members(mid, d) && Dir(name) in Members(mid, d)
      ensures Members(mid, d + [name]) == {}
    {
      ReachedBelow(mid, root, d, File(name));
      RebuiltEntry(a, mid, root, d, File(name));
      RebuiltEntry(a, mid, root, d, Dir(name));
      assert StrAt(mid, d + [name]) == StrAt(a, d + [name]);
    }
    forall p | Reached(mid, root, p) ensures !IsStr(mid, p) {
      if p == root { assert StrAt(mid, root) == StrAt(a, root); }
      else { ReachedIsNoString(a, mid, root, p); }
    }
  }

  lemma ReachedIsNoString(a: Db, mid: Db, root: Path, p: Path)
    requires Repairable(a, root) && Rebuilt(a, mid, root) && Reached(mid, root, p) && p != root
    ensures !IsStr(mid, p)
  {
    var d, m := p[..|p| - 1], Dir(p[|p| - 1]);
    assert d[..|root|] == p[..|root|] && Child(d, m) == p;
    RebuiltEntry(a, mid, root, d, m);
  }

  /** With the entries `done` of `cur` handled, is entry `m` of directory `d` still there? */
  ghost predicate Keeps(a: Db, cur: Path, done: set<Member>, d: Path, m: Member) {
    if d == cur then m !in done || Child(d, m) in a
    else Under(cur, d) && Dir(d[|cur|]) in done && Reached(a, cur, d) ==> Child(d, m) in a
  }

  ghost predicate PrunedFor(a: Db, b: Db, cur: Path, done: set<Member>) {
    && NoEmptySet(b) && SameStrings(b, a)
    && (forall d, m :: m in Members(b, d) <==> m in Members(a, d) && Keeps(a, cur, done, d, m))
  }

  lemma WalkStarts(a: Db, cur: Path)
    requires Walkable(a, cur)
    ensures PrunedFor(a, a, cur, {})
  {}

  lemma WalkEnds(a: Db, b: Db, cur: Path, done: set<Member>)
    requires PrunedFor(a, b, cur, done) && done == Members(a, cur)
    ensures Pruned(a, b, cur)
  {
    forall d, m | m in Members(a, d) ensures Keeps(a, cur, done, d, m) <==> (Reached(a, cur, d) ==> Child(d, m) in a) {
      if d == cur { assert Reached(a, cur, cur); }
      else if Reached(a, cur, d) {
        assert Under(cur, d);
        assert Dir(d[|cur|]) in Members(a, d[..|cur|]);
      }
    }
  }

  /** Until the walk goes down into it, the tree below an entry is untouched. */
  lemma SubtreeUntouched(a: Db, b: Db, cur: Path, done: set<Member>, m: Member, p: Path)
    requires PrunedFor(a, b, cur, done) && NoEmptySet(a) && m.Dir? && m !in done && Below(Child(cur, m), p)
    ensures Members(b, p) == Members(a, p) && (p in b <==> p in a)
  {
    assert p[..|cur|] == p[..|cur| + 1][..|cur|] == cur && p[|cur|] == p[..|cur| + 1][|cur|] == m.name;
    assert forall x :: x in Members(b, p) <==> x in Members(a, p) && Keeps(a, cur, done, p, x);
    assert StrAt(b, p) == StrAt(a, p);
  }

  /** The existence check sees what was there before the walk. */
  lemma CheckSeesStart(a: Db, b: Db, cur: Path, done: set<Member>, m: Member)
    requires Walkable(a, cur) && PrunedFor(a, b, cur, done) && m in Members(a, cur) && m !in done
    ensures Child(cur, m) in b <==> Child(cur, m) in a
  {
    var c := Child(cur, m);
    if m.Dir? { assert c[..|cur| + 1] == c; SubtreeUntouched(a, b, cur, done, m, c); }
    else {
      assert Reached(a, cur, cur) && c[..|cur|] == cur && cur + [m.name] == c;
      assert StrAt(b, c) == StrAt(a, c);
      assert Reached(a, cur, c) ==> Dir(m.name) in Members(a, cur);
      assert forall x :: x in Members(b, c) <==> x in Members(a, c) && Keeps(a, cur, done, c, x);
      assert Members(b, c) == Members(a, c);
    }
  }

  /** An existing file entry is left alone. */
  lemma WalkKeepsFile(a: Db, b: Db, cur: Path, done: set<Member>, m: Member)
    requires PrunedFor(a, b, cur, done) && m.File? && Child(cur, m) in a
    ensures PrunedFor(a, b, cur, done + {m})
  {}

  /** An entry without a key is removed. */
  lemma WalkRemoves(a: Db, b: Db, c: Db, cur: Path, done: set<Member>, m: Member)
    requires PrunedFor(a, b, cur, done) && Walkable(a, cur) && Child(cur, m) !in a
    requires !IsStr(b, cur) && c == WithMembers(b, cur, Members(b, cur) - {m})
    ensures PrunedFor(a, c, cur, done + {m})
  {
    forall p ensures StrAt(c, p) == StrAt(a, p) { assert StrAt(b, p) == StrAt(a, p); }
    forall d, x ensures x in Members(c, d) <==> x in Members(a, d) && Keeps(a, cur, done + {m}, d, x) {
      assert x in Members(b, d) <==> x in Members(a, d) && Keeps(a, cur, done, d, x);
      if d != cur && Under(cur, d) && Dir(d[|cur|]) == m { MissingHasNoMembers(a, cur, m, d); }
    }
  }

  lemma MissingHasNoMembers(a: Db, cur: Path, m: Member, d: Path)
    requires Child(cur, m) !in a && Under(cur, d) && Dir(d[|cur|]) == m
    ensures Reached(a, cur, d) ==> Members(a, d) == {}
  {
    assert d[..|cur| + 1] == d[..|cur|] + [d[|cur|]] == Child(cur, m);
    var i := |cur| + 1;
    if |d| == i { assert d == Child(cur, m); } else { assert Dir(d[i]) !in Members(a, d[..i]); }
  }

  /** An existing directory entry is kept, and the directory is walked in turn. */
  lemma WalkGoesDown(a: Db, b: Db, c: Db, cur: Path, done: set<Member>, m: Member)
    requires PrunedFor(a, b, cur, done) && Walkable(a, cur) && m.Dir? && m in Members(a, cur) && m !in done
    requires Child(cur, m) in a && Pruned(b, c, Child(cur, m))
    ensures PrunedFor(a, c, cur, done + {m})
  {
    var e := Child(cur, m);
    forall p ensures StrAt(c, p) == StrAt(a, p) { assert StrAt(c, p) == StrAt(b, p); }
    forall d, x ensures x in Members(c, d) <==> x in Members(a, d) && Keeps(a, cur, done + {m}, d, x) {
      assert x in Members(c, d) <==> x in Members(b, d) && (Reached(b, e, d) ==> Child(d, x) in b);
      assert x in Members(b, d) <==> x in Members(a, d) && Keeps(a, cur, done, d, x);
      if Below(e, d) {
        AboveChild(cur, m, d);
        ReachedBoth(a, b, cur, done, m, d);
        BelowChild(e, d, x);
        SubtreeUntouched(a, b, cur, done, m, Child(d, x));
      } else if d != cur && Under(cur, d) {
        NextOnPath(cur, d);
      }
    }
  }

  lemma NextOnPath(cur: Path, d: Path)
    requires Under(cur, d)
    ensures Below(Child(cur, Dir(d[|cur|])), d)
  {
    assert d[..|cur| + 1] == d[..|cur|] + [d[|cur|]];
  }

  lemma AboveChild(cur: Path, m: Member, d: Path)
    requires Below(Child(cur, m), d)
    ensures Under(cur, d) && d[|cur|] == m.name
  {
    assert d[..|cur|] == d[..|cur| + 1][..|cur|] == cur && d[|cur|] == d[..|cur| + 1][|cur|];
  }

  lemma ReachedBoth(a: Db, b: Db, cur: Path, done: set<Member>, m: Member, d: Path)
    requires PrunedFor(a, b, cur, done) && NoEmptySet(a) && m.Dir? && m in Members(a, cur) && m !in done
    requires Below(Child(cur, m), d)
    ensures Reached(b, Child(cur, m), d) <==> Reached(a, cur, d)
  {
    var e := Child(cur, m);
    AboveChild(cur, m, d);
    forall i | |e| <= i <= |d| ensures Members(b, d[..i]) == Members(a, d[..i]) {
      assert d[..i][..|e|] == d[..|e|];
      SubtreeUntouched(a, b, cur, done, m, d[..i]);
    }
    if Reached(b, e, d) {
      forall i | |cur| <= i < |d| ensures Dir(d[i]) in Members(a, d[..i]) {
        if i > |cur| { assert Dir(d[i]) in Members(b, d[..i]); }
      }
    }
    if Reached(a, cur, d) {
      forall i | |e| <= i < |d| ensures Dir(d[i]) in Members(b, d[..i]) { assert Dir(d[i]) in Members(a, d[..i]); }
    }
  }

  /** The tree below an entry can be walked if the whole tree can. */
  lemma SubtreeWalkable(a: Db, b: Db, cur: Path, done: set<Member>, m: Member)
    requires Walkable(a, cur) && PrunedFor(a, b, cur, done) && m.Dir? && m in Members(a, cur) && m !in done
    ensures Walkable(b, Child(cur, m))
  {
    var e := Child(cur, m);
    forall d, name | Reached(b, e, d) && File(name) in Members(b, d) && Dir(name) in Members(b, d)
      ensures Members(b, d + [name]) == {}
    {
      ReachedBoth(a, b, cur, done, m, d);
      BelowChild(e, d, File(name));
      SubtreeUntouched(a, b, cur, done, m, d);
      SubtreeUntouched(a, b, cur, done, m, d + [name]);
    }
  }
}
