/** Repair of storage.go: a scan that re-creates every link of every stored key, then a
    walk down from the root that removes entries whose key does not exist.  What one pass
    achieves, and how many passes remove all stale entries. */
module Repair {
  import opened Common
  import opened Redis
  import opened DirectoryIndex
  import opened Sequential
  import opened Interrupted
  import opened Healing

  function Child(d: Path, m: Member): Path { d + [m.name] }

  /** Member `m` of directory `d` is a link of some stored key below the root. */
  ghost predicate NeededFor(db: Db, root: Path, d: Path, m: Member) {
    exists k :: IsStored(db, k) && Under(root, k) && IsLink(k, 1, |k|, d, m)
  }

  /** The scan: `b` is `a` with all links of the stored keys below the root, and below the
      root with nothing else.  Elsewhere there may be new links too: the pattern of the scan
      also matches keys of another prefix. */
  ghost predicate Rebuilt(a: Db, b: Db, root: Path) {
    && NoEmptySet(b) && SameStrings(b, a)
    && (forall d, m :: m in Members(a, d) || NeededFor(a, root, d, m) ==> m in Members(b, d))
    && (forall d, m :: Below(root, d) && m in Members(b, d) ==> m in Members(a, d) || NeededFor(a, root, d, m))
  }

  /** The walk: `b` is `a` without those entries of the directories reached from the root
      whose key did not exist when the walk came by, that is, before it went down. */
  ghost predicate Pruned(a: Db, b: Db, root: Path) {
    && NoEmptySet(b) && SameStrings(b, a)
    && (forall d, m :: m in Members(b, d) <==> m in Members(a, d) && (Reached(a, root, d) ==> Child(d, m) in a))
  }

  ghost predicate Pass(a: Db, b: Db, root: Path) {
    exists mid :: Rebuilt(a, mid, root) && Pruned(mid, b, root)
  }

  /** The databases Repair is for: links may be missing and entries stale, but no string
      stands above a stored key, and below the root a file entry names a string, loadable or
      not, or nothing, a directory entry never a string. */
  ghost predicate Repairable(db: Db, root: Path) {
    && |root| >= 1 && NoEmptySet(db) && !IsStr(db, root)
    && (forall d, k :: d != [] && IsStr(db, d) && IsStored(db, k) && Under(root, k) ==> !Under(d, k))
    && (forall d, m :: Below(root, d) && m in Members(db, d) ==> EntryFits(db, d, m))
  }

  ghost predicate EntryFits(db: Db, d: Path, m: Member) {
    if m.Dir? then !IsStr(db, Child(d, m))
    else IsStr(db, Child(d, m)) || (Child(d, m) !in db && forall k :: IsStored(db, k) ==> !Under(Child(d, m), k))
  }

  // ----- small facts about paths -----

  lemma NeededChild(db: Db, root: Path, d: Path, m: Member, k: Path)
    requires IsStored(db, k) && Under(root, k) && IsLink(k, 1, |k|, d, m)
    ensures Under(d, k) && Child(d, m) == k[..|d| + 1]
    ensures m.File? ==> Child(d, m) == k
    ensures m.Dir? ==> Under(Child(d, m), k) && NeededFor(db, root, Child(d, m), LinkAt(k, |d| + 1))
  {
    assert k[..|d| + 1] == k[..|d|] + [k[|d|]];
    if m.Dir? {
      var c := Child(d, m);
      assert |c| == |d| + 1 < |k| && k[..|c|] == c;
      assert IsLink(k, 1, |k|, c, LinkAt(k, |c|));
    }
  }

  lemma ChildUnder(d: Path, m: Member, k: Path)
    requires Under(Child(d, m), k)
    ensures Under(d, k) && LinkAt(k, |d|) == Dir(m.name)
  {
    var c := Child(d, m);
    assert k[..|d|] == k[..|c|][..|d|] == d;
    assert k[|d|] == k[..|c|][|d|] == m.name;
  }

  lemma BelowChild(root: Path, d: Path, m: Member)
    requires Below(root, d)
    ensures Below(root, Child(d, m)) && Under(root, Child(d, m)) && Under(d, Child(d, m))
  {
    assert Child(d, m)[..|root|] == d[..|root|] && Child(d, m)[..|d|] == d;
  }

  lemma ReachedBelow(db: Db, root: Path, d: Path, m: Member)
    requires Reached(db, root, d)
    ensures Below(root, d)
    ensures m.Dir? && m in Members(db, d) ==> Reached(db, root, Child(d, m))
  {
    if m.Dir? && m in Members(db, d) {
      var c := Child(d, m);
      assert c[..|root|] == d[..|root|];
      forall i | |root| <= i < |c| ensures Dir(c[i]) in Members(db, c[..i]) {
        if i < |d| { assert c[..i] == d[..i]; assert Dir(d[i]) in Members(db, d[..i]); }
        else { assert c[..i] == d; }
      }
    }
  }

  lemma ReachedMono(a: Db, b: Db, root: Path, d: Path)
    requires Reached(a, root, d) && forall p, m :: m in Members(a, p) ==> m in Members(b, p)
    ensures Reached(b, root, d)
  {}

  // ----- one pass -----

  /** After the scan the child of every entry is what it was, or a directory that a
      stored key needs. */
  lemma RebuiltEntry(a: Db, mid: Db, root: Path, d: Path, m: Member)
    requires Repairable(a, root) && Rebuilt(a, mid, root) && Below(root, d) && m in Members(mid, d)
    ensures NeededFor(a, root, d, m) ==> Child(d, m) in mid
    ensures m.File? && Child(d, m) in mid ==> IsStr(a, Child(d, m))
    ensures m.File? ==> (IsStored(a, Child(d, m)) <==> NeededFor(a, root, d, m))
    ensures m.Dir? ==> !IsStr(mid, Child(d, m))
  {
    var c := Child(d, m);
    assert StrAt(mid, c) == StrAt(a, c);
    if NeededFor(a, root, d, m) {
      var k :| IsStored(a, k) && Under(root, k) && IsLink(k, 1, |k|, d, m);
      NeededChild(a, root, d, m, k);
      if m.Dir? {
        assert LinkAt(k, |c|) in Members(mid, c);
      }
    } else {
      assert EntryFits(a, d, m);
      BelowChild(root, d, m);
      if m.File? { NothingAppears(a, mid, root, c); assert IsLink(c, 1, |c|, d, m); }
    }
  }

  /** The scan makes no key where nothing was and nothing is stored below. */
  lemma NothingAppears(a: Db, mid: Db, root: Path, c: Path)
    requires Rebuilt(a, mid, root) && Below(root, c)
    ensures c !in a && (forall k :: IsStored(a, k) ==> !Under(c, k)) ==> c !in mid
  {
    assert StrAt(mid, c) == StrAt(a, c);
    assert forall m :: m in Members(mid, c) ==> m in Members(a, c) || NeededFor(a, root, c, m);
    assert c in mid ==> Members(mid, c) != {} || IsStr(mid, c);
  }

  /** The walk never removes a link that a stored key needs. */
  lemma PassKeepsNeeded(a: Db, mid: Db, b: Db, root: Path, d: Path, m: Member)
    requires Repairable(a, root) && Rebuilt(a, mid, root) && Pruned(mid, b, root)
    requires NeededFor(a, root, d, m)
    ensures m in Members(b, d)
  {
    assert m in Members(mid, d);
    if Reached(mid, root, d) {
      ReachedBelow(mid, root, d, m);
      RebuiltEntry(a, mid, root, d, m);
    }
  }

  lemma SameNeeds(a: Db, b: Db, root: Path, d: Path, m: Member)
    requires SameStrings(a, b)
    ensures NeededFor(a, root, d, m) <==> NeededFor(b, root, d, m)
  {
    forall p ensures IsStored(a, p) <==> IsStored(b, p) { assert StrAt(a, p) == StrAt(b, p); }
  }

  lemma PassStrings(a: Db, mid: Db, b: Db, root: Path)
    requires Rebuilt(a, mid, root) && Pruned(mid, b, root)
    ensures SameStrings(a, b)
  {
    forall p ensures StrAt(a, p) == StrAt(b, p) { assert StrAt(b, p) == StrAt(mid, p); }
  }

  /** Whatever links are missing and whatever entries are stale: after one pass, recursive
      List from the root finds every stored key below it, and nothing but strings below it;
      no value has changed. */
  lemma OnePassListsStored(a: Db, b: Db, root: Path, k: Path)
    requires Repairable(a, root) && Pass(a, b, root)
    ensures IsStored(b, k) && Under(root, k) ==> Listed(b, root, k)
    ensures Listed(b, root, k) ==> IsStr(b, k) && Under(root, k)
    ensures StrAt(b, k) == StrAt(a, k)
  {
    var mid :| Rebuilt(a, mid, root) && Pruned(mid, b, root);
    hide Repairable, Rebuilt, Pruned;
    PassStrings(a, mid, b, root);
    assert StrAt(b, k) == StrAt(a, k);
    if IsStored(b, k) && Under(root, k) {
      StoredIsListed(a, mid, b, root, k);
    } else if Listed(b, root, k) {
      ListingIsSound(a, mid, b, root, k);
    }
  }

  lemma StoredIsListed(a: Db, mid: Db, b: Db, root: Path, k: Path)
    requires Repairable(a, root) && Rebuilt(a, mid, root) && Pruned(mid, b, root)
    requires IsStored(a, k) && Under(root, k)
    ensures Listed(b, root, k)
  {
    forall i | |root| <= i < |k| ensures Linked(b, k, i) {
      assert IsLink(k, 1, |k|, k[..i], LinkAt(k, i));
      PassKeepsNeeded(a, mid, b, root, k[..i], LinkAt(k, i));
    }
  }

  /** The directory of a listed key is reached, and its file entry is there. */
  lemma ListedEntry(b: Db, root: Path, k: Path)
    requires Listed(b, root, k)
    ensures var d, m := k[..|k| - 1], LinkAt(k, |k| - 1);
            m.File? && m in Members(b, d) && Child(d, m) == k && Reached(b, root, d)
  {
    var d := k[..|k| - 1];
    assert Linked(b, k, |k| - 1);
    forall i | |root| <= i < |d| ensures Dir(d[i]) in Members(b, d[..i]) {
      assert Linked(b, k, i);
      assert d[..i] == k[..i];
    }
    assert d[..|root|] == k[..|root|];
  }

  lemma PrunedHasLess(a: Db, b: Db, root: Path, d: Path)
    requires Pruned(a, b, root) && Reached(b, root, d)
    ensures Reached(a, root, d) && forall m :: m in Members(b, d) ==> m in Members(a, d) && Child(d, m) in a
  {
    ReachedMono(b, a, root, d);
  }

  lemma ListingIsSound(a: Db, mid: Db, b: Db, root: Path, k: Path)
    requires Repairable(a, root) && Rebuilt(a, mid, root) && Pruned(mid, b, root)
    requires Listed(b, root, k)
    ensures IsStr(a, k)
  {
    hide Repairable, Rebuilt, Pruned, Reached;
    var d, m := k[..|k| - 1], LinkAt(k, |k| - 1);
    ListedEntry(b, root, k);
    PrunedHasLess(mid, b, root, d);
    ReachedBelow(mid, root, d, m);
    RebuiltEntry(a, mid, root, d, m);
  }

  /** A pass leaves a database that Repair is for. */
  lemma PassKeepsRepairable(a: Db, mid: Db, b: Db, root: Path)
    requires Repairable(a, root) && Rebuilt(a, mid, root) && Pruned(mid, b, root)
    ensures Repairable(b, root)
  {
    PassStrings(a, mid, b, root);
    assert forall p :: IsStr(b, p) <==> StrAt(b, p).Some?;
    assert forall p :: IsStr(a, p) <==> StrAt(a, p).Some?;
    assert forall p :: IsStored(b, p) <==> StrAt(b, p).Some? && StrAt(b, p).value.Record?;
    assert forall p :: IsStored(a, p) <==> StrAt(a, p).Some? && StrAt(a, p).value.Record?;
    forall d, m | Below(root, d) && m in Members(b, d) ensures EntryFits(b, d, m) {
      EntryStillFits(a, mid, b, root, d, m);
    }
  }

  lemma EntryStillFits(a: Db, mid: Db, b: Db, root: Path, d: Path, m: Member)
    requires Repairable(a, root) && Rebuilt(a, mid, root) && Pruned(mid, b, root)
    requires Below(root, d) && m in Members(b, d)
    requires forall p :: IsStored(b, p) <==> IsStored(a, p)
    ensures EntryFits(b, d, m)
  {
    var c := Child(d, m);
    RebuiltEntry(a, mid, root, d, m);
    assert StrAt(b, c) == StrAt(mid, c) == StrAt(a, c);
    assert forall m2 :: m2 in Members(b, c) ==> m2 in Members(mid, c);
    if m.File? && !IsStr(a, c) {
      assert m in Members(a, d) && EntryFits(a, d, m);
      assert Members(b, c) == {};
    }
  }

  // ----- what a walk keeps -----

  /** A string below directory `d` is listed through entry `m`. */
  ghost predicate LeadsTo(db: Db, d: Path, m: Member) {
    exists k :: Listed(db, d, k) && LinkAt(k, |d|) == m && IsStr(db, k)
  }

  lemma LinkChild(k: Path, i: nat)
    requires i < |k|
    ensures Child(k[..i], LinkAt(k, i)) == k[..i + 1]
  {}

  /** A chain of links to a string survives a walk. */
  lemma ListedStays(mid: Db, b: Db, root: Path, d: Path, k: Path)
    requires Pruned(mid, b, root) && Listed(mid, d, k) && IsStr(mid, k)
    ensures Listed(b, d, k) && IsStr(b, k)
  {
    assert StrAt(b, k) == StrAt(mid, k);
    forall i | |d| <= i < |k| ensures Linked(b, k, i) {
      assert Linked(mid, k, i);
      LinkChild(k, i);
      if i + 1 < |k| { assert Linked(mid, k, i + 1); } else { assert k[..i + 1] == k; }
    }
  }

  lemma LeadStays(mid: Db, b: Db, root: Path, d: Path, m: Member)
    requires Pruned(mid, b, root) && LeadsTo(mid, d, m)
    ensures LeadsTo(b, d, m)
  {
    hide Pruned, Linked;
    var k :| Listed(mid, d, k) && LinkAt(k, |d|) == m && IsStr(mid, k);
    ListedStays(mid, b, root, d, k);
  }

  /** More entries lead further. */
  lemma LeadMono(a: Db, b: Db, d: Path, m: Member)
    requires SameStrings(a, b) && LeadsTo(a, d, m) && forall p, x :: x in Members(a, p) ==> x in Members(b, p)
    ensures LeadsTo(b, d, m)
  {
    var k :| Listed(a, d, k) && LinkAt(k, |d|) == m && IsStr(a, k);
    assert StrAt(a, k) == StrAt(b, k);
    forall i | |d| <= i < |k| ensures Linked(b, k, i) { assert Linked(a, k, i); }
  }

  /** A directory that is not empty stays reached. */
  lemma ReachedStays(mid: Db, b: Db, root: Path, d: Path)
    requires Pruned(mid, b, root) && Reached(mid, root, d) && Members(mid, d) != {}
    ensures Reached(b, root, d)
  {
    forall i | |root| <= i < |d| ensures Dir(d[i]) in Members(b, d[..i]) {
      assert Dir(d[i]) in Members(mid, d[..i]);
      assert Child(d[..i], Dir(d[i])) == d[..i + 1];
      if i + 1 < |d| { assert Dir(d[i + 1]) in Members(mid, d[..i + 1]); } else { assert d[..i + 1] == d; }
    }
  }

  /** A needed entry leads to the stored key that needs it. */
  lemma NeededLeads(a: Db, mid: Db, root: Path, d: Path, m: Member)
    requires Rebuilt(a, mid, root) && NeededFor(a, root, d, m)
    ensures LeadsTo(mid, d, m)
  {
    var k :| IsStored(a, k) && Under(root, k) && IsLink(k, 1, |k|, d, m);
    assert StrAt(mid, k) == StrAt(a, k);
    forall i | |d| <= i < |k| ensures Linked(mid, k, i) {
      assert IsLink(k, 1, |k|, k[..i], LinkAt(k, i));
      assert NeededFor(a, root, k[..i], LinkAt(k, i));
    }
    assert Listed(mid, d, k);
  }

  // ----- the directories and entries after the scan, seen from before it -----

  ghost predicate InScan(a: Db, root: Path, d: Path, m: Member) {
    m in Members(a, d) || NeededFor(a, root, d, m)
  }

  ghost predicate ReachedInScan(a: Db, root: Path, d: Path) {
    Below(root, d) && forall i :: |root| <= i < |d| ==> InScan(a, root, d[..i], Dir(d[i]))
  }

  /** A string is listed through entry `m` of `d` once the scan is done. */
  ghost predicate LeadsInScan(a: Db, root: Path, d: Path, m: Member) {
    exists k :: ListedInScan(a, root, d, k) && LinkAt(k, |d|) == m && IsStr(a, k)
  }

  ghost predicate ListedInScan(a: Db, root: Path, d: Path, k: Path) {
    Under(d, k) && forall i :: |d| <= i < |k| ==> InScan(a, root, k[..i], LinkAt(k, i))
  }

  lemma ScanReaches(a: Db, mid: Db, root: Path, d: Path)
    requires Rebuilt(a, mid, root)
    ensures Reached(mid, root, d) <==> ReachedInScan(a, root, d)
  {
    hide NeededFor;
    if Below(root, d) {
      forall i | |root| <= i < |d| ensures Dir(d[i]) in Members(mid, d[..i]) <==> InScan(a, root, d[..i], Dir(d[i])) {
        assert d[..i][..|root|] == d[..|root|];
        RebuiltAt(a, mid, root, d[..i], Dir(d[i]));
      }
    }
  }

  lemma ScanLists(a: Db, mid: Db, root: Path, d: Path, k: Path)
    requires Rebuilt(a, mid, root) && Below(root, d)
    ensures Listed(mid, d, k) && IsStr(mid, k) <==> ListedInScan(a, root, d, k) && IsStr(a, k)
  {
    hide NeededFor;
    assert StrAt(mid, k) == StrAt(a, k);
    if Under(d, k) {
      forall i | |d| <= i < |k| ensures Linked(mid, k, i) <==> InScan(a, root, k[..i], LinkAt(k, i)) {
        assert k[..i][..|root|] == k[..|d|][..|root|];
        RebuiltAt(a, mid, root, k[..i], LinkAt(k, i));
      }
    }
  }

  lemma ScanLeads(a: Db, mid: Db, root: Path, d: Path, m: Member)
    requires Rebuilt(a, mid, root) && Below(root, d)
    ensures LeadsTo(mid, d, m) <==> LeadsInScan(a, root, d, m)
  {
    hide Rebuilt, Listed, ListedInScan, IsStr;
    forall k ensures Listed(mid, d, k) && IsStr(mid, k) <==> ListedInScan(a, root, d, k) && IsStr(a, k) {
      ScanLists(a, mid, root, d, k);
    }
    assert forall k :: Listed(mid, d, k) ==> |d| < |k| by { UnderIsLonger(mid, d); }
    if LeadsTo(mid, d, m) {
      var k :| Listed(mid, d, k) && LinkAt(k, |d|) == m && IsStr(mid, k);
      assert ListedInScan(a, root, d, k);
    }
  }

  lemma UnderIsLonger(db: Db, d: Path)
    ensures forall k :: Listed(db, d, k) ==> |d| < |k|
  {}

  // ----- when one pass lists exactly the stored keys -----

  lemma FileEntryIsListed(a: Db, mid: Db, b: Db, root: Path, d: Path, m: Member)
    requires Rebuilt(a, mid, root) && Pruned(mid, b, root) && Reached(mid, root, d)
    requires m.File? && m in Members(mid, d) && IsStr(mid, Child(d, m))
    ensures Listed(b, root, Child(d, m))
  {
    var k := Child(d, m);
    ReachedBelow(mid, root, d, m);
    BelowChild(root, d, m);
    forall i | |root| <= i < |k| ensures Linked(mid, k, i) {
      if i < |d| { assert k[..i] == d[..i]; assert Dir(d[i]) in Members(mid, d[..i]); } else { assert k[..i] == d; }
    }
    ListedStays(mid, b, root, root, k);
  }

  /** No file entry of a directory that is reached after the scan names a string that does
      not load. */
  ghost predicate FilesLoadInScan(a: Db, root: Path) {
    forall d: Path, m: Member :: ReachedInScan(a, root, d) && m.File? && m in Members(a, d) && IsStr(a, Child(d, m)) ==>
      IsStored(a, Child(d, m))
  }

  /** One pass makes List return exactly the stored keys if and only if no file entry in a
      directory that is reached after the scan names a string that does not load.  The scan
      skips such a string, and the walk keeps the entry since its key exists. */
  lemma OnePassListsExactlyIff(a: Db, b: Db, root: Path)
    requires Repairable(a, root) && Pass(a, b, root)
    ensures (forall k :: Listed(b, root, k) <==> IsStored(b, k) && Under(root, k)) <==>
            FilesLoadInScan(a, root)
  {
    var mid :| Rebuilt(a, mid, root) && Pruned(mid, b, root);
    hide Repairable, Rebuilt, Pruned, Pass, Reached, ReachedInScan, Listed, NeededFor;
    PassStrings(a, mid, b, root);
    StringViews(a, b);
    if forall k :: Listed(b, root, k) <==> IsStored(b, k) && Under(root, k) {
      forall d: Path, m: Member | ReachedInScan(a, root, d) && m.File? && m in Members(a, d) && IsStr(a, Child(d, m))
        ensures IsStored(a, Child(d, m))
      {
        ScanKeeps(a, mid, root, d, m);
        FileEntryIsListed(a, mid, b, root, d, m);
        assert StrAt(a, Child(d, m)) == StrAt(b, Child(d, m));
      }
    }
    if FilesLoadInScan(a, root) {
      forall k ensures Listed(b, root, k) <==> IsStored(b, k) && Under(root, k) {
        assert StrAt(a, k) == StrAt(b, k);
        OnePassListsStored(a, b, root, k) by { assert Pass(a, b, root) by { PassBy(a, mid, b, root); } }
        if Listed(b, root, k) { ListedFileWas(a, mid, b, root, k); }
      }
    }
  }

  lemma PassBy(a: Db, mid: Db, b: Db, root: Path)
    requires Rebuilt(a, mid, root) && Pruned(mid, b, root)
    ensures Pass(a, b, root)
  {}

  lemma ScanKeeps(a: Db, mid: Db, root: Path, d: Path, m: Member)
    requires Rebuilt(a, mid, root) && ReachedInScan(a, root, d) && m in Members(a, d)
    ensures Reached(mid, root, d) && m in Members(mid, d)
    ensures IsStr(a, Child(d, m)) <==> IsStr(mid, Child(d, m))
  {
    ScanReaches(a, mid, root, d);
    assert StrAt(a, Child(d, m)) == StrAt(mid, Child(d, m));
  }

  /** A listed key is stored, or its file entry was there before the pass. */
  lemma ListedFileWas(a: Db, mid: Db, b: Db, root: Path, k: Path)
    requires Repairable(a, root) && Rebuilt(a, mid, root) && Pruned(mid, b, root) && Listed(b, root, k)
    ensures |k| >= 1
    ensures var d, m := k[..|k| - 1], LinkAt(k, |k| - 1);
            m.File? && Child(d, m) == k && ReachedInScan(a, root, d) && (IsStored(a, k) || m in Members(a, d))
  {
    hide Repairable, Rebuilt, Pruned, Reached, ReachedInScan, NeededFor;
    var d, m := k[..|k| - 1], LinkAt(k, |k| - 1);
    ListedEntry(b, root, k);
    PrunedHasLess(mid, b, root, d);
    ReachedBelow(mid, root, d, m);
    ScanReaches(a, mid, root, d);
    RebuiltEntry(a, mid, root, d, m);
    RebuiltAt(a, mid, root, d, m);
  }

  /** An input at which one pass, and every further one, lists a key that does not load. */
  lemma UnloadableStaysListed()
    ensures var root, x: Path := ["caddy"], ["caddy", "x"];
            var db: Db := map[root := ZSet({File("x")}), x := Str(Foreign("token"))];
            Repairable(db, root) && Pass(db, db, root) && Listed(db, root, x) && !IsStored(db, x)
  {
    var root, x: Path := ["caddy"], ["caddy", "x"];
    var db: Db := map[root := ZSet({File("x")}), x := Str(Foreign("token"))];
    assert forall k :: !IsStored(db, k);
    assert forall d, m :: m in Members(db, d) ==> d == root && m == File("x");
    assert Child(root, File("x")) == x;
    assert Rebuilt(db, db, root) && Pruned(db, db, root);
    forall i | 1 <= i < 2 ensures Linked(db, x, i) { assert x[..1] == root; }
    assert Under(root, x);
  }

  // ----- repeated passes -----

  ghost predicate Complete(db: Db, root: Path) {
    forall d, m :: NeededFor(db, root, d, m) ==> m in Members(db, d)
  }

  /** Every stale entry, one that is reached and leads to no string, sits in a directory of
      length at most `n`. */
  ghost predicate StaleUpTo(db: Db, root: Path, n: int) {
    forall d, m :: Reached(db, root, d) && m in Members(db, d) && !LeadsTo(db, d, m) ==> |d| <= n
  }

  /** The index reachable from the root has all links of the stored keys and no stale entry. */
  ghost predicate Exact(db: Db, root: Path) {
    Complete(db, root) && forall d, m :: Reached(db, root, d) && m in Members(db, d) ==> LeadsTo(db, d, m)
  }

  /** No file entry of a reached directory names a string that does not load. */
  ghost predicate FilesLoad(db: Db, root: Path) {
    forall d: Path, m: Member :: Reached(db, root, d) && m.File? && m in Members(db, d) && IsStr(db, Child(d, m)) ==>
      IsStored(db, Child(d, m))
  }

  /** An exact index holds nothing but the links of the stored keys if and only if no file
      entry in it names a string that does not load. */
  lemma ExactIsNeededIff(db: Db, root: Path)
    requires Repairable(db, root) && Exact(db, root)
    ensures (forall d, m :: Reached(db, root, d) && m in Members(db, d) ==> NeededFor(db, root, d, m)) <==>
            FilesLoad(db, root)
  {
    if forall d, m :: Reached(db, root, d) && m in Members(db, d) ==> NeededFor(db, root, d, m) {
      forall d: Path, m: Member | Reached(db, root, d) && m.File? && m in Members(db, d)
        ensures IsStored(db, Child(d, m)) {
        var k :| IsStored(db, k) && Under(root, k) && IsLink(k, 1, |k|, d, m);
        NeededChild(db, root, d, m, k);
      }
    }
    if FilesLoad(db, root) {
      forall d, m | Reached(db, root, d) && m in Members(db, d) ensures NeededFor(db, root, d, m) {
        var k :| Listed(db, d, k) && LinkAt(k, |d|) == m && IsStr(db, k);
        ListedFromRoot(db, root, d, k);
        ListedEntry(db, root, k);
        assert IsLink(k, 1, |k|, d, m);
      }
    }
  }

  lemma ListedFromRoot(db: Db, root: Path, d: Path, k: Path)
    requires Reached(db, root, d) && Listed(db, d, k)
    ensures Listed(db, root, k)
  {
    assert k[..|root|] == k[..|d|][..|root|];
    forall i | |root| <= i < |k| ensures Linked(db, k, i) {
      if i < |d| { assert k[..i] == k[..|d|][..i] && k[i] == k[..|d|][i]; assert Dir(d[i]) in Members(db, d[..i]); }
    }
  }

  /** A stale entry survives a pass only as a directory whose own entries are all stale. */
  lemma SurvivorHasStaleChild(a: Db, mid: Db, b: Db, root: Path, d: Path, m: Member) returns (m2: Member)
    requires Repairable(a, root) && Rebuilt(a, mid, root) && Pruned(mid, b, root)
    requires Reached(b, root, d) && m in Members(b, d) && !LeadsTo(b, d, m)
    ensures m.Dir? && Reached(mid, root, Child(d, m))
    ensures m2 in Members(a, Child(d, m)) && m2 in Members(mid, Child(d, m))
    ensures !LeadsTo(mid, Child(d, m), m2) && Below(root, d) && m in Members(mid, d) && !LeadsTo(mid, d, m)
  {
    hide Repairable, Rebuilt, Pruned, Reached, NeededFor, LeadsTo;
    m2 := SurvivorIsDirectory(a, mid, b, root, d, m);
    var c := Child(d, m);
    if LeadsTo(mid, d, m) { LeadStays(mid, b, root, d, m); }
    if LeadsTo(mid, c, m2) { LeadsThrough(mid, d, m, m2); }
    BelowChild(root, d, m);
    RebuiltAt(a, mid, root, c, m2);
    if NeededFor(a, root, c, m2) { NeededLeads(a, mid, root, c, m2); }
  }

  lemma LeadsThrough(db: Db, d: Path, m: Member, m2: Member)
    requires m.Dir? && m in Members(db, d) && LeadsTo(db, Child(d, m), m2)
    ensures LeadsTo(db, d, m)
  {
    var c := Child(d, m);
    var k :| Listed(db, c, k) && LinkAt(k, |c|) == m2 && IsStr(db, k);
    ChildUnder(d, m, k);
    forall i | |d| <= i < |k| ensures Linked(db, k, i) { if i == |d| { assert k[..i] == d; } }
    assert Listed(db, d, k);
  }

  lemma SetHasMember(db: Db, p: Path)
    requires NoEmptySet(db) && p in db && !IsStr(db, p)
    ensures Members(db, p) != {}
  {}

  lemma RebuiltAt(a: Db, mid: Db, root: Path, d: Path, m: Member)
    requires Rebuilt(a, mid, root) && Below(root, d)
    ensures m in Members(mid, d) <==> m in Members(a, d) || NeededFor(a, root, d, m)
  {}

  lemma SurvivorIsDirectory(a: Db, mid: Db, b: Db, root: Path, d: Path, m: Member) returns (m2: Member)
    requires Repairable(a, root) && Rebuilt(a, mid, root) && Pruned(mid, b, root)
    requires Reached(b, root, d) && m in Members(b, d) && !LeadsTo(b, d, m)
    ensures m.Dir? && Below(root, d) && Reached(mid, root, Child(d, m))
    ensures m in Members(mid, d) && m2 in Members(mid, Child(d, m))
  {
    hide Repairable, Rebuilt, Reached, NeededFor, LeadsTo, Pruned;
    PrunedHasLess(mid, b, root, d);
    ReachedBelow(mid, root, d, m);
    RebuiltEntry(a, mid, root, d, m);
    if m.File? { FileLeads(a, mid, b, root, d, m); }
    assert NoEmptySet(mid) by { RebuiltSets(a, mid, root); }
    SetHasMember(mid, Child(d, m));
    m2 :| m2 in Members(mid, Child(d, m));
  }

  lemma RebuiltSets(a: Db, mid: Db, root: Path)
    requires Rebuilt(a, mid, root)
    ensures NoEmptySet(mid)
  {}

  lemma FileLeads(a: Db, mid: Db, b: Db, root: Path, d: Path, m: Member)
    requires Rebuilt(a, mid, root) && Pruned(mid, b, root) && m.File? && m in Members(b, d) && IsStr(a, Child(d, m))
    ensures LeadsTo(b, d, m)
  {
    var k := Child(d, m);
    assert StrAt(b, k) == StrAt(mid, k) == StrAt(a, k);
    assert k[..|d|] == d;
    assert Listed(b, d, k);
  }

  lemma PassCompletes(a: Db, mid: Db, b: Db, root: Path)
    requires Repairable(a, root) && Rebuilt(a, mid, root) && Pruned(mid, b, root)
    ensures Complete(b, root)
  {
    PassStrings(a, mid, b, root);
    forall d, m | NeededFor(b, root, d, m) ensures m in Members(b, d) {
      SameNeeds(a, b, root, d, m);
      PassKeepsNeeded(a, mid, b, root, d, m);
    }
  }

  /** The first pass, from an index whose keys have at most `depth` segments. */
  lemma FirstPass(a: Db, mid: Db, b: Db, root: Path, depth: nat)
    requires Repairable(a, root) && Rebuilt(a, mid, root) && Pruned(mid, b, root)
    requires forall p :: p in a ==> |p| <= depth
    ensures StaleUpTo(b, root, depth - 1)
  {
    hide Repairable, Rebuilt, Pruned, Reached, LeadsTo;
    forall d, m | Reached(b, root, d) && m in Members(b, d) && !LeadsTo(b, d, m) ensures |d| <= depth - 1 {
      var m2 := SurvivorHasStaleChild(a, mid, b, root, d, m);
      assert Child(d, m) in a;
    }
  }

  /** A complete index gains nothing below the root in the scan. */
  lemma ScanOfComplete(a: Db, mid: Db, root: Path, d: Path)
    requires Rebuilt(a, mid, root) && Complete(a, root)
    ensures Below(root, d) ==> Members(mid, d) == Members(a, d)
    ensures Reached(mid, root, d) <==> Reached(a, root, d)
  {
    if Below(root, d) {
      forall i | |root| <= i <= |d| ensures Members(mid, d[..i]) == Members(a, d[..i]) {
        assert d[..i][..|root|] == d[..|root|];
        assert forall m :: m in Members(mid, d[..i]) <==> m in Members(a, d[..i]);
      }
      assert d[..|d|] == d;
    }
  }

  /** Each further pass shortens every stale chain. */
  lemma NextPass(a: Db, mid: Db, b: Db, root: Path, n: int)
    requires Repairable(a, root) && Rebuilt(a, mid, root) && Pruned(mid, b, root)
    requires Complete(a, root) && StaleUpTo(a, root, n)
    ensures StaleUpTo(b, root, n - 1)
  {
    hide Repairable, Rebuilt, Pruned, Reached, LeadsTo, Complete;
    forall d, m | Reached(b, root, d) && m in Members(b, d) && !LeadsTo(b, d, m) ensures |d| <= n - 1 {
      var m2 := SurvivorHasStaleChild(a, mid, b, root, d, m);
      ScanOfComplete(a, mid, root, Child(d, m));
      if LeadsTo(a, Child(d, m), m2) { LeadInScan(a, mid, root, Child(d, m), m2); }
    }
  }

  lemma LeadInScan(a: Db, mid: Db, root: Path, d: Path, m: Member)
    requires Rebuilt(a, mid, root) && LeadsTo(a, d, m)
    ensures LeadsTo(mid, d, m)
  {
    LeadMono(a, mid, d, m);
  }

  ghost predicate Passes(dbs: seq<Db>, root: Path) {
    dbs != [] && forall i :: 0 <= i < |dbs| - 1 ==> Pass(dbs[i], dbs[i + 1], root)
  }

  lemma {:induction false} AfterPasses(dbs: seq<Db>, root: Path, depth: nat, i: nat)
    requires Passes(dbs, root) && Repairable(dbs[0], root) && (forall p :: p in dbs[0] ==> |p| <= depth)
    requires i < |dbs|
    ensures Repairable(dbs[i], root)
    ensures i >= 1 ==> Complete(dbs[i], root) && StaleUpTo(dbs[i], root, depth - i)
  {
    hide Repairable, Rebuilt, Pruned, Complete, StaleUpTo;
    if i > 0 {
      AfterPasses(dbs, root, depth, i - 1);
      var a, b := dbs[i - 1], dbs[i];
      assert Pass(dbs[i - 1], dbs[i - 1 + 1], root);
      var mid :| Rebuilt(a, mid, root) && Pruned(mid, b, root);
      PassKeepsRepairable(a, mid, b, root);
      PassCompletes(a, mid, b, root);
      if i == 1 { FirstPass(a, mid, b, root, depth); } else { NextPass(a, mid, b, root, depth - (i - 1)); }
    }
  }

  /** A pass leads from the condition after its scan to the condition on its result. */
  lemma PassLoads(a: Db, b: Db, root: Path)
    requires Repairable(a, root) && Pass(a, b, root)
    ensures FilesLoad(b, root) <==> FilesLoadInScan(a, root)
  {
    var mid :| Rebuilt(a, mid, root) && Pruned(mid, b, root);
    hide Repairable, Rebuilt, Pruned, Pass, Reached, ReachedInScan, Listed, NeededFor, IsStr;
    PassStrings(a, mid, b, root);
    StringViews(a, b);
    if FilesLoad(b, root) {
      forall d: Path, m: Member | ReachedInScan(a, root, d) && m.File? && m in Members(a, d) && IsStr(a, Child(d, m))
        ensures IsStored(a, Child(d, m))
      {
        FileEntrySurvives(a, mid, b, root, d, m);
        assert StrAt(a, Child(d, m)) == StrAt(b, Child(d, m));
      }
    }
    if FilesLoadInScan(a, root) {
      forall d: Path, m: Member | Reached(b, root, d) && m.File? && m in Members(b, d) && IsStr(b, Child(d, m))
        ensures IsStored(b, Child(d, m))
      {
        FileEntryWas(a, mid, b, root, d, m);
        assert StrAt(a, Child(d, m)) == StrAt(b, Child(d, m));
      }
    }
  }

  lemma FileEntrySurvives(a: Db, mid: Db, b: Db, root: Path, d: Path, m: Member)
    requires Rebuilt(a, mid, root) && Pruned(mid, b, root)
    requires ReachedInScan(a, root, d) && m.File? && m in Members(a, d) && IsStr(a, Child(d, m))
    ensures Reached(b, root, d) && m in Members(b, d)
  {
    hide Rebuilt, Pruned, Reached, ReachedInScan, NeededFor;
    var k := Child(d, m);
    ScanKeeps(a, mid, root, d, m);
    FileEntryIsListed(a, mid, b, root, d, m);
    ListedEntry(b, root, k);
    assert k[..|k| - 1] == d && LinkAt(k, |k| - 1) == m;
  }

  lemma FileEntryWas(a: Db, mid: Db, b: Db, root: Path, d: Path, m: Member)
    requires Repairable(a, root) && Rebuilt(a, mid, root) && Pruned(mid, b, root)
    requires Reached(b, root, d) && m.File? && m in Members(b, d)
    ensures ReachedInScan(a, root, d) && (m in Members(a, d) || IsStored(a, Child(d, m)))
  {
    hide Repairable, Rebuilt, Pruned, Reached, ReachedInScan, NeededFor;
    PrunedHasLess(mid, b, root, d);
    ScanReaches(a, mid, root, d);
    ReachedBelow(mid, root, d, m);
    RebuiltAt(a, mid, root, d, m);
    if NeededFor(a, root, d, m) { NeededFileIsStored(a, root, d, m); }
  }

  /** On a complete index the scan changes nothing, so neither do the two conditions differ. */
  lemma CompleteLoads(db: Db, root: Path)
    requires Complete(db, root)
    ensures FilesLoad(db, root) <==> FilesLoadInScan(db, root)
  {
    hide NeededFor;
    forall d ensures ReachedInScan(db, root, d) <==> Reached(db, root, d) {}
  }

  /** Whether all strings that the index names load is settled before the first pass. */
  lemma {:induction false} LoadsAfterPasses(dbs: seq<Db>, root: Path, depth: nat, i: nat)
    requires Passes(dbs, root) && Repairable(dbs[0], root) && (forall p :: p in dbs[0] ==> |p| <= depth)
    requires 1 <= i < |dbs|
    ensures FilesLoad(dbs[i], root) <==> FilesLoadInScan(dbs[0], root)
  {
    hide Repairable, Pass, Complete, StaleUpTo, FilesLoad, FilesLoadInScan;
    assert Pass(dbs[i - 1], dbs[i - 1 + 1], root);
    AfterPasses(dbs, root, depth, i - 1);
    PassLoads(dbs[i - 1], dbs[i], root);
    if i > 1 {
      LoadsAfterPasses(dbs, root, depth, i - 1);
      CompleteLoads(dbs[i - 1], root);
    }
  }

  /** Within index depth plus one passes (counted below the root) the reachable index has
      every link of the stored keys and no stale entry; it is exactly that of the stored keys
      if and only if, before the first pass, no file entry that its scan reaches names a string
      that does not load. */
  lemma RepairConverges(dbs: seq<Db>, root: Path, depth: nat)
    requires Passes(dbs, root) && Repairable(dbs[0], root) && (forall p :: p in dbs[0] ==> |p| <= depth)
    requires |dbs| - 1 >= 1 && |dbs| - 1 >= depth - |root| + 1
    ensures var db := dbs[|dbs| - 1];
            && Exact(db, root)
            && ((forall d, m :: Reached(db, root, d) && m in Members(db, d) ==> NeededFor(db, root, d, m)) <==>
                FilesLoadInScan(dbs[0], root))
  {
    hide Repairable, Pass, LeadsTo, NeededFor, FilesLoad, FilesLoadInScan;
    var db := dbs[|dbs| - 1];
    AfterPasses(dbs, root, depth, |dbs| - 1);
    ExactIsNeededIff(db, root);
    LoadsAfterPasses(dbs, root, depth, |dbs| - 1);
  }

  /** From then on Repair changes nothing below the root, and nothing at all unless its scan
      meets keys of another prefix. */
  lemma ExactIsFixed(a: Db, b: Db, root: Path)
    requires Repairable(a, root) && Exact(a, root) && Pass(a, b, root)
    ensures SameStrings(a, b)
    ensures forall d :: Below(root, d) ==> Members(b, d) == Members(a, d)
    ensures (forall d, m :: !Below(root, d) && m in Members(b, d) ==> m in Members(a, d)) ==> b == a
  {
    var mid :| Rebuilt(a, mid, root) && Pruned(mid, b, root);
    PassStrings(a, mid, b, root);
    forall d | Below(root, d) ensures Members(b, d) == Members(a, d) { ExactDirectoryStays(a, mid, b, root, d); }
    if forall d, m :: !Below(root, d) && m in Members(b, d) ==> m in Members(a, d) {
      forall d ensures Members(b, d) == Members(a, d) {
        if !Below(root, d) { assert forall m :: m in Members(a, d) ==> m in Members(mid, d); }
      }
      SameViews(b, a);
    }
  }

  lemma ExactDirectoryStays(a: Db, mid: Db, b: Db, root: Path, d: Path)
    requires Exact(a, root) && Rebuilt(a, mid, root) && Pruned(mid, b, root) && Below(root, d)
    ensures Members(b, d) == Members(a, d)
  {
    hide Rebuilt, NeededFor, LeadsTo, Reached;
    ScanOfComplete(a, mid, root, d);
    forall m ensures m in Members(b, d) <==> m in Members(a, d) {
      if m in Members(a, d) && Reached(a, root, d) {
        assert LeadsTo(a, d, m);
        LeadInScan(a, mid, root, d, m);
        LeadStays(mid, b, root, d, m);
        LeadIsMember(b, d, m);
      }
    }
  }

  lemma LeadIsMember(db: Db, d: Path, m: Member)
    requires LeadsTo(db, d, m)
    ensures m in Members(db, d)
  {
    var k :| Listed(db, d, k) && LinkAt(k, |d|) == m && IsStr(db, k);
    assert Linked(db, k, |d|);
  }

  // ----- when one pass is enough -----

  /** Every directory entry whose directory is there, in a directory that is reached after
      the scan, leads to a string. */
  ghost predicate LiveDirectoriesLead(a: Db, root: Path) {
    forall d: Path, m: Member :: ReachedInScan(a, root, d) && m.Dir? && m in Members(a, d) && Child(d, m) in a ==>
      LeadsInScan(a, root, d, m)
  }

  ghost predicate LiveDirectoriesNeeded(a: Db, root: Path) {
    forall d: Path, m: Member :: ReachedInScan(a, root, d) && m.Dir? && m in Members(a, d) && Child(d, m) in a ==>
      NeededFor(a, root, d, m)
  }

  lemma RootIsNamed(a: Db, root: Path)
    requires Repairable(a, root)
    ensures |root| >= 1
  {}

  lemma LeadsIsNeeded(a: Db, root: Path, d: Path, m: Member)
    requires |root| >= 1 && ReachedInScan(a, root, d) && m.Dir? && FilesLoadInScan(a, root)
    ensures LeadsInScan(a, root, d, m) <==> NeededFor(a, root, d, m)
  {
    if LeadsInScan(a, root, d, m) {
      var k :| ListedInScan(a, root, d, k) && LinkAt(k, |d|) == m && IsStr(a, k);
      ListedInScanLoads(a, root, d, k);
      assert IsLink(k, 1, |k|, d, m);
    }
    if k :| IsStored(a, k) && Under(root, k) && IsLink(k, 1, |k|, d, m) {
      forall i | |d| <= i < |k| ensures InScan(a, root, k[..i], LinkAt(k, i)) {
        assert IsLink(k, 1, |k|, k[..i], LinkAt(k, i));
      }
      assert ListedInScan(a, root, d, k);
    }
  }

  lemma ListedInScanLoads(a: Db, root: Path, d: Path, k: Path)
    requires ReachedInScan(a, root, d) && ListedInScan(a, root, d, k) && IsStr(a, k) && FilesLoadInScan(a, root)
    ensures IsStored(a, k) && Under(root, k)
  {
    hide NeededFor;
    var e, m := k[..|k| - 1], LinkAt(k, |k| - 1);
    assert k[..|root|] == k[..|d|][..|root|] == root && e[..|root|] == k[..|root|];
    forall i | |root| <= i < |e| ensures InScan(a, root, e[..i], Dir(e[i])) {
      assert e[..i] == k[..i];
      if i < |d| { assert k[..i] == k[..|d|][..i] && k[i] == k[..|d|][i]; }
      else { assert InScan(a, root, k[..i], LinkAt(k, i)); }
    }
    assert InScan(a, root, e, m) && Child(e, m) == k;
    if NeededFor(a, root, e, m) { NeededFileIsStored(a, root, e, m); }
  }

  lemma NeededFileIsStored(a: Db, root: Path, d: Path, m: Member)
    requires m.File? && NeededFor(a, root, d, m)
    ensures IsStored(a, Child(d, m))
  {
    var k :| IsStored(a, k) && Under(root, k) && IsLink(k, 1, |k|, d, m);
    NeededChild(a, root, d, m, k);
  }

  /** One pass removes every stale entry if and only if every directory entry that the walk
      finds alive leads to a string.  The check for existence comes before the walk goes down,
      so a directory that this very pass empties keeps its entry in the parent.  Where all
      strings load, the condition is that some stored key needs every such entry. */
  lemma OnePassIsExactIff(a: Db, b: Db, root: Path)
    requires Repairable(a, root) && Pass(a, b, root)
    ensures Exact(b, root) <==> LiveDirectoriesLead(a, root)
    ensures FilesLoadInScan(a, root) ==> (Exact(b, root) <==> LiveDirectoriesNeeded(a, root))
  {
    var mid :| Rebuilt(a, mid, root) && Pruned(mid, b, root);
    hide Repairable, Rebuilt, Pruned, Pass, Reached, ReachedInScan, LeadsTo, LeadsInScan, NeededFor, Complete;
    PassCompletes(a, mid, b, root);
    if FilesLoadInScan(a, root) {
      assert |root| >= 1 by { RootIsNamed(a, root); }
      forall d: Path, m: Member | ReachedInScan(a, root, d) && m.Dir?
        ensures LeadsInScan(a, root, d, m) <==> NeededFor(a, root, d, m)
      {
        LeadsIsNeeded(a, root, d, m);
      }
    }
    if Exact(b, root) {
      forall d: Path, m: Member | ReachedInScan(a, root, d) && m.Dir? && m in Members(a, d) && Child(d, m) in a
        ensures LeadsInScan(a, root, d, m)
      {
        LiveEntryStays(a, mid, b, root, d, m);
        LeadBack(mid, b, root, d, m);
        ReachedBelow(mid, root, d, m);
        ScanLeads(a, mid, root, d, m);
      }
    }
    if LiveDirectoriesLead(a, root) {
      forall d, m | Reached(b, root, d) && m in Members(b, d) ensures LeadsTo(b, d, m) {
        if !LeadsTo(b, d, m) {
          var m2 := SurvivorHasStaleChild(a, mid, b, root, d, m);
          PrunedHasLess(mid, b, root, d);
          ScanReaches(a, mid, root, d);
          ScanLeads(a, mid, root, d, m);
          RebuiltAt(a, mid, root, d, m);
          if NeededFor(a, root, d, m) { NeededLeads(a, mid, root, d, m); }
        }
      }
    }
  }

  lemma LeadBack(mid: Db, b: Db, root: Path, d: Path, m: Member)
    requires Pruned(mid, b, root) && LeadsTo(b, d, m)
    ensures LeadsTo(mid, d, m)
  {
    LeadMono(b, mid, d, m);
  }

  lemma LiveEntryStays(a: Db, mid: Db, b: Db, root: Path, d: Path, m: Member)
    requires Repairable(a, root) && Rebuilt(a, mid, root) && Pruned(mid, b, root)
    requires ReachedInScan(a, root, d) && m in Members(a, d) && Child(d, m) in a
    ensures Reached(mid, root, d) && Reached(b, root, d) && m in Members(b, d)
  {
    hide Reached, ReachedInScan, NeededFor;
    ScanReaches(a, mid, root, d);
    ReachedStays(mid, b, root, d);
    StillThere(a, mid, root, Child(d, m));
  }

  /** What stays behind when one pass is not enough: the entry of a directory whose own
      entries all lead nowhere. */
  lemma EmptiedDirectoryKeepsEntry(a: Db, b: Db, root: Path, d: Path, name: string)
    requires Repairable(a, root) && Pass(a, b, root) && Reached(a, root, d) && Dir(name) in Members(a, d)
    requires var c := Child(d, Dir(name));
      c in a && (forall m :: m in Members(a, c) ==> Child(c, m) !in a) && forall k :: IsStored(a, k) ==> !Under(c, k)
    ensures Dir(name) in Members(b, d) && Child(d, Dir(name)) !in b
  {
    var c := Child(d, Dir(name));
    var mid :| Rebuilt(a, mid, root) && Pruned(mid, b, root);
    assert Reached(mid, root, d) && Dir(name) in Members(mid, d) by { ReachedMono(a, mid, root, d); }
    ReachedBelow(mid, root, d, Dir(name));
    assert c in mid by { StillThere(a, mid, root, c); }
    hide Repairable, Rebuilt, Reached;
    forall m ensures m !in Members(b, c) { EmptiedEntry(a, mid, b, root, c, m); }
    assert !IsStr(mid, c) by { RebuiltEntry(a, mid, root, d, Dir(name)); }
    assert Members(b, c) == {} && StrAt(b, c) == StrAt(mid, c);
  }

  lemma StillThere(a: Db, mid: Db, root: Path, c: Path)
    requires NoEmptySet(a) && Rebuilt(a, mid, root) && c in a
    ensures c in mid
  {
    assert StrAt(mid, c) == StrAt(a, c);
    if !IsStr(a, c) {
      SetHasMember(a, c);
      var m :| m in Members(a, c);
      assert m in Members(mid, c);
    }
  }

  lemma EmptiedEntry(a: Db, mid: Db, b: Db, root: Path, c: Path, m: Member)
    requires Rebuilt(a, mid, root) && Pruned(mid, b, root) && Reached(mid, root, c)
    requires (m in Members(a, c) ==> Child(c, m) !in a) && forall k :: IsStored(a, k) ==> !Under(c, k)
    ensures m !in Members(b, c)
  {
    var e := Child(c, m);
    assert !NeededFor(a, root, c, m);
    forall m2 ensures !NeededFor(a, root, e, m2) {
      forall k | IsLink(k, 1, |k|, e, m2) ensures Under(c, k) { ChildUnder(c, m, k); }
    }
    if m in Members(a, c) {
      assert StrAt(mid, e) == StrAt(a, e) && forall m2 :: m2 !in Members(mid, e);
      assert Members(mid, e) == {};
    }
  }

  /** A database for which one pass is not enough. */
  lemma OnePassLeavesStaleEntry()
    ensures var root, d: Path := ["caddy"], ["caddy", "d"];
            var a: Db := map[root := ZSet({Dir("d")}), d := ZSet({File("x")})];
            var b: Db := map[root := ZSet({Dir("d")})];
            Repairable(a, root) && Pass(a, b, root) && !Exact(b, root)
  {
    var root, d: Path := ["caddy"], ["caddy", "d"];
    var a: Db := map[root := ZSet({Dir("d")}), d := ZSet({File("x")})];
    var b: Db := map[root := ZSet({Dir("d")})];
    assert Child(root, Dir("d")) == d && d[..1] == root && Child(d, File("x")) == ["caddy", "d", "x"];
    assert forall p, m :: m in Members(a, p) <==> (p == root && m == Dir("d")) || (p == d && m == File("x"));
    assert Reached(a, root, root) && Reached(a, root, d);
    assert Rebuilt(a, a, root);
    assert Pruned(a, b, root);
    assert Reached(b, root, root) && Dir("d") in Members(b, root);
    assert forall k :: !IsStr(b, k);
  }

  // ----- Repair heals an interrupted Store -----

  /** An index without stale entries, with any links missing, is one that Repair is for. */
  lemma LinksOnlyIsRepairable(db: Db, root: Path)
    requires |root| >= 1 && NoEmptySet(db) && Clear(db, root, |root|) && !IsStr(db, root)
    requires forall d, k :: Below(root, d) && IsStr(db, d) && IsStored(db, k) ==> !Under(d, k)
    requires forall d, m :: Below(root, d) && m in Members(db, d) ==> Needed(db, d, m)
    ensures Repairable(db, root)
  {
    StringsAboveAreOwn(db, root);
    forall d, m | Below(root, d) && m in Members(db, d) ensures EntryFits(db, d, m) {
      var k :| IsStored(db, k) && Under(d, k) && LinkAt(k, |d|) == m;
      LinkChild(k, |d|);
      BelowChild(root, d, m);
      assert m.File? ==> Child(d, m) == k;
      assert m.Dir? ==> Under(Child(d, m), k);
    }
  }

  lemma StringsAboveAreOwn(db: Db, root: Path)
    requires Clear(db, root, |root|)
    ensures forall d, k :: d != [] && IsStr(db, d) && Below(root, k) && Under(d, k) ==> Below(root, d)
  {
    forall d, k | d != [] && IsStr(db, d) && Below(root, k) && Under(d, k) ensures Below(root, d) {
      StringAboveIsOwn(db, root, d, k);
    }
  }

  lemma TornIsRepairable(r: Db, root: Path, k: Path, lo: nat, top: nat)
    requires Torn(r, root, k, lo, top)
    ensures Repairable(r, root)
  {
    assert Below(root, root) && Under(root, k);
    LinksOnlyIsRepairable(r, root);
  }

  lemma ConsistentIsRepairable(db: Db, root: Path)
    requires Consistent(db, root) && !IsStr(db, root)
    ensures Repairable(db, root)
  {
    LinksOnlyIsRepairable(db, root);
  }

  /** After a Store that was cut late and re-run, and any clash-free run of further Stores, one
      Repair lists every stored key, with its value. */
  lemma RepairHealsCutStore(db: Db, root: Path, k: Path, bytes: string, commands: nat, ops: seq<Op>, b: Db, p: Path)
    requires Consistent(db, root) && Below(root, k) && !Conflict(db, k) && 0 < commands < NewLinksIn(db, root, k)
    requires var r := Rerun(db, k, Record(bytes), commands).conn.db; AllPuts(ops) && ClashFree(Own(r, root), root, ops)
    requires Pass(Run(Rerun(db, k, Record(bytes), commands).conn.db, ops), b, root)
    ensures var s := Run(Rerun(db, k, Record(bytes), commands).conn.db, ops);
            && (IsStored(s, p) && Under(root, p) ==> Listed(b, root, p))
            && StrAt(b, p) == StrAt(s, p)
  {
    hide Consistent, Conflict, Repairable, Pass, Listed, LinkUp, Torn, NewLinks, Rerun, ClashFree, SomeSibling;
    var r, lo := Rerun(db, k, Record(bytes), commands).conn.db, |k| - commands;
    var top := RerunIsTorn(db, root, k, bytes, commands);
    var t := RunOnTorn(r, root, k, lo, top, ops);
    var s := Run(r, ops);
    if SomeSibling(ops, k, lo) {
      RootIsNoString(s, root, k);
      ConsistentIsRepairable(s, root);
    } else {
      TornIsRepairable(s, root, k, lo, t);
    }
    StringViews(s, b);
    OnePassListsStored(s, b, root, p);
  }

  lemma RootIsNoString(db: Db, root: Path, k: Path)
    requires Consistent(db, root) && IsStored(db, k) && Under(root, k)
    ensures !IsStr(db, root)
  {
    assert Below(root, root);
  }
}
