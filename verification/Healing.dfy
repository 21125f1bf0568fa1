/** After a Store that was cut late and re-run, links of its key are missing.  Repair puts
    them back (module Repair); this module says which runs of Stores do, and which keys stay
    out of every listing until then. */
module Healing {
  import opened Common
  import opened Redis
  import opened DirectoryIndex
  import opened Interrupted
  import opened Sequential

  /** The index below the root is exact but for the links of `k` at the levels from `top`
      below `lo`: the directory `k[..lo]` is torn off.  Below it, all keys go through the same
      entry as `k`, and nothing else is stored below the first missing link. */
  ghost predicate Torn(r: Db, root: Path, k: Path, lo: nat, top: nat) {
    && 1 <= |root| <= top < lo < |k| && Below(root, k) && NoEmptySet(r) && Clear(r, root, |root|) && IsStored(r, k)
    && (forall d, p :: Below(root, d) && IsStr(r, d) && IsStored(r, p) ==> !Under(d, p))
    && (forall d, m :: Below(root, d) ==> (m in Members(r, d) <==> Needed(r, d, m) && !IsLink(k, top, lo, d, m)))
    && (forall p :: IsStored(r, p) && Under(k[..top + 1], p) ==> Under(k[..lo], p) && LinkAt(p, lo) == LinkAt(k, lo))
  }

  lemma TornMember(r: Db, root: Path, k: Path, lo: nat, top: nat, d: Path, m: Member)
    requires Torn(r, root, k, lo, top) && Below(root, d)
    ensures m in Members(r, d) <==> Needed(r, d, m) && !IsLink(k, top, lo, d, m)
  {}

  lemma TornKey(r: Db, root: Path, k: Path, lo: nat, top: nat, p: Path)
    requires Torn(r, root, k, lo, top) && IsStored(r, p)
    ensures lo < |k| && top < |k|
    ensures Under(k[..top + 1], p) ==> Under(k[..lo], p) && LinkAt(p, lo) == LinkAt(k, lo)
  {}

  lemma Prefix(a: Path, b: Path, n: nat, x: nat)
    requires x <= n <= |a| && n <= |b| && a[..n] == b[..n]
    ensures a[..x] == b[..x] && (x < n ==> a[x] == b[x])
  {
    assert a[..x] == a[..n][..x] == b[..n][..x];
    if x < n { assert a[x] == a[..n][x] == b[..n][x]; }
  }

  lemma PrefixNext(a: Path, b: Path, n: nat)
    requires n < |a| && n < |b| && a[..n] == b[..n] && a[n] == b[n]
    ensures a[..n + 1] == b[..n + 1]
  {
    assert a[..n + 1] == a[..n] + [a[n]] && b[..n + 1] == b[..n] + [b[n]];
  }

  /** A key with a missing link lies below the first missing link. */
  lemma MissingIsUnder(k: Path, lo: nat, top: nat, p: Path, i: nat)
    requires top < lo < |k| && i < |p|
    ensures IsLink(k, top, lo, p[..i], LinkAt(p, i)) ==>
              Under(k[..top + 1], p) && i + 1 < |p| && p[..i + 1] == k[..i + 1]
  {
    if IsLink(k, top, lo, p[..i], LinkAt(p, i)) {
      PrefixNext(p, k, i);
      Prefix(p, k, i + 1, top + 1);
    }
  }

  // ----- the start -----

  lemma RerunIsTorn(db: Db, root: Path, k: Path, bytes: string, commands: nat) returns (top: nat)
    requires Consistent(db, root) && Below(root, k) && !Conflict(db, k) && 0 < commands < NewLinksIn(db, root, k)
    ensures Torn(Rerun(db, k, Record(bytes), commands).conn.db, root, k, |k| - commands, top)
  {
    hide LinkUp, Store, Consistent, Conflict, Clear, UpClosed, Grown, Linked, NewLinks, Torn;
    var added := NewLinks(db, k, |k|);
    ConsistentIsClear(db, root, k);
    LateCutFails(db, root, k, Record(bytes), commands);
    RerunKeepsCut(db, k, Record(bytes), commands);
    var cut := LinkUp(Conn(db, Left(commands)), k, false, false).conn.db;
    top := if |k| - added >= |root| then |k| - added else |root|;
    CutIsTorn(db, cut, root, k, Record(bytes), commands, top);
  }

  lemma CutIsTorn(db: Db, cut: Db, root: Path, k: Path, v: Value, commands: nat, top: nat)
    requires Consistent(db, root) && Below(root, k) && !Conflict(db, k) && 0 < commands < NewLinksIn(db, root, k)
    requires v.Record? && Grown(db, cut, k, |k| - commands, |k|)
    requires var t := |k| - NewLinks(db, k, |k|); top == if t >= |root| then t else |root|
    ensures Torn(cut[k := Str(v)], root, k, |k| - commands, top)
  {
    hide NewLinks, Grown, Linked, IsLink, OutsideKept;
    var r, lo := cut[k := Str(v)], |k| - commands;
    assert NewLinks(db, k, |k|) < |k|;
    CutKeepsRest(db, cut, root, k, v, commands);
    StringViews(db, r);
    NewLinksAreMissing(db, k, |k|, top);
    NothingStoredBelow(db, root, k, top);
    forall i | 1 <= i < |root| ensures !IsStr(r, root[..i]) { assert !IsStr(db, root[..i]); }
    CutHasNoSet(db, cut, root, k, lo);
    CutSets(db, cut, k, lo, v);
    assert Under(k[..lo], k);
    forall d, m | Below(root, d) ensures m in Members(r, d) <==> Needed(r, d, m) && !IsLink(k, top, lo, d, m) {
      NeededAfterStore(db, r, k, d, m);
      CutLevels(db, root, k, lo, top, d, m);
    }
  }

  lemma CutSets(db: Db, cut: Db, k: Path, lo: nat, v: Value)
    requires lo <= |k| && Grown(db, cut, k, lo, |k|) && Members(cut, k) == {}
    ensures NoEmptySet(cut[k := Str(v)])
    ensures forall d, m :: m in Members(cut[k := Str(v)], d) <==> m in Members(db, d) || IsLink(k, lo, |k|, d, m)
  {
    assert forall d :: Members(cut[k := Str(v)], d) == Members(cut, d);
  }

  lemma CutHasNoSet(db: Db, cut: Db, root: Path, k: Path, lo: nat)
    requires Consistent(db, root) && Below(root, k) && !Conflict(db, k) && lo <= |k| && Grown(db, cut, k, lo, |k|)
    ensures Members(cut, k) == {}
  {
    NoSetWithoutStored(db, root, k);
    assert forall m :: m in Members(cut, k) <==> m in Members(db, k) || IsLink(k, lo, |k|, k, m);
  }

  /** Below a missing link nothing is stored. */
  lemma NothingStoredBelow(db: Db, root: Path, k: Path, top: nat)
    requires Consistent(db, root) && Below(root, k) && |root| <= top && top + 1 < |k| && !Linked(db, k, top)
    ensures forall p :: IsStored(db, p) ==> !Under(k[..top + 1], p)
  {
    BelowPrefix(root, k, top);
    forall p | IsStored(db, p) ensures !Under(k[..top + 1], p) { UnderNext(k, p, top); }
  }

  lemma UnderNext(k: Path, p: Path, top: nat)
    requires top + 1 < |k|
    ensures Under(k[..top + 1], p) ==> Under(k[..top], p) && LinkAt(p, top) == LinkAt(k, top)
  {
    if Under(k[..top + 1], p) { Prefix(p, k, top + 1, top); }
  }

  /** The links of `k` that were there before the cut lie above `top`. */
  lemma LinkedLevel(db: Db, root: Path, k: Path, top: nat, i: nat)
    requires Consistent(db, root) && Below(root, k) && 1 <= |root| <= i < |k|
    requires var t := |k| - NewLinks(db, k, |k|); top == if t >= |root| then t else |root|
    ensures Linked(db, k, i) <==> i < top
  {
    hide Consistent, Linked, NewLinks;
    if i >= top { NewLinksAreMissing(db, k, |k|, i); }
    else { NewLinksStop(db, k, |k|); ConsistentUpClosed(db, root, k); }
  }

  lemma CutLevels(db: Db, root: Path, k: Path, lo: nat, top: nat, d: Path, m: Member)
    requires Consistent(db, root) && Below(root, k) && |root| <= top < lo < |k| && Below(root, d)
    requires var t := |k| - NewLinks(db, k, |k|); top == if t >= |root| then t else |root|
    ensures m in Members(db, d) <==> Needed(db, d, m)
    ensures (Under(d, k) && LinkAt(k, |d|) == m) <==> IsLink(k, 1, |k|, d, m)
    ensures IsLink(k, lo, |k|, d, m) <==> IsLink(k, 1, |k|, d, m) && |d| >= lo
    ensures IsLink(k, top, lo, d, m) <==> IsLink(k, 1, |k|, d, m) && top <= |d| < lo
    ensures IsLink(k, 1, |k|, d, m) ==> (m in Members(db, d) <==> |d| < top)
  {
    hide NewLinks;
    if IsLink(k, 1, |k|, d, m) { LinkedLevel(db, root, k, top, |d|); }
  }

  // ----- one Store -----

  lemma NoStringAbove(r: Db, j: Path)
    requires !Conflict(r, j)
    ensures Clear(r, j, |j|)
  {
    forall x | 1 <= x < |j| ensures !IsStr(r, j[..x]) { assert Under(j[..x], j); }
  }

  lemma StoreGrows(r: Db, j: Path, v: Value) returns (full: Db)
    requires NoEmptySet(r) && |j| >= 1 && !Conflict(r, j)
    ensures Store(Conn(r, Unlimited), j, v) == Ok(Conn(full[j := Str(v)], Unlimited), true)
    ensures Grown(r, full, j, |j| - NewLinks(r, j, |j|), |j|)
  {
    hide LinkUp, NoEmptySet, Clear, NewLinks, Conflict, Grown;
    NoStringAbove(r, j);
    assert j[..|j|] == j;
    LinkUpCut(r, Unlimited, j, |j|);
    LinkUpOutcome(r, Unlimited, j, |j|);
    full := LinkUp(Conn(r, Unlimited), j, false, false).conn.db;
  }

  /** The keys go through the same entry of the torn directory. */
  predicate GoesThrough(j: Path, k: Path, lo: nat) {
    lo < |j| && lo < |k| && j[..lo] == k[..lo] && LinkAt(j, lo) == LinkAt(k, lo)
  }

  /** Where a link of `j` is there, the links above are too, unless they are missing ones. */
  lemma LinkedAbove(r: Db, root: Path, k: Path, lo: nat, top: nat, j: Path, x: nat, y: nat)
    requires Torn(r, root, k, lo, top) && Below(root, j) && |root| <= y <= x < |j| && Linked(r, j, x)
    requires !IsLink(k, top, lo, j[..y], LinkAt(j, y))
    ensures Linked(r, j, y)
  {
    hide Torn, IsLink;
    BelowPrefix(root, j, x);
    BelowPrefix(root, j, y);
    TornMember(r, root, k, lo, top, j[..x], LinkAt(j, x));
    TornMember(r, root, k, lo, top, j[..y], LinkAt(j, y));
    NeededAbove(r, j, x, y);
  }

  lemma NeededAbove(r: Db, j: Path, x: nat, y: nat)
    requires y <= x < |j| && Needed(r, j[..x], LinkAt(j, x))
    ensures Needed(r, j[..y], LinkAt(j, y))
  {
    var p :| IsStored(r, p) && Under(j[..x], p) && LinkAt(p, x) == LinkAt(j, x);
    if y < x {
      Prefix(p, j, x, y);
      assert Under(j[..y], p) && LinkAt(p, y) == LinkAt(j, y);
    }
  }

  /** If a link of `j` is a missing one and a lower link of `j` is needed by a key below the
      tear, then that one is missing as well, or `j` goes through the torn entry. */
  lemma TearLogic(k: Path, lo: nat, top: nat, j: Path, p: Path, x: nat, y: nat)
    requires top < lo < |k| && y <= x < |j| && Under(j[..x], p) && LinkAt(p, x) == LinkAt(j, x)
    requires Under(k[..top + 1], p) ==> Under(k[..lo], p) && LinkAt(p, lo) == LinkAt(k, lo)
    ensures IsLink(k, top, lo, j[..y], LinkAt(j, y)) ==>
              GoesThrough(j, k, lo) || IsLink(k, top, lo, j[..x], LinkAt(j, x))
  {
    if IsLink(k, top, lo, j[..y], LinkAt(j, y)) && y < x {
      MissingIsUnder(k, lo, top, j, y);
      Prefix(p, j, x, y + 1);
      Prefix(p, k, y + 1, top + 1);
      assert Under(k[..top + 1], p);
      if x < lo { Prefix(p, k, lo, x); } else { Prefix(p, j, x, lo); }
    }
  }

  /** Outside the torn entry, a link of `j` that is there is above every missing one. */
  lemma MissingIsLower(r: Db, root: Path, k: Path, lo: nat, top: nat, j: Path, x: nat, y: nat)
    requires Torn(r, root, k, lo, top) && Below(root, j) && |root| <= y <= x < |j| && Linked(r, j, x)
    requires !GoesThrough(j, k, lo)
    ensures !IsLink(k, top, lo, j[..y], LinkAt(j, y))
  {
    hide Torn, IsLink, GoesThrough;
    BelowPrefix(root, j, x);
    TornMember(r, root, k, lo, top, j[..x], LinkAt(j, x));
    var p :| IsStored(r, p) && Under(j[..x], p) && LinkAt(p, x) == LinkAt(j, x);
    TornRoot(r, root, k, lo, top);
    TornKey(r, root, k, lo, top, p);
    TearLogic(k, lo, top, j, p, x, y);
  }

  lemma TornRoot(r: Db, root: Path, k: Path, lo: nat, top: nat)
    requires Torn(r, root, k, lo, top)
    ensures 1 <= |root| <= top < lo < |k| && NoEmptySet(r) && Clear(r, root, |root|) && IsStored(r, k) && Below(root, k)
    ensures LinkAt(k, lo) in Members(r, k[..lo]) && !Linked(r, k, lo - 1)
  {
    BelowPrefix(root, k, lo);
    BelowPrefix(root, k, lo - 1);
    assert Under(k[..lo], k) && Needed(r, k[..lo], LinkAt(k, lo));
    assert IsLink(k, top, lo, k[..lo - 1], LinkAt(k, lo - 1)) && !IsLink(k, top, lo, k[..lo], LinkAt(k, lo));
  }

  /** All links of `j` from level `lo` on are in place, if those above the first new one were. */
  lemma AllInPlace(r: Db, full: Db, j: Path, lo: nat)
    requires 1 <= lo <= |j| && Grown(r, full, j, |j| - NewLinks(r, j, |j|), |j|)
    requires forall y :: lo <= y < |j| - NewLinks(r, j, |j|) ==> Linked(r, j, y)
    ensures GrownDownFrom(r, full, j, lo)
  {
    hide NewLinks;
    var n := NewLinks(r, j, |j|);
    forall d, m | IsLink(j, lo, |j|, d, m) ensures m in Members(full, d) {
      if |d| < |j| - n { assert Linked(r, j, |d|); } else { assert IsLink(j, |j| - n, |j|, d, m); }
    }
    assert forall d, m :: IsLink(j, |j| - n, |j|, d, m) ==> IsLink(j, 1, |j|, d, m);
  }

  /** A Store outside the torn entry leaves all its links in place. */
  lemma StoreLinksAll(r: Db, root: Path, k: Path, lo: nat, top: nat, j: Path, full: Db)
    requires Torn(r, root, k, lo, top) && Below(root, j) && !GoesThrough(j, k, lo)
    requires Grown(r, full, j, |j| - NewLinks(r, j, |j|), |j|)
    ensures GrownDownFrom(r, full, j, |root|)
  {
    hide Torn, NewLinks, Linked, Grown, GoesThrough, GrownDownFrom, IsLink;
    var x := |j| - NewLinks(r, j, |j|) - 1;
    TornRoot(r, root, k, lo, top);
    NewLinksStop(r, j, |j|);
    forall y | |root| <= y <= x ensures Linked(r, j, y) {
      MissingIsLower(r, root, k, lo, top, j, x, y);
      LinkedAbove(r, root, k, lo, top, j, x, y);
    }
    AllInPlace(r, full, j, |root|);
  }

  /** A Store through the torn entry stops there: its links below the tear are in place, and
      nothing above it changes. */
  lemma StoreStopsAtTear(r: Db, root: Path, k: Path, lo: nat, top: nat, j: Path, full: Db)
    requires Torn(r, root, k, lo, top) && Below(root, j) && GoesThrough(j, k, lo)
    requires Grown(r, full, j, |j| - NewLinks(r, j, |j|), |j|)
    ensures GrownDownFrom(r, full, j, lo)
    ensures forall d, m :: |d| < lo ==> (m in Members(full, d) <==> m in Members(r, d))
  {
    hide Torn, NewLinks, GrownDownFrom, Grown, IsLink;
    var x := |j| - NewLinks(r, j, |j|) - 1;
    TornRoot(r, root, k, lo, top);
    assert Linked(r, j, lo);
    assert lo <= x by { if x + 1 <= lo { NewLinksAreMissing(r, j, |j|, lo); } }
    NewLinksStop(r, j, |j|);
    forall y | lo <= y <= x ensures Linked(r, j, y) {
      NotMissing(k, lo, top, j, y);
      LinkedAbove(r, root, k, lo, top, j, x, y);
    }
    AllInPlace(r, full, j, lo);
    NothingAbove(r, full, j, x + 1, lo);
  }

  lemma NotMissing(k: Path, lo: nat, top: nat, j: Path, y: nat)
    requires lo < |k| && lo <= y < |j|
    ensures !IsLink(k, top, lo, j[..y], LinkAt(j, y))
  {}

  lemma NothingAbove(r: Db, full: Db, j: Path, low: nat, lo: nat)
    requires lo <= low <= |j| && Grown(r, full, j, low, |j|)
    ensures forall d, m :: |d| < lo ==> (m in Members(full, d) <==> m in Members(r, d))
  {
    forall d, m | |d| < lo ensures m in Members(full, d) <==> m in Members(r, d) {
      assert !IsLink(j, low, |j|, d, m);
    }
  }

  // ----- what is torn afterwards -----

  lemma TornBasics(r: Db, root: Path, k: Path, lo: nat, top: nat, j: Path, full: Db, v: Value)
    requires Torn(r, root, k, lo, top) && Below(root, j) && !Conflict(r, j) && v.Record?
    requires GrownDownFrom(r, full, j, lo)
    ensures var s := full[j := Str(v)];
      && NoEmptySet(s) && Clear(s, root, |root|) && IsStored(s, k) && (forall d :: Members(s, d) == Members(full, d))
      && (forall p :: IsStored(s, p) <==> IsStored(r, p) || p == j)
      && (forall d, p :: Below(root, d) && IsStr(s, d) && IsStored(s, p) ==> !Under(d, p))
  {
    var s := full[j := Str(v)];
    forall p ensures StrAt(s, p) == if p == j then Some(v) else StrAt(r, p) { assert StrAt(full, p) == StrAt(r, p); }
    StringViews(r, s);
    assert Members(full, j) == {} by {
      assert forall m :: m in Members(r, j) ==> Needed(r, j, m);
      assert forall m :: m in Members(full, j) ==> m in Members(r, j) || IsLink(j, 1, |j|, j, m);
    }
    forall i | 1 <= i < |root| ensures !IsStr(s, root[..i]) { assert !IsStr(r, root[..i]); }
  }

  /** Whether a missing link of `k` is also a link of `j`. */
  lemma SharedMissing(j: Path, k: Path, top: nat, lo: nat, d: Path, m: Member)
    requires top < lo < |k|
    ensures IsLink(k, top, lo, d, m) ==>
              (IsLink(j, 1, |j|, d, m) <==> |d| >= 1 && |d| + 1 < |j| && j[..|d| + 1] == k[..|d| + 1])
  {
    if IsLink(k, top, lo, d, m) {
      assert k[..|d| + 1] == k[..|d|] + [k[|d|]];
      if |d| < |j| { assert j[..|d| + 1] == j[..|d|] + [j[|d|]]; }
      if |d| + 1 < |j| && j[..|d| + 1] == k[..|d| + 1] { Prefix(j, k, |d| + 1, |d|); }
    }
  }

  /** A Store through the torn entry leaves the tear as it is. */
  lemma ThroughStaysTorn(r: Db, root: Path, k: Path, lo: nat, top: nat, j: Path, full: Db, v: Value)
    requires Torn(r, root, k, lo, top) && Below(root, j) && !Conflict(r, j) && v.Record? && GoesThrough(j, k, lo)
    requires GrownDownFrom(r, full, j, lo)
    requires forall d, m :: |d| < lo ==> (m in Members(full, d) <==> m in Members(r, d))
    ensures Torn(full[j := Str(v)], root, k, lo, top)
  {
    var s := full[j := Str(v)];
    TornBasics(r, root, k, lo, top, j, full, v);
    Prefix(j, k, lo, top + 1);
    forall d, m | Below(root, d) ensures m in Members(s, d) <==> Needed(s, d, m) && !IsLink(k, top, lo, d, m) {
      NeededAfterStore(r, s, j, d, m);
      ThroughNeeds(r, k, j, lo, d, m);
      assert IsLink(j, lo, |j|, d, m) <==> |d| >= lo && Under(d, j) && LinkAt(j, |d|) == m;
    }
  }

  lemma ThroughNeeds(r: Db, k: Path, j: Path, lo: nat, d: Path, m: Member)
    requires GoesThrough(j, k, lo) && IsStored(r, k)
    ensures |d| < lo && Under(d, j) && LinkAt(j, |d|) == m ==> Needed(r, d, m)
  {
    if |d| < lo && Under(d, j) && LinkAt(j, |d|) == m {
      Prefix(j, k, lo, |d|);
      assert Under(d, k) && LinkAt(k, |d|) == m;
    }
  }

  function Max(a: nat, b: nat): nat { if a < b then b else a }

  /** A Store that parts from `k` at level `c` heals the missing links above that level. */
  lemma MissingShrinks(k: Path, lo: nat, top: nat, j: Path, c: nat, d: Path, m: Member)
    requires 1 <= top < lo < |k| && ShareExactly(j, k, c) && c <= lo
    ensures IsLink(k, Max(top, c), lo, d, m) <==> IsLink(k, top, lo, d, m) && !IsLink(j, 1, |j|, d, m)
  {
    SharedMissing(j, k, top, lo, d, m);
    if IsLink(k, top, lo, d, m) {
      if |d| < c { Prefix(j, k, c, |d| + 1); }
      else if |d| + 1 < |j| && j[..|d| + 1] == k[..|d| + 1] { Prefix(j, k, |d| + 1, c); }
    }
  }

  /** A Store outside the torn entry: what is missing afterwards. */
  lemma OutsideShrinks(r: Db, root: Path, k: Path, lo: nat, top: nat, j: Path, c: nat, full: Db, v: Value)
    requires Torn(r, root, k, lo, top) && Below(root, j) && !Conflict(r, j) && v.Record?
    requires ShareExactly(j, k, c) && c <= lo && GrownDownFrom(r, full, j, |root|)
    ensures var s := full[j := Str(v)];
            if c == lo then Consistent(s, root) else Torn(s, root, k, lo, Max(top, c))
  {
    hide Torn, Conflict, IsLink, Needed;
    var s := full[j := Str(v)];
    TornRoot(r, root, k, lo, top);
    DownFromLower(r, full, j, |root|, lo);
    TornBasics(r, root, k, lo, top, j, full, v);
    forall d, m | Below(root, d) ensures m in Members(s, d) <==> Needed(s, d, m) && !IsLink(k, Max(top, c), lo, d, m) {
      NeededAfterStore(r, s, j, d, m);
      MissingShrinks(k, lo, top, j, c, d, m);
      TornMember(r, root, k, lo, top, d, m);
      OwnLink(r, full, root, j, d, m);
    }
    if c < lo {
      forall p | IsStored(s, p) && Under(k[..Max(top, c) + 1], p)
        ensures Under(k[..lo], p) && LinkAt(p, lo) == LinkAt(k, lo)
      {
        PartedKey(k, top, c, j, p);
        TornKey(r, root, k, lo, top, p);
      }
      TornAgain(s, root, k, lo, Max(top, c));
    } else {
      HealedAgain(s, root, k, lo, Max(top, c));
    }
  }

  lemma TornAgain(s: Db, root: Path, k: Path, lo: nat, t: nat)
    requires 1 <= |root| <= t < lo < |k| && Below(root, k) && NoEmptySet(s) && Clear(s, root, |root|) && IsStored(s, k)
    requires forall d, p :: Below(root, d) && IsStr(s, d) && IsStored(s, p) ==> !Under(d, p)
    requires forall d, m :: Below(root, d) ==> (m in Members(s, d) <==> Needed(s, d, m) && !IsLink(k, t, lo, d, m))
    requires forall p :: IsStored(s, p) && Under(k[..t + 1], p) ==> Under(k[..lo], p) && LinkAt(p, lo) == LinkAt(k, lo)
    ensures Torn(s, root, k, lo, t)
  {}

  lemma HealedAgain(s: Db, root: Path, k: Path, lo: nat, t: nat)
    requires 1 <= |root| && lo <= t && lo < |k| && NoEmptySet(s) && Clear(s, root, |root|)
    requires forall d, p :: Below(root, d) && IsStr(s, d) && IsStored(s, p) ==> !Under(d, p)
    requires forall d, m :: Below(root, d) ==> (m in Members(s, d) <==> Needed(s, d, m) && !IsLink(k, t, lo, d, m))
    ensures Consistent(s, root)
  {
    assert forall d, m :: !IsLink(k, t, lo, d, m);
  }

  lemma DownFromLower(r: Db, full: Db, j: Path, lo: nat, hi: nat)
    requires lo <= hi && GrownDownFrom(r, full, j, lo)
    ensures GrownDownFrom(r, full, j, hi)
  {
    assert forall d, m :: IsLink(j, hi, |j|, d, m) ==> IsLink(j, lo, |j|, d, m);
  }

  lemma OwnLink(r: Db, full: Db, root: Path, j: Path, d: Path, m: Member)
    requires 1 <= |root| && GrownDownFrom(r, full, j, |root|) && Below(root, d)
    ensures m in Members(full, d) <==> m in Members(r, d) || IsLink(j, 1, |j|, d, m)
    ensures IsLink(j, 1, |j|, d, m) <==> Under(d, j) && LinkAt(j, |d|) == m
  {
    assert IsLink(j, |root|, |j|, d, m) <==> IsLink(j, 1, |j|, d, m);
  }

  /** A key below the rest of the tear is below the whole tear, and is not the new one. */
  lemma PartedKey(k: Path, top: nat, c: nat, j: Path, p: Path)
    requires top < |k| && ShareExactly(j, k, c) && Under(k[..Max(top, c) + 1], p)
    ensures Under(k[..top + 1], p) && p != j
  {
    Prefix(p, k, Max(top, c) + 1, top + 1);
    Prefix(p, k, Max(top, c) + 1, c);
  }

  /** Two keys, neither above the other, are equal, go through the same entry of the torn
      directory, or part at or above it. */
  lemma WhereKeysPart(r: Db, k: Path, lo: nat, j: Path) returns (c: nat)
    requires IsStored(r, k) && !Conflict(r, j) && 1 <= lo < |k| && |j| >= 1
    ensures GoesThrough(j, k, lo) || (c <= lo && ShareExactly(j, k, c))
    ensures GoesThrough(j, k, lo) ==> !ShareExactly(j, k, lo)
  {
    assert j[..0] == k[..0];
    CommonIsShared(j, k, 0);
    c := CommonLength(j, k, 0);
    assert !Under(j, k) && !Under(k, j);
    assert c == |j| ==> j[..c] == j;
    assert c == |k| ==> k[..c] == k;
    if c > lo { Prefix(j, k, c, lo); }
  }

  /** One Store of a key without conflict on a torn index: the index is exact if the keys part
      in the torn directory, and torn otherwise. */
  lemma StoreOnTorn(r: Db, root: Path, k: Path, lo: nat, top: nat, j: Path, bytes: string) returns (top': nat)
    requires Torn(r, root, k, lo, top) && Below(root, j) && !Conflict(r, j)
    ensures var after := Store(Conn(r, Unlimited), j, Record(bytes));
            && after.Ok?
            && (forall p :: StrAt(after.conn.db, p) == if p == j then Some(Record(bytes)) else StrAt(r, p))
            && if ShareExactly(j, k, lo) then Consistent(after.conn.db, root)
               else Torn(after.conn.db, root, k, lo, top')
  {
    hide Torn, Store, Consistent, Conflict, GrownDownFrom, NewLinks;
    TornRoot(r, root, k, lo, top);
    var v := Record(bytes);
    var full := StoreGrows(r, j, v);
    var c := WhereKeysPart(r, k, lo, j);
    forall p ensures StrAt(full[j := Str(v)], p) == if p == j then Some(v) else StrAt(r, p) {
      assert StrAt(full, p) == StrAt(r, p);
    }
    if GoesThrough(j, k, lo) {
      StoreStopsAtTear(r, root, k, lo, top, j, full);
      ThroughStaysTorn(r, root, k, lo, top, j, full, v);
      top' := top;
    } else {
      StoreLinksAll(r, root, k, lo, top, j, full);
      OutsideShrinks(r, root, k, lo, top, j, c, full, v);
      top' := Max(top, c);
    }
  }

  /** On a torn index exactly the keys below the torn directory are out of the listing. */
  lemma TornListing(r: Db, root: Path, k: Path, lo: nat, top: nat, p: Path)
    requires Torn(r, root, k, lo, top) && IsStored(r, p) && Under(root, p)
    ensures Listed(r, root, p) <==> !Under(k[..lo], p)
  {
    if Under(k[..lo], p) {
      Prefix(p, k, lo, lo - 1);
      BelowPrefix(root, p, lo - 1);
      assert IsLink(k, top, lo, p[..lo - 1], LinkAt(p, lo - 1));
      assert !Linked(r, p, lo - 1);
    } else {
      forall i | |root| <= i < |p| ensures Linked(r, p, i) {
        BelowPrefix(root, p, i);
        assert Under(p[..i], p) && Needed(r, p[..i], LinkAt(p, i));
        MissingIsUnder(k, lo, top, p, i);
      }
    }
  }

  // ----- runs of Stores -----

  ghost predicate AllPuts(ops: seq<Op>) { forall i :: 0 <= i < |ops| ==> ops[i].Put? }

  /** Some Store of the run parts from `k` exactly in the directory where its climb was cut. */
  predicate SomeSibling(ops: seq<Op>, k: Path, lo: nat) {
    exists i :: 0 <= i < |ops| && ShareExactly(ops[i].key, k, lo)
  }

  lemma {:induction false} PutsKeep(m: Contents, ops: seq<Op>, k: Path)
    requires AllPuts(ops) && k in m && m[k].Record?
    ensures k in ApplyAll(m, ops) && ApplyAll(m, ops)[k].Record?
    decreases |ops|
  {
    if ops != [] { PutsKeep(Apply(m, ops[0]), ops[1..], k); }
  }

  lemma {:induction false} RunOnTorn(r: Db, root: Path, k: Path, lo: nat, top: nat, ops: seq<Op>) returns (top': nat)
    requires Torn(r, root, k, lo, top) && AllPuts(ops) && ClashFree(Own(r, root), root, ops)
    ensures var s := Run(r, ops);
            if SomeSibling(ops, k, lo) then Consistent(s, root) && IsStored(s, k) else Torn(s, root, k, lo, top')
    decreases |ops|
  {
    hide Torn, Store, Consistent, Clash, Own, Apply, ShareExactly;
    top' := top;
    if ops == [] { return; }
    var j, bytes := ops[0].key, ops[0].bytes;
    TornRoot(r, root, k, lo, top);
    NoClashNoConflict(r, root, j);
    var t := StoreOnTorn(r, root, k, lo, top, j, bytes);
    var r1 := Store(Conn(r, Unlimited), j, Record(bytes)).conn.db;
    OwnViews(r, r1, root, ops[0]);
    if ShareExactly(j, k, lo) {
      RunRefinesMap(r1, root, ops[1..]);
      StaysStored(r1, root, ops[1..], k) by { assert StrAt(r1, k).Some?; StringViews(r, r1); }
    } else {
      top' := RunOnTorn(r1, root, k, lo, t, ops[1..]);
    }
    SiblingStep(ops, k, lo);
  }

  lemma SiblingStep(ops: seq<Op>, k: Path, lo: nat)
    requires ops != []
    ensures SomeSibling(ops, k, lo) <==> ShareExactly(ops[0].key, k, lo) || SomeSibling(ops[1..], k, lo)
  {
    if i :| 0 <= i < |ops| && ShareExactly(ops[i].key, k, lo) {
      if i > 0 { assert ops[1..][i - 1] == ops[i]; }
    }
    if i :| 0 <= i < |ops[1..]| && ShareExactly(ops[1..][i].key, k, lo) { assert ops[i + 1] == ops[1..][i]; }
  }

  lemma StaysStored(r: Db, root: Path, ops: seq<Op>, k: Path)
    requires IsStored(r, k) && Below(root, k) && AllPuts(ops)
    requires Own(Run(r, ops), root) == ApplyAll(Own(r, root), ops)
    ensures IsStored(Run(r, ops), k)
  {
    hide Apply;
    PutsKeep(Own(r, root), ops, k);
    assert k in Own(Run(r, ops), root);
  }

  // ----- main results -----

  /** After a Store of `k` that was cut late and re-run, and after any clash-free run of further
      Stores: `k` is linked at every level if and only if some Store of the run shares with
      `k` exactly the segments down to the directory where the climb was cut off.  So Repair
      is not the only remedy, and storing `k` itself again is none.  Until then the damage
      spreads: every key stored below that directory is out of the listing, and no other. */
  lemma RunHealsCutIff(db: Db, root: Path, k: Path, bytes: string, commands: nat, ops: seq<Op>)
    requires Consistent(db, root) && Below(root, k) && !Conflict(db, k) && 0 < commands < NewLinksIn(db, root, k)
    requires var r := Rerun(db, k, Record(bytes), commands).conn.db; AllPuts(ops) && ClashFree(Own(r, root), root, ops)
    ensures var s, lo := Run(Rerun(db, k, Record(bytes), commands).conn.db, ops), |k| - commands;
            && (Listed(s, root, k) <==> SomeSibling(ops, k, lo))
            && (SomeSibling(ops, k, lo) ==> Consistent(s, root))
            && (forall p :: IsStored(s, p) && Under(root, p) ==>
                              (Listed(s, root, p) <==> SomeSibling(ops, k, lo) || !Under(k[..lo], p)))
  {
    hide Store, LinkUp, Consistent, Conflict, Torn, NewLinks, Linked, Rerun;
    hide ShareExactly, SomeSibling, Listed, ClashFree;
    var r, lo := Rerun(db, k, Record(bytes), commands).conn.db, |k| - commands;
    var top := RerunIsTorn(db, root, k, bytes, commands);
    var t := RunOnTorn(r, root, k, lo, top, ops);
    var s := Run(r, ops);
    assert Under(root, k) && Under(k[..lo], k);
    if SomeSibling(ops, k, lo) {
      forall p ensures Listed(s, root, p) <==> IsStored(s, p) && Under(root, p) { ListedIsStored(s, root, root, p); }
    } else {
      TornRoot(s, root, k, lo, t);
      forall p | IsStored(s, p) && Under(root, p) ensures Listed(s, root, p) <==> !Under(k[..lo], p) {
        TornListing(s, root, k, lo, t, p);
      }
    }
  }

  /** The next Store after a cut Store: when it heals the chain, and when it ends unlisted
      itself although it was not interrupted. */
  lemma StoreHealsCutIff(db: Db, root: Path, k: Path, bytes: string, commands: nat, j: Path, other: string)
    requires Consistent(db, root) && Below(root, k) && !Conflict(db, k) && 0 < commands < NewLinksIn(db, root, k)
    requires Under(root, j) && !Conflict(Rerun(db, k, Record(bytes), commands).conn.db, j)
    ensures var lo := |k| - commands;
            var after := Store(Conn(Rerun(db, k, Record(bytes), commands).conn.db, Unlimited), j, Record(other));
            && after.Ok? && IsStored(after.conn.db, j)
            && (Listed(after.conn.db, root, k) <==> ShareExactly(j, k, lo))
            && (Listed(after.conn.db, root, j) <==> !GoesThrough(j, k, lo))
  {
    hide Store, LinkUp, Consistent, Conflict, Torn, NewLinks, Linked, Rerun, Listed;
    var r, lo := Rerun(db, k, Record(bytes), commands).conn.db, |k| - commands;
    var top := RerunIsTorn(db, root, k, bytes, commands);
    TornRoot(r, root, k, lo, top);
    var t := StoreOnTorn(r, root, k, lo, top, j, Record(other).bytes);
    var s := Store(Conn(r, Unlimited), j, Record(other)).conn.db;
    var c := WhereKeysPart(r, k, lo, j);
    StringViews(r, s);
    assert StrAt(s, k).Some? && StrAt(s, j).Some? && IsStored(s, k) && IsStored(s, j);
    assert Under(root, k) && Under(k[..lo], k);
    if ShareExactly(j, k, lo) {
      ListedIsStored(s, root, root, k);
      ListedIsStored(s, root, root, j);
    } else {
      TornListing(s, root, k, lo, t, k);
      TornListing(s, root, k, lo, t, j);
      if !GoesThrough(j, k, lo) && Under(k[..lo], j) { Prefix(j, k, lo, c); }
    }
  }

  /** An input: a new sibling in the directory of the cut heals the chain that was broken
      above it, and a new key below the first one is itself out of the listing. */
  lemma SiblingHealsExample(bytes: string, other: string)
    ensures var root: Path := ["caddy"];
            var k: Path := ["caddy", "a", "b", "x", "y"];
            var r := Rerun(map[], k, Record(bytes), 2).conn.db;
            && Listed(Store(Conn(r, Unlimited), ["caddy", "a", "b", "z"], Record(other)).conn.db, root, k)
            && !Listed(Store(Conn(r, Unlimited), ["caddy", "a", "b", "x", "z"], Record(other)).conn.db,
                       root, ["caddy", "a", "b", "x", "z"])
  {
    hide LinkUp, Store, Rerun, Consistent, Conflict, Linked, NewLinks, Listed;
    var root: Path := ["caddy"];
    var k: Path := ["caddy", "a", "b", "x", "y"];
    var y: Path := ["caddy", "a", "b", "z"];
    var z: Path := ["caddy", "a", "b", "x", "z"];
    assert k[..1] == root && y[..1] == root && z[..1] == root && k[..4][3] != y[3];
    LateCutSetup(root, k, bytes);
    LateCutFails(map[], root, k, Record(bytes), 2);
    RerunOutcome(map[], root, k, bytes, 2);
    var r := Rerun(map[], k, Record(bytes), 2).conn.db;
    OnlyStringIsNoConflict(r, k, y);
    OnlyStringIsNoConflict(r, k, z);
    StoreHealsCutIff(map[], root, k, bytes, 2, y, other);
    StoreHealsCutIff(map[], root, k, bytes, 2, z, other);
  }

  lemma OnlyStringIsNoConflict(r: Db, k: Path, j: Path)
    requires (forall p :: p != k ==> StrAt(r, p) == None) && !Under(k, j) && !Under(j, k)
    ensures !Conflict(r, j)
  {
    forall p | IsStr(r, p) || IsStored(r, p) ensures p == k { assert StrAt(r, p).Some?; }
  }
}
