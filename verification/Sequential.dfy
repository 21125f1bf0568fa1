/** Whole runs of completed Stores and Deletes refine a plain map of values, and List
    reads that map back through the index. */
module Sequential {
  import opened Common
  import opened Redis
  import opened DirectoryIndex

  /** A chain of links leads from directory `d` down to the file entry of `k`: what a
      recursive List of `d` collects. */
  ghost predicate Listed(db: Db, d: Path, k: Path) {
    Under(d, k) && forall i :: |d| <= i < |k| ==> Linked(db, k, i)
  }

  /** A chain of directory links leads from `d` down to `p`. */
  ghost predicate Reached(db: Db, d: Path, p: Path) {
    |d| <= |p| && p[..|d|] == d && forall i :: |d| <= i < |p| ==> Dir(p[i]) in Members(db, p[..i])
  }

  /** In a consistent index, recursive List of a directory finds exactly the stored keys
      below it. */
  lemma ListedIsStored(db: Db, root: Path, d: Path, k: Path)
    requires Consistent(db, root) && Below(root, d)
    ensures Listed(db, d, k) <==> IsStored(db, k) && Under(d, k)
  {
    if Under(d, k) {
      BelowUnder(root, d, k);
      if IsStored(db, k) {
        forall i | |d| <= i < |k| ensures Linked(db, k, i) { StoredIsLinked(db, root, k, i); }
      } else if Listed(db, d, k) {
        FileLinkIsStored(db, root, k);
      }
    }
  }

  lemma FileLinkIsStored(db: Db, root: Path, k: Path)
    requires Consistent(db, root) && Under(root, k) && Linked(db, k, |k| - 1)
    ensures IsStored(db, k)
  {
    var n := |k| - 1;
    BelowPrefix(root, k, n);
    assert Needed(db, k[..n], LinkAt(k, n));
    var p :| IsStored(db, p) && Under(k[..n], p) && LinkAt(p, n) == LinkAt(k, n);
    assert p == p[..n] + [p[n]];
    assert k == k[..n] + [k[n]];
  }

  /** Non-recursive List: the names in a directory are the next segments of the stored
      keys below it, and no name is both a file and a directory. */
  lemma ChildrenAreNextSegments(db: Db, root: Path, d: Path, name: string)
    requires Consistent(db, root) && Below(root, d)
    ensures (File(name) in Members(db, d) <==> IsStored(db, d + [name]))
    ensures (Dir(name) in Members(db, d) <==> exists k :: IsStored(db, k) && Under(d + [name], k))
    ensures !(File(name) in Members(db, d) && Dir(name) in Members(db, d))
  {
    var c := d + [name];
    assert c[..|d|] == d && c[..|root|] == d[..|root|];
    if File(name) in Members(db, d) {
      var k :| IsStored(db, k) && Under(d, k) && LinkAt(k, |d|) == File(name);
      assert k == k[..|d|] + [k[|d|]] == c;
    }
    if IsStored(db, c) { assert Needed(db, d, LinkAt(c, |d|)); }
    if Dir(name) in Members(db, d) {
      var k :| IsStored(db, k) && Under(d, k) && LinkAt(k, |d|) == Dir(name);
      assert k[..|d| + 1] == k[..|d|] + [k[|d|]] == c;
      assert Under(c, k);
    }
    if k :| IsStored(db, k) && Under(c, k) {
      assert k[..|d|] == k[..|c|][..|d|] == d && k[|d|] == k[..|c|][|d|];
      assert Under(d, k) && LinkAt(k, |d|) == Dir(name);
      assert Needed(db, d, Dir(name));
    }
  }

  // ----- runs -----

  datatype Op = Put(key: Path, bytes: string) | Remove(key: Path)

  type Contents = map<Path, Value>

  /** The strings at and below the root. */
  function Own(db: Db, root: Path): Contents { map p | p in db && db[p].Str? && Below(root, p) :: db[p].value }

  function Apply(m: Contents, op: Op): Contents {
    match op
    case Put(k, bytes) => m[k := Record(bytes)]
    case Remove(k) => m - {k}
  }

  function ApplyAll(m: Contents, ops: seq<Op>): Contents
    decreases |ops|
  {
    if ops == [] then m else ApplyAll(Apply(m, ops[0]), ops[1..])
  }

  function Exec(db: Db, op: Op): Reply {
    match op
    case Put(k, bytes) => Store(Conn(db, Unlimited), k, Record(bytes))
    case Remove(k) => Delete(Conn(db, Unlimited), k)
  }

  /** Every call of the run, one after the other; a failed call keeps its effects. */
  function Run(db: Db, ops: seq<Op>): Db
    decreases |ops|
  {
    if ops == [] then db else Run(Exec(db, ops[0]).conn.db, ops[1..])
  }

  /** The caller's side of the contract: no key is used both as a file and as a directory. */
  ghost predicate Clash(m: Contents, k: Path) {
    exists p :: p in m && (Under(p, k) || (m[p].Record? && Under(k, p)))
  }

  ghost predicate ClashFree(m: Contents, root: Path, ops: seq<Op>)
    decreases |ops|
  {
    ops == [] ||
    (Below(root, ops[0].key) && !Clash(m, ops[0].key) && ClashFree(Apply(m, ops[0]), root, ops[1..]))
  }

  /** Every clash-free run of Stores and Deletes keeps the index exact and refines the
      plain map of values, although both climbs stop early; the rest of the server stays as
      it is. */
  lemma {:induction false} RunRefinesMap(db: Db, root: Path, ops: seq<Op>)
    requires Consistent(db, root) && ClashFree(Own(db, root), root, ops)
    ensures Consistent(Run(db, ops), root) && OutsideKept(db, Run(db, ops), root)
    ensures Own(Run(db, ops), root) == ApplyAll(Own(db, root), ops)
    decreases |ops|
  {
    hide Consistent, Exec, Own, Clash, Apply;
    if ops != [] {
      hide OutsideKept;
      var db1 := Exec(db, ops[0]).conn.db;
      ExecRefinesApply(db, root, ops[0]);
      RunRefinesMap(db1, root, ops[1..]);
      OutsideTwice(db, db1, Run(db1, ops[1..]), root);
    }
  }

  lemma ExecRefinesApply(db: Db, root: Path, op: Op)
    requires Consistent(db, root) && Below(root, op.key) && !Clash(Own(db, root), op.key)
    ensures var r := Exec(db, op);
      && r.Ok? && Consistent(r.conn.db, root) && OutsideKept(db, r.conn.db, root)
      && Own(r.conn.db, root) == Apply(Own(db, root), op)
  {
    hide Store, Delete, OutsideKept, Own, Below, Needed;
    NoClashNoConflict(db, root, op.key);
    match op {
      case Put(k, bytes) => StoreExact(db, root, k, bytes);
      case Remove(k) => DeleteExact(db, root, k);
    }
    OwnViews(db, Exec(db, op).conn.db, root, op);
  }

  lemma OwnViews(db: Db, db1: Db, root: Path, op: Op)
    requires Below(root, op.key)
    requires forall p :: p != op.key ==> StrAt(db1, p) == StrAt(db, p)
    requires StrAt(db1, op.key) == if op.Put? then Some(Record(op.bytes)) else None
    ensures Own(db1, root) == Apply(Own(db, root), op)
  {
    assert forall p :: p in Own(db1, root) <==> StrAt(db1, p).Some? && Below(root, p);
    assert forall p :: p in Own(db, root) <==> StrAt(db, p).Some? && Below(root, p);
  }

  lemma NoClashNoConflict(db: Db, root: Path, k: Path)
    requires Clear(db, root, |root|) && Below(root, k) && !Clash(Own(db, root), k)
    ensures !Conflict(db, k)
  {
    hide Clear, Own;
    ConflictIsOwn(db, root, k);
  }

  /** What collides with a key below the root stands below the root. */
  lemma ConflictIsOwn(db: Db, root: Path, k: Path)
    requires Clear(db, root, |root|) && Below(root, k)
    ensures forall p :: p != [] && IsStr(db, p) && Under(p, k) ==> p in Own(db, root)
    ensures forall p :: IsStored(db, p) && Under(k, p) ==> p in Own(db, root) && Own(db, root)[p].Record?
  {
    hide Clear;
    forall p | p != [] && IsStr(db, p) && Under(p, k) ensures p in Own(db, root) {
      StringAboveIsOwn(db, root, p, k);
    }
    forall p | IsStored(db, p) && Under(k, p) ensures p in Own(db, root) && Own(db, root)[p].Record? {
      BelowUnder(root, k, p);
    }
  }

  /** A server on which nothing uses the root yet, whatever else it holds. */
  ghost predicate Unused(db: Db, root: Path) {
    |root| >= 1 && NoEmptySet(db) && Clear(db, root, |root|) && forall p :: p in db ==> !Below(root, p)
  }

  lemma UnusedIsConsistent(db: Db, root: Path)
    requires Unused(db, root)
    ensures Consistent(db, root) && Own(db, root) == map[]
  {
    forall d, m | Below(root, d) ensures m !in Members(db, d) && !Needed(db, d, m) {
      forall k | IsStored(db, k) ensures !Under(d, k) {
        if Under(d, k) { BelowUnder(root, d, k); }
      }
    }
  }

  /** From a server on which nothing uses the root: after any clash-free run, recursive List of
      any directory finds a key exactly when the last call on that key was a Store and the key
      lies below the directory. */
  lemma ListAfterRun(db: Db, root: Path, ops: seq<Op>, d: Path, k: Path)
    requires Unused(db, root) && ClashFree(map[], root, ops) && Below(root, d)
    ensures Listed(Run(db, ops), d, k) <==> k in ApplyAll(map[], ops) && Under(d, k)
  {
    hide Consistent, Clash, Apply, Exec, Listed;
    UnusedIsConsistent(db, root);
    RunRefinesMap(db, root, ops);
    var db1 := Run(db, ops);
    ListedIsStored(db1, root, d, k);
    RunStoresRecords(map[], ops);
    if Under(d, k) { BelowUnder(root, d, k); }
    assert k in Own(db1, root) <==> IsStr(db1, k) && Below(root, k);
  }

  lemma {:induction false} RunStoresRecords(m: Contents, ops: seq<Op>)
    requires forall p :: p in m ==> m[p].Record?
    ensures forall p :: p in ApplyAll(m, ops) ==> ApplyAll(m, ops)[p].Record?
    decreases |ops|
  {
    if ops != [] { RunStoresRecords(Apply(m, ops[0]), ops[1..]); }
  }

  // ----- the empty prefix -----

  lemma {:induction false} LinkUpSparesTop(c: Conn, p: Path, isDir: bool)
    ensures Members(LinkUp(c, p, isDir, false).conn.db, []) == Members(c.db, [])
    decreases |p|
  {
    if |p| > 1 {
      var z := ZAdd(c, Parent(p), Base(p, isDir));
      assert Parent(p) != [];
      if z.Ok? && z.hit { LinkUpSparesTop(z.conn, Parent(p), true); }
    }
  }

  lemma {:induction false} UnlinkUpSparesTop(c: Conn, p: Path, isDir: bool)
    ensures Members(UnlinkUp(c, p, isDir).conn.db, []) == Members(c.db, [])
    decreases |p|
  {
    if |p| > 1 {
      var z := ZRem(c, Parent(p), Base(p, isDir));
      assert Parent(p) != [];
      if z.Ok? {
        var e := Exists(z.conn, Parent(p));
        if e.Ok? && !e.hit { UnlinkUpSparesTop(e.conn, Parent(p), true); }
      }
    }
  }

  lemma {:induction false} RunSparesTop(db: Db, ops: seq<Op>)
    requires forall i :: 0 <= i < |ops| ==> ops[i].key != []
    ensures Members(Run(db, ops), []) == Members(db, [])
    decreases |ops|
  {
    if ops != [] {
      LinkUpSparesTop(Conn(db, Unlimited), ops[0].key, false);
      UnlinkUpSparesTop(Conn(db, Unlimited), ops[0].key, false);
      RunSparesTop(Exec(db, ops[0]).conn.db, ops[1..]);
    }
  }

  /** With an empty key prefix the root directory is the path without segments; the climbs
      stop below it, so List of the root finds nothing, whatever is stored, on any database in
      which that path holds no set. */
  lemma EmptyPrefixListsNothing(db: Db, ops: seq<Op>, k: Path)
    requires Members(db, []) == {} && forall i :: 0 <= i < |ops| ==> ops[i].key != []
    ensures !Listed(Run(db, ops), [], k)
  {
    RunSparesTop(db, ops);
    assert |k| > 0 ==> k[..0] == [] && !Linked(Run(db, ops), k, 0);
  }
}
