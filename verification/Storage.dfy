/** RedisStorage as the source has it: methods that send commands over a client, one at a
    time, and change the shared database in place.  Each method is proved against the
    functions and relations of the modules above. */
module Storage {
  import opened Common
  import opened Redis
  import opened DirectoryIndex
  import opened Sequential
  import opened Interrupted
  import opened Repair
  import opened RepairWalk
  import opened ScanPattern
  import Paths

  /** The database all clients share. */
  class Server {
    var db: Db

    constructor ()
      ensures db == map[]
    {
      db := map[];
    }
  }

  datatype Status = Success | Refused(error: Error)

  function StatusOf(r: Reply): Status { if r.Ok? then Success else Refused(r.error) }

  /** A client connection; it may be closed after a number of commands. */
  class Client {
    const server: Server
    var budget: Budget

    constructor (server: Server, budget: Budget)
      ensures this.server == server && this.budget == budget
    {
      this.server := server;
      this.budget := budget;
    }

    function Conn(): Conn
      reads this, server
    {
      Redis.Conn(server.db, budget)
    }

    method Apply(r: Reply) returns (s: Status, hit: bool)
      modifies this`budget, server
      ensures Conn() == r.conn && s == StatusOf(r) && (r.Ok? ==> hit == r.hit)
    {
      server.db, budget := r.conn.db, r.conn.budget;
      if r.Ok? { return Success, r.hit; } else { return Refused(r.error), false; }
    }

    method ZAdd(p: Path, m: Member) returns (s: Status, added: bool)
      modifies this`budget, server
      ensures var r := Redis.ZAdd(old(Conn()), p, m); Conn() == r.conn && s == StatusOf(r) && (r.Ok? ==> added == r.hit)
    {
      s, added := Apply(Redis.ZAdd(Conn(), p, m));
    }

    method ZRem(p: Path, m: Member) returns (s: Status)
      modifies this`budget, server
      ensures var r := Redis.ZRem(old(Conn()), p, m); Conn() == r.conn && s == StatusOf(r)
    {
      var hit;
      s, hit := Apply(Redis.ZRem(Conn(), p, m));
    }

    method Exists(p: Path) returns (s: Status, found: bool)
      modifies this`budget, server
      ensures var r := Redis.Exists(old(Conn()), p); Conn() == r.conn && s == StatusOf(r) && (r.Ok? ==> found == r.hit)
    {
      s, found := Apply(Redis.Exists(Conn(), p));
    }

    /** TYPE; the source reads an error as an unknown type. */
    method TypeIsString(p: Path) returns (yes: bool)
      modifies this`budget, server
      ensures var r := Redis.TypeIsString(old(Conn()), p); Conn() == r.conn && yes == (r.Ok? && r.hit)
    {
      var s, hit := Apply(Redis.TypeIsString(Conn(), p));
      return s == Success && hit;
    }

    /** loadStorageData; Repair passes over every error. */
    method Loads(p: Path) returns (yes: bool)
      modifies this`budget, server
      ensures var r := Redis.GetRecord(old(Conn()), p); Conn() == r.conn && yes == (r.Ok? && r.hit)
    {
      var s, hit := Apply(Redis.GetRecord(Conn(), p));
      return s == Success && hit;
    }

    /** SCAN, up to the keys it returns. */
    method Scan() returns (s: Status)
      modifies this`budget
      ensures s == if old(budget) == Left(0) then Refused(Closed) else Success
      ensures budget == if old(budget) == Left(0) then old(budget) else Spend(old(budget))
    {
      if budget == Left(0) { return Refused(Closed); }
      budget := Spend(budget);
      return Success;
    }

    method Set(p: Path, v: Value) returns (s: Status)
      modifies this`budget, server
      ensures var r := Redis.Set(old(Conn()), p, v); Conn() == r.conn && s == StatusOf(r)
    {
      var hit;
      s, hit := Apply(Redis.Set(Conn(), p, v));
    }

    method Del(p: Path) returns (s: Status)
      modifies this`budget, server
      ensures var r := Redis.Del(old(Conn()), p); Conn() == r.conn && s == StatusOf(r)
    {
      var hit;
      s, hit := Apply(Redis.Del(Conn(), p));
    }

    /** ZRANGE 0 -1: all members in some order (the order of the scores). */
    method ZRange(p: Path) returns (s: Status, ms: seq<Member>)
      modifies this`budget
      ensures budget == if old(budget) == Left(0) then old(budget) else Spend(old(budget))
      ensures s == if old(budget) == Left(0) then Refused(Closed)
                   else if IsStr(server.db, p) then Refused(WrongType) else Success
      ensures s == Success ==> NoDuplicates(ms) && forall m :: m in ms <==> m in Members(server.db, p)
    {
      ms := [];
      if budget == Left(0) { return Refused(Closed), ms; }
      budget := Spend(budget);
      if IsStr(server.db, p) { return Refused(WrongType), ms; }
      var rest := Members(server.db, p);
      while rest != {}
        invariant budget == Spend(old(budget)) && NoDuplicates(ms) && (forall m :: m in rest ==> m !in ms)
        invariant forall m :: m in Members(server.db, p) <==> m in ms || m in rest
        decreases rest
      {
        var m :| m in rest;
        AppendFresh(ms, m);
        ms, rest := ms + [m], rest - {m};
      }
      return Success, ms;
    }
  }

  ghost predicate NoDuplicates<T>(s: seq<T>) {
    forall i, j :: 0 <= i < j < |s| ==> s[i] != s[j]
  }

  lemma AppendFresh<T>(s: seq<T>, x: T)
    requires NoDuplicates(s) && x !in s
    ensures NoDuplicates(s + [x])
  {}

  lemma AppendDisjoint<T>(s: seq<T>, t: seq<T>)
    requires NoDuplicates(s) && NoDuplicates(t) && forall x :: x in s ==> x !in t
    ensures NoDuplicates(s + t)
  {
    forall i, j | 0 <= i < j < |s + t| ensures (s + t)[i] != (s + t)[j] {
      if i < |s| <= j { assert (s + t)[i] in s && (s + t)[j] == t[j - |s|]; }
    }
  }

  class RedisStorage {
    const prefix: Path
    const client: Client
    var reconnects: nat

    constructor (prefix: Path, client: Client)
      ensures this.prefix == prefix && this.client == client && reconnects == 0
    {
      this.prefix := prefix;
      this.client := client;
      reconnects := 0;
    }

    // ----- Store and Delete -----

    static method StoreDirectoryRecord(client: Client, p: Path, isDir: bool, repair: bool) returns (s: Status)
      modifies client`budget, client.server
      ensures var r := LinkUp(old(client.Conn()), p, isDir, repair); client.Conn() == r.conn && s == StatusOf(r)
      decreases |p|
    {
      if |p| <= 1 { return Success; }
      var added;
      s, added := client.ZAdd(Parent(p), Base(p, isDir));
      if s == Success && (added || repair) {
        s := StoreDirectoryRecord(client, Parent(p), true, repair);
      }
    }

    static method DeleteDirectoryRecord(client: Client, p: Path, isDir: bool) returns (s: Status)
      modifies client`budget, client.server
      ensures var r := UnlinkUp(old(client.Conn()), p, isDir); client.Conn() == r.conn && s == StatusOf(r)
      decreases |p|
    {
      if |p| <= 1 { return Success; }
      s := client.ZRem(Parent(p), Base(p, isDir));
      if s != Success { return; }
      var exists_;
      s, exists_ := client.Exists(Parent(p));
      if s == Success && !exists_ {
        s := DeleteDirectoryRecord(client, Parent(p), true);
      }
    }

    static method StoreOnce(client: Client, key: Path, v: Value) returns (s: Status)
      modifies client`budget, client.server
      ensures var r := DirectoryIndex.Store(old(client.Conn()), key, v); client.Conn() == r.conn && s == StatusOf(r)
    {
      s := StoreDirectoryRecord(client, key, false, false);
      if s == Success { s := client.Set(key, v); }
    }

    static method DeleteOnce(client: Client, key: Path) returns (s: Status)
      modifies client`budget, client.server
      ensures var r := DirectoryIndex.Delete(old(client.Conn()), key); client.Conn() == r.conn && s == StatusOf(r)
    {
      s := DeleteDirectoryRecord(client, key, false);
      if s == Success { s := client.Del(key); }
    }

    /** Store over withReconnectOnClosed: when the cached client was closed under the
        operation, one fresh client runs it once more; `redial` says whether Redis can be
        reached again.  If it can, the own part of the server is exact and the key collides
        with nothing, then the call succeeds and changes this one value and nothing outside
        the prefix; the index is exact afterwards if and only if the client was not closed
        between two new links.  If it cannot, no value has changed. */
    method Store(key: Path, bytes: string, redial: bool) returns (s: Status)
      modifies this`reconnects, client`budget, client.server
      ensures var first := DirectoryIndex.Store(old(client.Conn()), prefix + key, Record(bytes));
        var again := StatusOf(first) == Refused(Closed) && redial;
        var r := if !again then first
                 else StoreWithReconnect(old(client.server.db), old(client.budget), prefix + key, Record(bytes));
        client.server.db == r.conn.db && s == StatusOf(r) && reconnects == old(reconnects) + if again then 1 else 0
      ensures var db, k := old(client.server.db), prefix + key;
        Consistent(db, prefix) && !Conflict(db, k) && redial ==>
          && s == Success && OutsideKept(db, client.server.db, prefix)
          && (forall p :: StrAt(client.server.db, p) == if p == k then Some(Record(bytes)) else StrAt(db, p))
          && (Consistent(client.server.db, prefix) <==> !LateCut(db, old(client.budget), prefix, k))
      ensures s == Refused(Closed) ==> SameStrings(client.server.db, old(client.server.db))
    {
      var k := prefix + key;
      ghost var db, budget := client.server.db, client.budget;
      assert k[..|prefix|] == prefix;
      if Consistent(db, prefix) && !Conflict(db, k) { StoreWithReconnectIff(db, budget, prefix, k, bytes); }
      RefusedStoreKeepsStrings(db, budget, k, Record(bytes));
      hide Consistent, Conflict, LateCut, DirectoryIndex.Store, SameStrings, OutsideKept;
      s := StoreOnce(client, k, Record(bytes));
      if s == Refused(Closed) && redial {
        reconnects := reconnects + 1;
        var fresh_ := new Client(client.server, Unlimited);
        s := StoreOnce(fresh_, k, Record(bytes));
      }
    }

    /** Delete over withReconnectOnClosed: however the cached client was cut off, if Redis
        can be reached again the result is that of one uninterrupted Delete.  So if the own
        part of the server is exact and the key collides with nothing, the key is gone, the
        index exact and nothing outside the prefix changed.  If it cannot be reached, no value
        has changed and at most links of the key are gone. */
    method Delete(key: Path, redial: bool) returns (s: Status)
      modifies this`reconnects, client`budget, client.server
      ensures var db, k := old(client.server.db), prefix + key;
        Consistent(db, prefix) && !Conflict(db, k) && redial ==>
          && s == Success && OutsideKept(db, client.server.db, prefix) && Consistent(client.server.db, prefix)
          && forall p :: StrAt(client.server.db, p) == if p == k then None else StrAt(db, p)
      ensures s != Refused(Closed) ==>
        var whole := DirectoryIndex.Delete(Redis.Conn(old(client.server.db), Unlimited), prefix + key);
        client.server.db == whole.conn.db && s == StatusOf(whole)
      ensures s == Refused(Closed) ==> OnlyLinksGone(old(client.server.db), client.server.db, prefix + key)
      ensures redial ==> s != Refused(Closed)
      ensures old(reconnects) <= reconnects <= old(reconnects) + 1
    {
      var k := prefix + key;
      ghost var db, budget := client.server.db, client.budget;
      assert k[..|prefix|] == prefix;
      if Consistent(db, prefix) && !Conflict(db, k) { DeleteExact(db, prefix, k); }
      RefusedDeleteKeepsStrings(db, budget, k);
      hide Consistent, Conflict, OutsideKept, DirectoryIndex.Delete, OnlyLinksGone;
      DeleteBudget(db, budget, k);
      if budget.Left? { DeleteSurvivesEveryCut(db, k, budget.commands); }
      DeleteBudget(DirectoryIndex.Delete(client.Conn(), k).conn.db, Unlimited, k);
      s := DeleteOnce(client, k);
      if s == Refused(Closed) && redial {
        reconnects := reconnects + 1;
        var fresh_ := new Client(client.server, Unlimited);
        s := DeleteOnce(fresh_, k);
      }
    }

    // ----- List -----

    /** List reads every directory once, each at its own moment: `others(d)` is what other
        clients have made of the database by the time directory `d` is read, and `last` is a
        database that has all keys of these.  What List returns is what it would return on the
        one database `Seen(others, last)` in which every directory is as it was when read.
        Recursive List returns the keys that a chain of links leads to, each once, and is
        refused exactly when a chain of directory links leads to a string.  Without recursion
        it returns the names of the direct children, each once unless a file and a directory
        share their name.  Every ZRANGE is over withReconnectOnClosed by itself: if Redis can
        be reached again, a client closed at any moment changes none of this.  List writes
        nothing: it leaves the database as other clients had it at the last read. */
    method List(dir: Path, recursive: bool, redial: bool, others: Path -> Db, ghost last: Db)
      returns (s: Status, keys: seq<Path>)
      requires HasKeysOf(last, others)
      modifies this`reconnects, client`budget, client.server
      ensures redial || old(client.budget).Unlimited? ==> s != Refused(Closed)
      ensures old(client.budget).Unlimited? ==> client.budget.Unlimited? && reconnects == old(reconnects)
      ensures s != Refused(Closed) ==>
        (s == Success <==> if recursive then NoStringReached(Seen(others, last), prefix + dir)
                           else !IsStr(Seen(others, last), prefix + dir))
      ensures recursive && s == Success ==>
        NoDuplicates(keys) && forall k :: k in keys <==> Listed(Seen(others, last), prefix + dir, prefix + k)
      ensures !recursive && s == Success ==>
        forall k :: k in keys <==> exists m :: m in Members(Seen(others, last), prefix + dir) && k == Child(dir, m)
      ensures !recursive && s == Success && OneKindPerName(Seen(others, last), prefix + dir) ==> NoDuplicates(keys)
      ensures AsReadBelow(others, last, prefix + dir, client.server.db)
      decreases KeysBelow(Seen(others, last), prefix + dir)
    {
      hide Listed, NoStringReached, AsReadBelow, KeysBelow, OneKindPerName, Members, Seen;
      var cur := prefix + dir;
      ghost var db := Seen(others, last);
      AsReadNow(others, last, cur);
      SeenAt(others, last, cur);
      client.server.db := others(cur);
      var ms;
      keys := [];
      s, ms := client.ZRange(cur);
      if s == Refused(Closed) && redial {
        reconnects := reconnects + 1;
        var fresh_ := new Client(client.server, Unlimited);
        s, ms := fresh_.ZRange(cur);
      }
      if s != Success {
        if IsStr(db, cur) { StringIsReached(db, cur); }
        return;
      }
      var i := 0;
      while i < |ms|
        invariant 0 <= i <= |ms|
        invariant AsReadBelow(others, last, cur, client.server.db)
        invariant old(client.budget).Unlimited? ==> client.budget.Unlimited? && reconnects == old(reconnects)
        invariant recursive ==> NoDuplicates(keys)
        invariant recursive ==> forall k :: k in keys <==> ListedVia(db, cur, ms[..i], prefix + k)
        invariant recursive ==> forall j :: 0 <= j < i && ms[j].Dir? ==> NoStringReached(db, Child(cur, ms[j]))
        invariant !recursive ==> |keys| == i && forall j :: 0 <= j < i ==> keys[j] == Child(dir, ms[j])
      {
        var m := ms[i];
        var full := Child(dir, m);
        assert m in ms && prefix + full == Child(cur, m);
        if recursive && m.Dir? {
          KeysShrink(db, cur, m);
          var children;
          assert AsReadBelow(others, last, cur, client.server.db);  // nothing of its own lies in the way of others
          s, children := List(full, true, redial, others, last);
          AsReadThrough(others, last, cur, m, client.server.db);
          if s != Success {
            if s != Refused(Closed) { StringBelowIsReached(db, cur, m); }
            return;
          }
          DisjointParts(db, cur, prefix, ms, i, keys, children);
          AppendDisjoint(keys, children);
          keys := keys + children;
        } else {
          if recursive {
            PrefixCancels(prefix, full);
            DisjointParts(db, cur, prefix, ms, i, keys, [full]);
            AppendDisjoint(keys, [full]);
          }
          keys := keys + [full];
        }
        i := i + 1;
      }
      s := Success;
      if recursive {
        NoneReached(db, cur, ms);
        forall k ensures k in keys <==> Listed(db, cur, prefix + k) { AllParts(db, cur, ms, prefix + k); }
      } else {
        DirectChildren(db, cur, dir, ms, keys);
      }
    }

    // ----- Repair -----

    /** The scan of Repair, over the batches that SCAN returned.  It adds the links of the
        keys it re-links and nothing else.  A client that is closed in the middle of a batch
        makes it pass over the rest of the batch without a word, so it has seen all keys only
        if the client has a command left. */
    method Rescan(batches: seq<seq<Path>>) returns (s: Status, ghost done: set<Path>)
      modifies client`budget, client.server
      ensures SameStrings(client.server.db, old(client.server.db))
      ensures old(client.budget).Unlimited? ==> client.budget.Unlimited?
      ensures forall k :: k in done ==> InBatches(batches, k) && Relinks(old(client.server.db), prefix, k)
      ensures s == Success && client.budget != Left(0) ==>
        forall k :: InBatches(batches, k) && Relinks(old(client.server.db), prefix, k) ==> k in done
      ensures Scannable(old(client.server.db), batches, prefix) ==>
        && (old(client.budget).Unlimited? ==> s == Success)
        && (s == Success ==> RebuiltFor(old(client.server.db), client.server.db, done))
    {
      hide Relinks, RebuiltFor, SameStrings, Repairable, ScanFits, LinkUp;
      ghost var db0 := client.server.db;
      ghost var fits := Scannable(db0, batches, prefix);
      done := {};
      ScanStarts(db0, prefix);
      for i := 0 to |batches|
        invariant SameStrings(client.server.db, db0)
        invariant old(client.budget).Unlimited? ==> client.budget.Unlimited?
        invariant client.budget != Left(0) ==>
          forall j, k :: 0 <= j < i && k in batches[j] && Relinks(db0, prefix, k) ==> k in done
        invariant forall k :: k in done ==> InBatches(batches, k) && Relinks(db0, prefix, k)
        invariant fits ==> RebuiltFor(db0, client.server.db, done)
      {
        s := client.Scan();
        if s != Success { return; }
        for j := 0 to |batches[i]|
          invariant SameStrings(client.server.db, db0)
          invariant old(client.budget).Unlimited? ==> client.budget.Unlimited?
          invariant client.budget != Left(0) ==>
            forall l, k :: 0 <= l < i && k in batches[l] && Relinks(db0, prefix, k) ==> k in done
          invariant client.budget != Left(0) ==>
            forall l :: 0 <= l < j && Relinks(db0, prefix, batches[i][l]) ==> batches[i][l] in done
          invariant forall k :: k in done ==> InBatches(batches, k) && Relinks(db0, prefix, k)
          invariant fits ==> RebuiltFor(db0, client.server.db, done)
        {
          var key := batches[i][j];
          assert key in batches[i] && batches[i] in batches && InBatches(batches, key);
          SameRelinks(db0, client.server.db, prefix, key);
          var isString := client.TypeIsString(key);
          if !isString { continue; }
          var loads := client.Loads(LookUp(prefix, key));
          if !loads { continue; }
          ghost var db1, budget1 := client.server.db, client.budget;
          LinkUpKeepsStrings(client.Conn(), key, false, true);
          RescanStep(db0, db1, budget1, done, prefix, key, fits);
          s := StoreDirectoryRecord(client, key, false, true);
          StringsTrans(client.server.db, db1, db0);
          if s != Success { return; }
          done := done + {key};
        }
      }
      s := Success;
    }

    /** The walk of Repair from directory `dir` down.  On any database it removes entries
        below `dir` and does nothing else, and it goes through exactly when no chain of
        directory links leads to a string.  Which entries go does not depend on the order in
        which the walk meets them where the database is `Walkable`. */
    method Walk(dir: Path) returns (s: Status)
      modifies client`budget, client.server
      ensures Thinned(old(client.server.db), client.server.db, prefix + dir)
      ensures client.server.db.Keys <= old(client.server.db.Keys)
      ensures old(client.budget).Unlimited? ==> client.budget.Unlimited? && s != Refused(Closed)
      ensures old(client.budget) == Left(0) ==> s == Refused(Closed)
      ensures s != Refused(Closed) ==> (s == Success <==> NoStringReached(old(client.server.db), prefix + dir))
      ensures Walkable(old(client.server.db), prefix + dir) && s == Success ==>
        Pruned(old(client.server.db), client.server.db, prefix + dir)
      decreases KeysBelow(client.server.db, prefix + dir)
    {
      hide Walkable, Thinned, ThinnedFor, Pruned, PrunedFor, NoStringReached, SameStrings, KeysBelow;
      var cur := prefix + dir;
      ghost var db0 := client.server.db;
      ghost var fits := Walkable(db0, cur);
      ghost var done: set<Member> := {};
      ThinnedStarts(db0, cur);
      ThinnedAt(db0, db0, cur, done);
      var ms;
      s, ms := client.ZRange(cur);
      if s != Success {
        if IsStr(db0, cur) { StringIsReached(db0, cur); }
        return;
      }
      if fits { WalkStarts(db0, cur); }
      for i := 0 to |ms|
        invariant ThinnedFor(db0, client.server.db, cur, done) && client.server.db.Keys <= db0.Keys
        invariant old(client.budget).Unlimited? ==> client.budget.Unlimited?
        invariant done == set j | 0 <= j < i :: ms[j]
        invariant forall j :: 0 <= j < i && ms[j].Dir? ==> NoStringReached(db0, Child(cur, ms[j]))
        invariant fits ==> PrunedFor(db0, client.server.db, cur, done)
      {
        var m := ms[i];
        assert m in ms && m !in done;
        ghost var db1 := client.server.db;
        var full := Child(dir, m);
        assert prefix + full == Child(cur, m);
        ThinnedAt(db0, db1, cur, done);
        var found;
        s, found := client.Exists(prefix + full);
        if s != Success { return; }
        if fits { CheckSeesStart(db0, db1, cur, done, m); }
        if m.Dir? { IntactReach(db0, db1, cur, done, m); }
        if !found {
          s := client.ZRem(cur, m);
          if s != Success { return; }
          ThinnedByRemoval(db0, db1, cur, done, m);
          if fits { WalkRemoves(db0, db1, client.server.db, cur, done, m); }
        } else if m.Dir? {
          if fits { SubtreeWalkable(db0, db1, cur, done, m); }
          KeysShrinkMore(db0, db1, cur, m);
          s := Walk(full);
          ThinnedByWalk(db0, db1, client.server.db, cur, done, m);
          ThinnedAt(db0, client.server.db, cur, done + {m});
          if s != Success {
            if s != Refused(Closed) { StringBelowIsReached(db0, cur, m); }
            return;
          }
          if fits { WalkGoesDown(db0, db1, client.server.db, cur, done, m); }
        } else {
          ThinnedByCheck(db0, db1, cur, done, m);
          if fits { WalkKeepsFile(db0, db1, cur, done, m); }
        }
        done := done + {m};
      }
      s := Success;
      ThinnedAt(db0, client.server.db, cur, done);
      NoneReached(db0, cur, ms);
      if fits { WalkEnds(db0, client.server.db, cur, done); }
    }

    /** Repair from the root: scan, then walk.  No value is ever changed; on a database
        that Repair is for, a Repair that is not cut off is exactly one pass, whatever keys
        of other prefixes its scan meets.  Outside the own tree it adds the links of the keys
        it re-links and removes nothing. */
    method Repair(batches: seq<seq<Path>>) returns (s: Status)
      modifies client`budget, client.server
      ensures SameStrings(client.server.db, old(client.server.db))
      ensures Scannable(old(client.server.db), batches, prefix) && ScansAll(old(client.server.db), batches, prefix) ==>
        && (old(client.budget).Unlimited? ==> s == Success)
        && (s == Success ==>
              && Pass(old(client.server.db), client.server.db, prefix)
              && forall d, m :: !Below(prefix, d) ==>
                   (m in Members(client.server.db, d) <==>
                    || m in Members(old(client.server.db), d)
                    || LinkOfBatch(old(client.server.db), prefix, batches, d, m)))
    {
      hide Repairable, Pass, Pruned, Rebuilt, RebuiltFor, Thinned, Walkable, NoStringReached, ScanCovers, SameStrings;
      hide LinkOfBatch, InBatches, Relinks, ScanFits, Members;
      ghost var db0 := client.server.db;
      ghost var fits := Scannable(db0, batches, prefix) && ScansAll(db0, batches, prefix);
      ghost var done;
      s, done := Rescan(batches);
      if s != Success { return; }
      ghost var mid := client.server.db;
      ghost var seen := client.budget != Left(0);
      if fits && seen {
        BatchesCover(db0, batches, prefix, done);
        ScanDone(db0, mid, done, prefix);
        RebuiltIsWalkable(db0, mid, prefix);
      }
      assert prefix + [] == prefix;
      s := Walk([]);
      ThinnedStrings(mid, client.server.db, prefix);
      StringsTrans(client.server.db, mid, db0);
      if fits && s == Success {
        PassBy(db0, mid, client.server.db, prefix);
        forall d, m | !Below(prefix, d)
          ensures m in Members(client.server.db, d) <==>
                  m in Members(db0, d) || LinkOfBatch(db0, prefix, batches, d, m)
        {
          OutsideTree(db0, mid, client.server.db, batches, prefix, done, d, m);
        }
      }
    }
  }

  // ----- facts about Repair -----

  lemma ThinnedStrings(a: Db, b: Db, cur: Path)
    requires Thinned(a, b, cur)
    ensures SameStrings(b, a)
  {}

  predicate InBatches(batches: seq<seq<Path>>, k: Path) {
    exists b :: b in batches && k in b
  }

  /** SCAN returned clean keys of a database that Repair is for.  Keys of other prefixes may
      be among them, as long as no string stands above one that the scan re-links. */
  ghost predicate Scannable(db: Db, batches: seq<seq<Path>>, root: Path) {
    && Repairable(db, root) && Paths.IsClean(root)
    && forall k :: InBatches(batches, k) ==> ScanFits(db, root, k)
  }

  ghost predicate ScanFits(db: Db, root: Path, k: Path) {
    k != [] && Paths.IsClean(k) && (Below(root, k) || !Relinks(db, root, k) || Clear(db, k, |k|))
  }

  /** SCAN returned every stored key below the prefix. */
  ghost predicate ScansAll(db: Db, batches: seq<seq<Path>>, root: Path) {
    forall k :: IsStored(db, k) && Under(root, k) ==> InBatches(batches, k)
  }

  /** Entry `m` of `d` is a link of a key that the scan re-links. */
  ghost predicate LinkOfBatch(db: Db, root: Path, batches: seq<seq<Path>>, d: Path, m: Member) {
    exists k :: InBatches(batches, k) && Relinks(db, root, k) && IsLink(k, 1, |k|, d, m)
  }

  lemma SameRelinks(db0: Db, db1: Db, root: Path, key: Path)
    requires SameStrings(db1, db0)
    ensures Relinks(db0, root, key) <==> IsStr(db1, key) && IsStored(db1, LookUp(root, key))
  {
    assert StrAt(db1, key) == StrAt(db0, key) && StrAt(db1, LookUp(root, key)) == StrAt(db0, LookUp(root, key));
  }

  /** Below the root the scan re-links exactly the stored keys. */
  lemma OwnRelinks(db: Db, root: Path, k: Path)
    requires Paths.IsClean(root) && root != [] && Paths.IsClean(k) && Below(root, k)
    ensures Relinks(db, root, k) <==> IsStored(db, k)
  {
    OwnKeyIsLookedUp(root, k);
  }

  lemma BatchesCover(db: Db, batches: seq<seq<Path>>, root: Path, done: set<Path>)
    requires Scannable(db, batches, root) && ScansAll(db, batches, root)
    requires forall k :: k in done <==> InBatches(batches, k) && Relinks(db, root, k)
    ensures ScanCovers(db, root, done)
  {
    hide InBatches, Relinks;
    forall k | InBatches(batches, k) && Below(root, k) ensures Relinks(db, root, k) <==> IsStored(db, k) {
      OwnRelinks(db, root, k);
    }
  }

  /** SCAN returned every key of the database that its pattern matches. */
  ghost predicate ScanReturns(db: Db, batches: seq<seq<Path>>, root: Path) {
    forall k :: k in db && Matches(Paths.Render(root) + "*", Paths.Render(k)) ==> InBatches(batches, k)
  }

  /** Under a prefix without brackets and backslashes, SCAN returns every own key. */
  lemma HarmlessPrefixScansAll(db: Db, batches: seq<seq<Path>>, root: Path)
    requires ScanReturns(db, batches, root) && root != [] && Harmless(Paths.Render(root))
    ensures ScansAll(db, batches, root)
  {
    hide InBatches, Matches, Harmless, Paths.Render;
    forall k | IsStored(db, k) && Under(root, k) ensures InBatches(batches, k) {
      var rest := k[|root|..];
      assert k == root + rest && rest != [];
      Paths.RenderConcat(root, rest);
      HarmlessCoversOwn(Paths.Render(root), "/" + Paths.Render(rest));
      assert Paths.Render(k) == Paths.Render(root) + ("/" + Paths.Render(rest));
    }
  }

  lemma OutsideTree(a: Db, mid: Db, b: Db, batches: seq<seq<Path>>, root: Path, done: set<Path>, d: Path, m: Member)
    requires RebuiltFor(a, mid, done) && Thinned(mid, b, root) && !Below(root, d)
    requires forall k :: k in done <==> InBatches(batches, k) && Relinks(a, root, k)
    ensures m in Members(b, d) <==> m in Members(a, d) || LinkOfBatch(a, root, batches, d, m)
  {
    hide InBatches, Relinks;
    assert LinkOfDone(done, d, m) <==> LinkOfBatch(a, root, batches, d, m);
  }

  lemma RescanStep(db0: Db, db1: Db, budget: Budget, done: set<Path>, root: Path, key: Path, fits: bool)
    requires Relinks(db0, root, key) && SameStrings(db1, db0)
    requires fits ==>
               Repairable(db0, root) && Paths.IsClean(root) && RebuiltFor(db0, db1, done) && ScanFits(db0, root, key)
    ensures var r := LinkUp(Redis.Conn(db1, budget), key, false, true);
      && (budget.Unlimited? ==> r.conn.budget.Unlimited?)
      && (fits && budget.Unlimited? ==> r.Ok?)
      && (fits && r.Ok? ==> RebuiltFor(db0, r.conn.db, done + {key}))
  {
    LinkUpBudget(db1, budget, key, false);
    if fits {
      if Below(root, key) { OwnRelinks(db0, root, key); StoredIsClear(db0, root, key); }
      ClearStays(db0, db1, key);
      assert key[..|key|] == key;
      var db2 := LinkUpRepairs(db1, key, |key|);
      ScanAdds(db0, db1, db2, done, key);
    }
  }

  /** A Store that is refused because of a closed client has changed no value. */
  lemma RefusedStoreKeepsStrings(db: Db, budget: Budget, k: Path, v: Value)
    ensures var r := DirectoryIndex.Store(Redis.Conn(db, budget), k, v);
      StatusOf(r) == Refused(Closed) ==> SameStrings(r.conn.db, db)
    ensures var r := StoreWithReconnect(db, budget, k, v); StatusOf(r) != Refused(Closed)
  {
    LinkUpKeepsStrings(Redis.Conn(db, budget), k, false, false);
    var db1 := DirectoryIndex.Store(Redis.Conn(db, budget), k, v).conn.db;
    OpenLinkUp(db1, k, false);
  }

  lemma {:induction false} OpenLinkUp(db: Db, p: Path, isDir: bool)
    ensures var r := LinkUp(Redis.Conn(db, Unlimited), p, isDir, false);
      r.conn.budget.Unlimited? && (r.Fail? ==> r.error == WrongType)
    decreases |p|
  {
    if |p| > 1 && !IsStr(db, Parent(p)) {
      OpenLinkUp(Redis.ZAdd(Redis.Conn(db, Unlimited), Parent(p), Base(p, isDir)).conn.db, Parent(p), true);
    }
  }

  lemma {:induction false} LinkUpBudget(db: Db, budget: Budget, p: Path, isDir: bool)
    ensures var r := LinkUp(Redis.Conn(db, budget), p, isDir, true);
      && (budget.Unlimited? ==> r.conn.budget.Unlimited?)
      && (r.Ok? ==> r.conn.db == LinkUp(Redis.Conn(db, Unlimited), p, isDir, true).conn.db)
    decreases |p|
  {
    if |p| > 1 && budget != Left(0) && !IsStr(db, Parent(p)) {
      var db1 := Redis.ZAdd(Redis.Conn(db, budget), Parent(p), Base(p, isDir)).conn.db;
      LinkUpBudget(db1, Spend(budget), Parent(p), true);
    }
  }

  lemma KeysShrinkMore(db0: Db, db1: Db, d: Path, m: Member)
    requires m in Members(db0, d) && db1.Keys <= db0.Keys
    ensures KeysBelow(db1, Child(d, m)) < KeysBelow(db0, d)
  {
    KeysShrink(db0, d, m);
    assert KeysBelow(db1, Child(d, m)) <= KeysBelow(db0, Child(d, m));
  }

  // ----- facts about List -----

  ghost predicate HasKeysOf(last: Db, others: Path -> Db) {
    forall d :: d in others(d) ==> d in last
  }

  /** Every key as it was when List came by. */
  ghost function Seen(others: Path -> Db, last: Db): Db {
    map d | d in last && d in others(d) :: others(d)[d]
  }

  lemma SeenAt(others: Path -> Db, last: Db, d: Path)
    requires HasKeysOf(last, others)
    ensures Members(Seen(others, last), d) == Members(others(d), d)
    ensures IsStr(Seen(others, last), d) <==> IsStr(others(d), d)
  {}

  /** `db` is the database as it was when List read some directory at or below `dir`. */
  ghost predicate AsReadBelow(others: Path -> Db, last: Db, dir: Path, db: Db) {
    exists d :: Reached(Seen(others, last), dir, d) && db == others(d)
  }

  lemma AsReadNow(others: Path -> Db, last: Db, dir: Path)
    ensures AsReadBelow(others, last, dir, others(dir))
  {
    assert Reached(Seen(others, last), dir, dir);
  }

  lemma AsReadThrough(others: Path -> Db, last: Db, dir: Path, m: Member, db: Db)
    requires m.Dir? && m in Members(Seen(others, last), dir) && AsReadBelow(others, last, Child(dir, m), db)
    ensures AsReadBelow(others, last, dir, db)
  {
    hide Seen, Reached;
    var d :| Reached(Seen(others, last), Child(dir, m), d) && db == others(d);
    ReachedThrough(Seen(others, last), dir, m, d);
  }

  /** If nobody changes the database, List sees it and leaves it as it is. */
  lemma SeenUnchanged(db: Db)
    ensures var others: Path -> Db := (_ => db);
      && HasKeysOf(db, others) && Seen(others, db) == db
      && forall dir, after :: AsReadBelow(others, db, dir, after) <==> after == db
  {
    var others: Path -> Db := (_ => db);
    forall dir, after ensures AsReadBelow(others, db, dir, after) <==> after == db {
      AsReadNow(others, db, dir);
      if AsReadBelow(others, db, dir, after) {
        var d :| Reached(Seen(others, db), dir, d) && after == others(d);
      }
    }
  }

  /** The sets of `b` hold those of `a`: so it is between any two moments while only Stores run
      (Concurrent.SetsGrow). */
  ghost predicate SetsGrown(a: Db, b: Db) {
    forall d, m :: m in Members(a, d) ==> m in Members(b, d)
  }

  /** While only Stores run, List returns every key that was listed when it began, and no key
      that is not listed when it ends. */
  lemma ListDuringStores(first: Db, others: Path -> Db, last: Db, d: Path, k: Path)
    requires HasKeysOf(last, others) && forall p :: SetsGrown(first, others(p)) && SetsGrown(others(p), last)
    ensures Listed(first, d, k) ==> Listed(Seen(others, last), d, k)
    ensures Listed(Seen(others, last), d, k) ==> Listed(last, d, k)
  {
    hide Seen;
    forall i | |d| <= i < |k| && Under(d, k)
      ensures Linked(first, k, i) ==> Linked(Seen(others, last), k, i)
      ensures Linked(Seen(others, last), k, i) ==> Linked(last, k, i)
    {
      SeenAt(others, last, k[..i]);
    }
  }

  lemma PrefixCancels(prefix: Path, full: Path)
    ensures forall k :: prefix + k == prefix + full ==> k == full
  {
    forall k | prefix + k == prefix + full ensures k == full {
      assert k == (prefix + k)[|prefix|..] && full == (prefix + full)[|prefix|..];
    }
  }

  /** No file and directory of the same name; the index of clash-free runs is of this kind. */
  ghost predicate OneKindPerName(db: Db, d: Path) {
    forall name :: !(File(name) in Members(db, d) && Dir(name) in Members(db, d))
  }

  lemma DirectChildren(db: Db, cur: Path, dir: Path, ms: seq<Member>, keys: seq<Path>)
    requires NoDuplicates(ms) && forall m :: m in ms <==> m in Members(db, cur)
    requires |keys| == |ms| && forall j :: 0 <= j < |ms| ==> keys[j] == Child(dir, ms[j])
    ensures forall k :: k in keys <==> exists m :: m in Members(db, cur) && k == Child(dir, m)
    ensures OneKindPerName(db, cur) ==> NoDuplicates(keys)
  {
    forall k | exists m :: m in Members(db, cur) && k == Child(dir, m) ensures k in keys {
      var m :| m in Members(db, cur) && k == Child(dir, m);
      var j :| 0 <= j < |ms| && ms[j] == m;
      assert keys[j] == k;
    }
    forall i, j | OneKindPerName(db, cur) && 0 <= i < j < |keys| ensures keys[i] != keys[j] {
      assert ms[i] in Members(db, cur) && ms[j] in Members(db, cur);
      assert Child(dir, ms[i])[|dir|] == ms[i].name && Child(dir, ms[j])[|dir|] == ms[j].name;
    }
  }

  /** On an exact index, List succeeds on everything that is not a value, and direct
      children come once. */
  lemma ExactIndexLists(db: Db, root: Path, d: Path)
    requires Consistent(db, root) && Below(root, d)
    ensures NoStringReached(db, d) <==> !IsStr(db, d)
    ensures OneKindPerName(db, d)
  {
    hide Consistent, IsStr, Members, Under;
    forall name ensures !(File(name) in Members(db, d) && Dir(name) in Members(db, d)) {
      ChildrenAreNextSegments(db, root, d, name);
    }
    if IsStr(db, d) { StringIsReached(db, d); }
    forall p | Reached(db, d, p) && p != d ensures !IsStr(db, p) {
      assert Dir(p[|p| - 1]) in Members(db, p[..|p| - 1]);
      assert p[..|p| - 1][..|d|] == p[..|d|] && p[..|p| - 1][..|root|] == p[..|d|][..|root|];
      DirectoryIsNoValue(db, root, p[..|p| - 1], p[|p| - 1]);
      assert p[..|p| - 1] + [p[|p| - 1]] == p;
    }
  }

  lemma DirectoryIsNoValue(db: Db, root: Path, d: Path, name: string)
    requires Consistent(db, root) && Below(root, d) && Dir(name) in Members(db, d)
    ensures !IsStr(db, d + [name])
  {
    ChildrenAreNextSegments(db, root, d, name);
    assert (d + [name])[..|root|] == d[..|root|];
  }

  /** `k` is listed from `cur` through one of the members `ms`. */
  ghost predicate ListedVia(db: Db, cur: Path, ms: seq<Member>, k: Path) {
    Listed(db, cur, k) && LinkAt(k, |cur|) in ms
  }

  ghost function KeysBelow(db: Db, d: Path): set<Path> { set p | p in db.Keys && Below(d, p) }

  lemma KeysShrink(db: Db, d: Path, m: Member)
    requires m in Members(db, d)
    ensures KeysBelow(db, Child(d, m)) < KeysBelow(db, d)
  {
    forall p | Below(Child(d, m), p) ensures Below(d, p) { assert p[..|d|] == p[..|d| + 1][..|d|]; }
    assert d in KeysBelow(db, d) && d !in KeysBelow(db, Child(d, m));
  }

  /** A key listed through a directory member is listed from that directory; one listed
      through a file member is that file. */
  lemma ListedThrough(db: Db, d: Path, m: Member, k: Path)
    requires m in Members(db, d)
    ensures Listed(db, d, k) && LinkAt(k, |d|) == m <==> if m.Dir? then Listed(db, Child(d, m), k) else k == Child(d, m)
  {
    var c := Child(d, m);
    if Listed(db, d, k) && LinkAt(k, |d|) == m {
      assert k[..|d| + 1] == k[..|d|] + [k[|d|]] == c;
    }
    if m.Dir? && Listed(db, c, k) {
      ChildUnder(d, m, k);
      forall i | |d| <= i < |k| ensures Linked(db, k, i) {}
    }
    if m.File? && k == c { assert k[..|d|] == d; }
  }

  /** The keys of member `ms[i]` are new, and together with the earlier ones they are the
      keys of the first `i + 1` members. */
  lemma DisjointParts(db: Db, cur: Path, prefix: Path, ms: seq<Member>, i: nat, keys: seq<Path>, part: seq<Path>)
    requires i < |ms| && NoDuplicates(ms) && ms[i] in Members(db, cur)
    requires forall k :: k in keys <==> ListedVia(db, cur, ms[..i], prefix + k)
    requires forall k :: k in part <==>
      if ms[i].Dir? then Listed(db, Child(cur, ms[i]), prefix + k) else prefix + k == Child(cur, ms[i])
    ensures forall k :: k in keys ==> k !in part
    ensures forall k :: k in keys + part <==> ListedVia(db, cur, ms[..i + 1], prefix + k)
  {
    assert ms[..i + 1] == ms[..i] + [ms[i]] && ms[i] !in ms[..i];
    forall k
      ensures k in keys ==> k !in part
      ensures k in keys + part <==> ListedVia(db, cur, ms[..i + 1], prefix + k)
    {
      ListedThrough(db, cur, ms[i], prefix + k);
    }
  }

  lemma AllParts(db: Db, cur: Path, ms: seq<Member>, k: Path)
    requires forall m :: m in ms <==> m in Members(db, cur)
    ensures ListedVia(db, cur, ms[..|ms|], k) <==> Listed(db, cur, k)
  {
    assert ms[..|ms|] == ms;
    if Listed(db, cur, k) { assert Linked(db, k, |cur|); }
  }

  /** A Delete whose client is not closed under it does what it does without a limit. */
  /** No value changed, and every entry that is gone was a link of `k`. */
  ghost predicate OnlyLinksGone(before: Db, after: Db, k: Path) {
    && SameStrings(after, before)
    && (forall d, m :: m in Members(after, d) ==> m in Members(before, d))
    && (forall d, m :: m in Members(before, d) && m !in Members(after, d) ==>
          |d| < |k| && d == k[..|d|] && m == LinkAt(k, |d|))
  }

  lemma RefusedDeleteKeepsStrings(db: Db, budget: Budget, k: Path)
    ensures var r := DirectoryIndex.Delete(Redis.Conn(db, budget), k);
      StatusOf(r) == Refused(Closed) ==> OnlyLinksGone(db, r.conn.db, k)
  {
    if |k| > 0 {
      assert k[..|k|] == k;
      UnlinkUpOnlyUnlinks(db, budget, k, |k|);
    }
  }

  lemma {:induction false} UnlinkUpOnlyUnlinks(db: Db, budget: Budget, k: Path, n: nat)
    requires 1 <= n <= |k|
    ensures OnlyLinksGone(db, UnlinkUp(Redis.Conn(db, budget), k[..n], n < |k|).conn.db, k)
    decreases n
  {
    hide OnlyLinksGone, Redis.ZRem;
    OneLinkGone(db, budget, k, n);
    if n == 1 { return; }
    assert Parent(k[..n]) == k[..n - 1] && Base(k[..n], n < |k|) == LinkAt(k, n - 1);
    var r := Redis.ZRem(Redis.Conn(db, budget), k[..n - 1], LinkAt(k, n - 1));
    if r.Ok? && r.conn.budget != Left(0) && k[..n - 1] !in r.conn.db {
      UnlinkUpOnlyUnlinks(r.conn.db, Spend(r.conn.budget), k, n - 1);
      LinksGoneTrans(db, r.conn.db, UnlinkUp(Redis.Conn(db, budget), k[..n], n < |k|).conn.db, k);
    }
  }

  lemma OneLinkGone(db: Db, budget: Budget, k: Path, n: nat)
    requires 1 <= n <= |k|
    ensures OnlyLinksGone(db, db, k)
    ensures OnlyLinksGone(db, Redis.ZRem(Redis.Conn(db, budget), k[..n - 1], LinkAt(k, n - 1)).conn.db, k)
  {}

  lemma LinksGoneTrans(a: Db, b: Db, c: Db, k: Path)
    requires OnlyLinksGone(a, b, k) && OnlyLinksGone(b, c, k)
    ensures OnlyLinksGone(a, c, k)
  {}

  lemma DeleteBudget(db: Db, budget: Budget, k: Path)
    ensures var r := DirectoryIndex.Delete(Redis.Conn(db, budget), k);
      var whole := DirectoryIndex.Delete(Redis.Conn(db, Unlimited), k);
      StatusOf(r) != Refused(Closed) ==> r.conn.db == whole.conn.db && StatusOf(r) == StatusOf(whole)
    ensures StatusOf(DirectoryIndex.Delete(Redis.Conn(db, Unlimited), k)) != Refused(Closed)
  {
    UnlinkUpBudget(db, budget, k, false);
  }

  lemma {:induction false} UnlinkUpBudget(db: Db, budget: Budget, p: Path, isDir: bool)
    ensures var r := UnlinkUp(Redis.Conn(db, budget), p, isDir);
      var whole := UnlinkUp(Redis.Conn(db, Unlimited), p, isDir);
      && (StatusOf(r) != Refused(Closed) ==> r.conn.db == whole.conn.db && StatusOf(r) == StatusOf(whole))
      && StatusOf(whole) != Refused(Closed) && whole.conn.budget.Unlimited?
    decreases |p|
  {
    if |p| > 1 && !IsStr(db, Parent(p)) {
      var db1 := Redis.ZRem(Redis.Conn(db, Unlimited), Parent(p), Base(p, isDir)).conn.db;
      if Parent(p) !in db1 {
        var b := if budget.Left? && budget.commands >= 2 then Left(budget.commands - 2) else Unlimited;
        UnlinkUpBudget(db1, b, Parent(p), true);
      }
    }
  }
}
