/** The part of Redis the storage module uses: one keyspace that holds strings and
    sorted sets, and the commands ZADD, ZREM, ZRANGE, EXISTS, TYPE, GET, SET and DEL.

    A Redis key is the sequence of its path segments; module Paths proves that the
    slash-separated strings of the source stand for exactly these sequences.  Scores
    only order the answer of ZRANGE, so a sorted set is modelled by its members. */
module Redis {
  import opened Common

  type Path = seq<string>

  /** A member of a directory set.  The source marks a directory by a trailing slash. */
  datatype Member = File(name: string) | Dir(name: string)

  /** A string value.  `Record` is a value that loadStorageData can decode; `Foreign`
      is any other string below the prefix, such as the token of a held lock. */
  datatype Value = Record(bytes: string) | Foreign(text: string)

  datatype Entry = Str(value: Value) | ZSet(members: set<Member>)

  type Db = map<Path, Entry>

  datatype Error = WrongType | Closed

  /** A client may be closed under a running operation (Cleanup on a reload):
      `Left(n)` lets n more commands through and refuses every later one. */
  datatype Budget = Unlimited | Left(commands: nat)

  datatype Conn = Conn(db: Db, budget: Budget)

  /** Outcome of one or more commands; the effects made before a failure stay.  `hit`
      says that the integer reply is not zero: ZADD added, ZREM removed, EXISTS found. */
  datatype Reply = Ok(conn: Conn, hit: bool) | Fail(conn: Conn, error: Error) {
    predicate IsFailure() { Fail? }
    function PropagateFailure(): Reply requires Fail? { this }
    function Extract(): Reply requires Ok? { this }
  }

  function Spend(b: Budget): Budget
    requires b != Left(0)
  {
    if b.Left? then Left(b.commands - 1) else b
  }

  // ----- views of a keyspace -----

  function StrAt(db: Db, p: Path): Option<Value> {
    if p in db && db[p].Str? then Some(db[p].value) else None
  }

  function Members(db: Db, p: Path): set<Member> {
    if p in db && db[p].ZSet? then db[p].members else {}
  }

  predicate IsStr(db: Db, p: Path) { p in db && db[p].Str? }

  /** `p` holds a value that Load can return. */
  predicate IsStored(db: Db, p: Path) { p in db && db[p].Str? && db[p].value.Record? }

  /** Redis deletes a sorted set together with its last member. */
  ghost predicate NoEmptySet(db: Db) {
    forall p :: p in db && db[p].ZSet? ==> db[p].members != {}
  }

  ghost predicate SameStrings(a: Db, b: Db) {
    forall p :: StrAt(a, p) == StrAt(b, p)
  }

  /** A keyspace is determined by its strings and its set members. */
  lemma SameViews(a: Db, b: Db)
    requires NoEmptySet(a) && NoEmptySet(b) && SameStrings(a, b)
    requires forall p :: Members(a, p) == Members(b, p)
    ensures a == b
  {
    forall p ensures (p in a) == (p in b) && (p in a ==> a[p] == b[p]) {
      assert StrAt(a, p) == StrAt(b, p) && Members(a, p) == Members(b, p);
    }
  }

  // ----- commands -----

  function WithMembers(db: Db, p: Path, ms: set<Member>): Db {
    if ms == {} then db - {p} else db[p := ZSet(ms)]
  }

  function ZAdd(c: Conn, p: Path, m: Member): Reply {
    if c.budget == Left(0) then Fail(c, Closed)
    else if IsStr(c.db, p) then Fail(Conn(c.db, Spend(c.budget)), WrongType)
    else Ok(Conn(WithMembers(c.db, p, Members(c.db, p) + {m}), Spend(c.budget)), m !in Members(c.db, p))
  }

  function ZRem(c: Conn, p: Path, m: Member): Reply {
    if c.budget == Left(0) then Fail(c, Closed)
    else if IsStr(c.db, p) then Fail(Conn(c.db, Spend(c.budget)), WrongType)
    else Ok(Conn(WithMembers(c.db, p, Members(c.db, p) - {m}), Spend(c.budget)), m in Members(c.db, p))
  }

  function Exists(c: Conn, p: Path): Reply {
    if c.budget == Left(0) then Fail(c, Closed)
    else Ok(Conn(c.db, Spend(c.budget)), p in c.db)
  }

  /** TYPE: is it a string? */
  function TypeIsString(c: Conn, p: Path): Reply {
    if c.budget == Left(0) then Fail(c, Closed)
    else Ok(Conn(c.db, Spend(c.budget)), IsStr(c.db, p))
  }

  /** GET, and the decoding of what it returns. */
  function GetRecord(c: Conn, p: Path): Reply {
    if c.budget == Left(0) then Fail(c, Closed)
    else Ok(Conn(c.db, Spend(c.budget)), IsStored(c.db, p))
  }

  function Set(c: Conn, p: Path, v: Value): Reply {
    if c.budget == Left(0) then Fail(c, Closed)
    else Ok(Conn(c.db[p := Str(v)], Spend(c.budget)), true)
  }

  function Del(c: Conn, p: Path): Reply {
    if c.budget == Left(0) then Fail(c, Closed)
    else Ok(Conn(c.db - {p}, Spend(c.budget)), p in c.db)
  }
}
