/** The handshake observer of certificate_observer.go: it pairs the certificate and the key
    that one handshake loads and reports those that do not belong together. */
module CertificateObserver {
  import opened Common
  import Paths

  datatype Ext = Crt | Key

  /** A load that concerns the observed hostname. */
  datatype Read = Read(issuer: string, ext: Ext, plaintext: string)

  datatype Pair = Pair(certSeen: bool, keySeen: bool, done: bool, leaf: string, cert: string, key: string)

  datatype Candidate = Candidate(
    hostname: string, issuer: string, certPath: string, keyPath: string, leaf: string, cert: string, key: string)

  /** The fingerprint functions, which hash certificates and keys: (leaf, public key) of a
      certificate for the hostname, and the public key of a private key. */
  datatype Config = Config(
    hostname: string, certFingerprints: string -> (string, string), keyFingerprint: string -> string)

  datatype Observer = Observer(loads: nat, pairs: map<string, Pair>)

  predicate ValidIssuer(s: string) {
    && s != "" && s != "." && s != ".." && |s| <= 128
    && forall i :: 0 <= i < |s| ==>
         'a' <= s[i] <= 'z' || 'A' <= s[i] <= 'Z' || '0' <= s[i] <= '9' || s[i] == '_' || s[i] == '-' || s[i] == '.'
  }

  /** The checks at the head of Observe on the storage key. */
  function InScope(hostname: string, storageKey: string, plaintext: string): Option<Read> {
    var parts := Paths.Split(storageKey);
    if |parts| != 4 || parts[0] != "certificates" || !ValidIssuer(parts[1]) || parts[2] != hostname then None
    else if parts[3] == hostname + ".crt" then Some(Read(parts[1], Crt, plaintext))
    else if parts[3] == hostname + ".key" then Some(Read(parts[1], Key, plaintext))
    else None
  }

  function NewCandidate(c: Config, issuer: string, leaf: string, cert: string, key: string): Candidate {
    var base := "certificates/" + issuer + "/" + c.hostname + "/" + c.hostname;
    Candidate(c.hostname, issuer, base + ".crt", base + ".key", leaf, cert, key)
  }

  function Seen(c: Config, p: Pair, r: Read): Pair {
    if r.ext == Crt then
      var fp := c.certFingerprints(r.plaintext);
      p.(certSeen := true, leaf := fp.0, cert := fp.1, done := p.keySeen)
    else p.(keySeen := true, key := c.keyFingerprint(r.plaintext), done := p.certSeen)
  }

  const NO_PAIR := Pair(false, false, false, "", "", "")

  /** The state after one read. */
  function Next(c: Config, o: Observer, r: Read): Observer {
    if o.loads >= 16 then o
    else if r.issuer !in o.pairs && |o.pairs| >= 4 then o.(loads := o.loads + 1)
    else
      var p := if r.issuer in o.pairs then o.pairs[r.issuer] else NO_PAIR;
      var again := p.done || (if r.ext == Crt then p.certSeen else p.keySeen);
      Observer(o.loads + 1, o.pairs[r.issuer := if again then p else Seen(c, p, r)])
  }

  /** What one read emits: the pair it completes, if the fingerprints differ. */
  function Emits(c: Config, o: Observer, r: Read): seq<Candidate> {
    var o' := Next(c, o, r);
    if r.issuer in o'.pairs && o'.pairs[r.issuer].done && !(r.issuer in o.pairs && o.pairs[r.issuer].done) then
      var p := o'.pairs[r.issuer];
      if p.cert == "" || p.key == "" || p.cert == p.key then [] else [NewCandidate(c, r.issuer, p.leaf, p.cert, p.key)]
    else []
  }

  function After(c: Config, loads: seq<Read>): Observer {
    if loads == [] then Observer(0, map[]) else Next(c, After(c, loads[..|loads| - 1]), loads[|loads| - 1])
  }

  function Emitted(c: Config, loads: seq<Read>): seq<Candidate> {
    if loads == [] then []
    else Emitted(c, loads[..|loads| - 1]) + Emits(c, After(c, loads[..|loads| - 1]), loads[|loads| - 1])
  }

  // ----- the declarative specification -----

  /** The first read of an issuer and kind among the first `n`, or -1. */
  function First(loads: seq<Read>, n: nat, issuer: string, ext: Ext): (i: int)
    requires n <= |loads|
    ensures -1 <= i < n
    ensures i >= 0 ==> loads[i].issuer == issuer && loads[i].ext == ext
    ensures forall j :: 0 <= j < (if i >= 0 then i else n) ==> loads[j].issuer != issuer || loads[j].ext != ext
  {
    if n == 0 then -1
    else
      var i := First(loads, n - 1, issuer, ext);
      if i >= 0 then i else if loads[n - 1].issuer == issuer && loads[n - 1].ext == ext then n - 1 else -1
  }

  /** The distinct issuers of the first `n` loads, in order of appearance. */
  function Issuers(loads: seq<Read>, n: nat): (s: seq<string>)
    requires n <= |loads|
  {
    if n == 0 then []
    else
      var s := Issuers(loads, n - 1);
      if loads[n - 1].issuer in s then s else s + [loads[n - 1].issuer]
  }

  function FirstFour(s: seq<string>): seq<string> { s[..Min(4, |s|)] }

  /** Read `n` completes a pair: it is among the first 16, of one of the first four issuers,
      the first of its kind for that issuer, and the other kind came before. */
  predicate Completes(loads: seq<Read>, n: nat)
    requires n < |loads|
  {
    && n < 16 && loads[n].issuer in FirstFour(Issuers(loads, n + 1))
    && First(loads, n, loads[n].issuer, loads[n].ext) == -1
    && First(loads, n, loads[n].issuer, if loads[n].ext == Crt then Key else Crt) >= 0
  }

  /** The candidate from the first certificate and the first key of the issuer of read `n`. */
  function PairAt(c: Config, loads: seq<Read>, n: nat): seq<Candidate>
    requires n < |loads| && Completes(loads, n)
  {
    var x := loads[n].issuer;
    var crt := if loads[n].ext == Crt then n else First(loads, n, x, Crt);
    var key := if loads[n].ext == Key then n else First(loads, n, x, Key);
    var fp := c.certFingerprints(loads[crt].plaintext);
    var k := c.keyFingerprint(loads[key].plaintext);
    if fp.1 == "" || k == "" || fp.1 == k then [] else [NewCandidate(c, x, fp.0, fp.1, k)]
  }

  function Expected(c: Config, loads: seq<Read>, n: nat): seq<Candidate>
    requires n <= |loads|
  {
    if n == 0 then [] else Expected(c, loads, n - 1) + if Completes(loads, n - 1) then PairAt(c, loads, n - 1) else []
  }

  // ----- the state says what the loads were -----

  ghost predicate Tracks(c: Config, o: Observer, loads: seq<Read>, n: nat)
    requires n <= |loads|
  {
    var m := Min(n, 16);
    && o.loads == m
    && (forall x :: x in o.pairs <==> x in FirstFour(Issuers(loads, m)))
    && (forall x :: x in o.pairs ==> PairTracks(c, o.pairs[x], loads, m, x))
  }

  ghost predicate PairTracks(c: Config, p: Pair, loads: seq<Read>, m: nat, x: string)
    requires m <= |loads|
  {
    var crt, key := First(loads, m, x, Crt), First(loads, m, x, Key);
    && p.certSeen == (crt >= 0) && p.keySeen == (key >= 0) && p.done == (crt >= 0 && key >= 0)
    && (crt >= 0 ==> (p.leaf, p.cert) == c.certFingerprints(loads[crt].plaintext))
    && (key >= 0 ==> p.key == c.keyFingerprint(loads[key].plaintext))
  }

  ghost predicate Distinct(s: seq<string>) { forall i, j :: 0 <= i < j < |s| ==> s[i] != s[j] }

  lemma DistinctCount(s: seq<string>, keys: set<string>)
    requires Distinct(s)
    requires forall x :: x in keys <==> x in s
    ensures |keys| == |s|
    decreases |s|
  {
    if s == [] { assert keys == {}; }
    else {
      var last := s[|s| - 1];
      DistinctCount(s[..|s| - 1], keys - {last});
    }
  }

  lemma {:induction false} IssuersDistinct(loads: seq<Read>, n: nat)
    requires n <= |loads|
    ensures Distinct(Issuers(loads, n))
  {
    if n > 0 {
      IssuersDistinct(loads, n - 1);
      var s := Issuers(loads, n - 1);
      if loads[n - 1].issuer !in s { assert Issuers(loads, n) == s + [loads[n - 1].issuer]; }
    }
  }

  lemma {:induction false} IssuersHold(loads: seq<Read>, n: nat, j: nat)
    requires j < n <= |loads|
    ensures loads[j].issuer in Issuers(loads, n)
  {
    if j < n - 1 { IssuersHold(loads, n - 1, j); }
  }

  lemma FourIssuers(c: Config, o: Observer, loads: seq<Read>, n: nat)
    requires n <= |loads| && Tracks(c, o, loads, n)
    ensures |o.pairs| == Min(4, |Issuers(loads, Min(n, 16))|)
  {
    IssuersDistinct(loads, Min(n, 16));
    DistinctCount(FirstFour(Issuers(loads, Min(n, 16))), o.pairs.Keys);
  }

  lemma NextTracks(c: Config, o: Observer, loads: seq<Read>, n: nat)
    requires n < |loads| && Tracks(c, o, loads, n)
    ensures Tracks(c, Next(c, o, loads[n]), loads, n + 1)
  {
    if n < 16 { NextKeys(c, o, loads, n); NextPairs(c, o, loads, n); }
  }

  lemma NextKeys(c: Config, o: Observer, loads: seq<Read>, n: nat)
    requires n < |loads| && n < 16 && Tracks(c, o, loads, n)
    ensures forall y :: y in Next(c, o, loads[n]).pairs <==> y in FirstFour(Issuers(loads, n + 1))
  {
    hide PairTracks, Seen, First, Issuers, FirstFour;
    FourIssuers(c, o, loads, n);
    IssuersStep(loads, n);
    KnownIssuer(loads, n);
  }

  lemma NextPairs(c: Config, o: Observer, loads: seq<Read>, n: nat)
    requires n < |loads| && n < 16 && Tracks(c, o, loads, n)
    ensures var o' := Next(c, o, loads[n]); forall y :: y in o'.pairs ==> PairTracks(c, o'.pairs[y], loads, n + 1, y)
  {
    hide PairTracks, Seen, First, Issuers, FirstFour;
    FourIssuers(c, o, loads, n);
    KnownIssuer(loads, n);
    var o', x := Next(c, o, loads[n]), loads[n].issuer;
    if x in o.pairs { SamePairStep(c, o.pairs[x], loads, n); }
    else if |o.pairs| < 4 { NewIssuer(loads, n); NewPairStep(c, loads, n); }
    forall y | y in o'.pairs ensures PairTracks(c, o'.pairs[y], loads, n + 1, y) {
      if y != x { OtherPairStep(c, o.pairs[y], loads, n, y); }
    }
  }

  lemma OtherPairStep(c: Config, p: Pair, loads: seq<Read>, n: nat, y: string)
    requires n < |loads| && PairTracks(c, p, loads, n, y) && y != loads[n].issuer
    ensures PairTracks(c, p, loads, n + 1, y)
  {}

  lemma SamePairStep(c: Config, p: Pair, loads: seq<Read>, n: nat)
    requires n < |loads| && PairTracks(c, p, loads, n, loads[n].issuer)
    ensures var again := p.done || (if loads[n].ext == Crt then p.certSeen else p.keySeen);
      PairTracks(c, if again then p else Seen(c, p, loads[n]), loads, n + 1, loads[n].issuer)
  {}

  lemma NewPairStep(c: Config, loads: seq<Read>, n: nat)
    requires n < |loads| && First(loads, n, loads[n].issuer, Crt) == -1 && First(loads, n, loads[n].issuer, Key) == -1
    ensures PairTracks(c, Seen(c, NO_PAIR, loads[n]), loads, n + 1, loads[n].issuer)
  {}

  /** The first four issuers only ever grow, by the issuer of the read. */
  lemma IssuersStep(loads: seq<Read>, n: nat)
    requires n < |loads|
    ensures var s, x := Issuers(loads, n), loads[n].issuer;
      forall y :: y in FirstFour(Issuers(loads, n + 1)) <==> y in FirstFour(s) || (y == x && x !in s && |s| < 4)
  {
    var s, x := Issuers(loads, n), loads[n].issuer;
    if x !in s {
      if |s| < 4 { assert FirstFour(s + [x]) == FirstFour(s) + [x]; }
      else { assert FirstFour(s + [x]) == FirstFour(s); }
    }
  }

  lemma NewIssuer(loads: seq<Read>, n: nat)
    requires n < |loads| && loads[n].issuer !in FirstFour(Issuers(loads, n)) && |Issuers(loads, n)| < 4
    ensures First(loads, n, loads[n].issuer, Crt) == -1 && First(loads, n, loads[n].issuer, Key) == -1
  {
    assert FirstFour(Issuers(loads, n)) == Issuers(loads, n);
    var x := loads[n].issuer;
    if First(loads, n, x, Crt) >= 0 { IssuersHold(loads, n, First(loads, n, x, Crt)); }
    if First(loads, n, x, Key) >= 0 { IssuersHold(loads, n, First(loads, n, x, Key)); }
  }

  /** One step emits exactly what the specification expects at that read. */
  lemma EmitsExpected(c: Config, o: Observer, loads: seq<Read>, n: nat)
    requires n < |loads| && Tracks(c, o, loads, n)
    ensures Emits(c, o, loads[n]) == if Completes(loads, n) then PairAt(c, loads, n) else []
  {
    var x := loads[n].issuer;
    if n < 16 {
      hide Issuers, FirstFour;
      FourIssuers(c, o, loads, n);
      IssuersStep(loads, n);
      KnownIssuer(loads, n);
      if x in o.pairs { assert PairTracks(c, o.pairs[x], loads, n, x); }
      else if |o.pairs| < 4 { NewIssuer(loads, n); }
    }
  }

  lemma KnownIssuer(loads: seq<Read>, n: nat)
    requires n < |loads|
    ensures loads[n].issuer in FirstFour(Issuers(loads, n)) ==> loads[n].issuer in Issuers(loads, n)
    ensures |Issuers(loads, n)| < 4 ==>
              (loads[n].issuer in FirstFour(Issuers(loads, n)) <==> loads[n].issuer in Issuers(loads, n))
  {
    var s := Issuers(loads, n);
    if |s| < 4 { assert FirstFour(s) == s; }
  }

  lemma {:induction false} RunTracks(c: Config, loads: seq<Read>, n: nat)
    requires n <= |loads|
    ensures Tracks(c, After(c, loads[..n]), loads, n)
    ensures Emitted(c, loads[..n]) == Expected(c, loads, n)
    decreases n
  {
    if n > 0 {
      RunTracks(c, loads, n - 1);
      assert loads[..n][..n - 1] == loads[..n - 1];
      hide Tracks, Next, Emits, Completes, PairAt;
      var o := After(c, loads[..n - 1]);
      NextTracks(c, o, loads, n - 1);
      EmitsExpected(c, o, loads, n - 1);
    }
  }

  /** For every sequence of loads of a handshake, the emitted candidates are exactly those
      of the specification, in the order in which the pairs become complete. */
  lemma ObserverMeetsSpec(c: Config, loads: seq<Read>)
    ensures Emitted(c, loads) == Expected(c, loads, |loads|)
  {
    RunTracks(c, loads, |loads|);
    assert loads[..|loads|] == loads;
  }

  lemma CompletesOnce(loads: seq<Read>, i: nat, j: nat)
    requires i < j < |loads| && Completes(loads, i) && Completes(loads, j)
    ensures loads[i].issuer != loads[j].issuer
  {
    var x := loads[i].issuer;
    var other := First(loads, i, x, if loads[i].ext == Crt then Key else Crt);
    assert loads[other].issuer == x && loads[other].ext != loads[i].ext;
  }

  /** A candidate of the specification comes from a read that completes a pair. */
  lemma {:induction false} ExpectedFrom(c: Config, loads: seq<Read>, n: nat, i: nat) returns (x: nat)
    requires n <= |loads| && i < |Expected(c, loads, n)|
    ensures x < n && Completes(loads, x) && [Expected(c, loads, n)[i]] == PairAt(c, loads, x)
    decreases n
  {
    hide Completes;
    if i < |Expected(c, loads, n - 1)| { x := ExpectedFrom(c, loads, n - 1, i); } else { x := n - 1; }
  }

  lemma {:induction false} ExpectedOnce(c: Config, loads: seq<Read>, n: nat, i: nat, j: nat)
    requires n <= |loads| && i < j < |Expected(c, loads, n)|
    ensures Expected(c, loads, n)[i].issuer != Expected(c, loads, n)[j].issuer
    decreases n
  {
    hide Completes;
    if j < |Expected(c, loads, n - 1)| {
      ExpectedOnce(c, loads, n - 1, i, j);
    } else {
      var x := ExpectedFrom(c, loads, n - 1, i);
      CompletesOnce(loads, x, n - 1);
    }
  }

  /** No issuer is reported twice. */
  lemma OncePerIssuer(c: Config, loads: seq<Read>, i: nat, j: nat)
    requires i < j < |Emitted(c, loads)|
    ensures Emitted(c, loads)[i].issuer != Emitted(c, loads)[j].issuer
  {
    ObserverMeetsSpec(c, loads);
    ExpectedOnce(c, loads, |loads|, i, j);
  }

  // ----- what a candidate holds, and which storage keys count -----

  /** `m` tells the first certificate and the first key that were loaded for its issuer. */
  ghost predicate PairOf(c: Config, loads: seq<Read>, m: Candidate, crt: nat, key: nat) {
    && crt < |loads| && loads[crt].issuer == m.issuer && loads[crt].ext == Crt
    && key < |loads| && loads[key].issuer == m.issuer && loads[key].ext == Key
    && (forall j :: 0 <= j < crt ==> loads[j].issuer != m.issuer || loads[j].ext != Crt)
    && (forall j :: 0 <= j < key ==> loads[j].issuer != m.issuer || loads[j].ext != Key)
    && (m.leaf, m.cert) == c.certFingerprints(loads[crt].plaintext) && m.key == c.keyFingerprint(loads[key].plaintext)
  }

  /** The field by field contents of every emitted candidate. */
  lemma CandidateContents(c: Config, loads: seq<Read>, i: nat)
    requires i < |Emitted(c, loads)|
    ensures var m := Emitted(c, loads)[i];
      && m.hostname == c.hostname && m.cert != "" && m.key != "" && m.cert != m.key
      && m.certPath == "certificates/" + m.issuer + "/" + c.hostname + "/" + c.hostname + ".crt"
      && m.keyPath == "certificates/" + m.issuer + "/" + c.hostname + "/" + c.hostname + ".key"
      && exists crt, key :: PairOf(c, loads, m, crt, key)
  {
    ObserverMeetsSpec(c, loads);
    var n := ExpectedFrom(c, loads, |loads|, i);
    var m := Emitted(c, loads)[i];
    var crt := if loads[n].ext == Crt then n else First(loads, n, m.issuer, Crt);
    var key := if loads[n].ext == Key then n else First(loads, n, m.issuer, Key);
    assert PairOf(c, loads, m, crt, key);
  }

  /** The storage keys that concern a hostname, as strings. */
  lemma ScopeAsStrings(hostname: string, issuer: string, storageKey: string, plaintext: string)
    ensures InScope(hostname, storageKey, plaintext) == Some(Read(issuer, Crt, plaintext)) <==>
      && ValidIssuer(issuer) && Paths.NoSlash(hostname)
      && storageKey == "certificates/" + issuer + "/" + hostname + "/" + hostname + ".crt"
    ensures InScope(hostname, storageKey, plaintext) == Some(Read(issuer, Key, plaintext)) <==>
      && ValidIssuer(issuer) && Paths.NoSlash(hostname)
      && storageKey == "certificates/" + issuer + "/" + hostname + "/" + hostname + ".key"
    ensures InScope(hostname, storageKey, plaintext).Some? ==>
      InScope(hostname, storageKey, plaintext).value.plaintext == plaintext
  {
    hide ValidIssuer, Paths.Split, Paths.NoSlash;
    FourSegments(storageKey);
    ScopeOfFile(hostname, issuer, ".crt");
    ScopeOfFile(hostname, issuer, ".key");
    assert hostname + ".crt" != hostname + ".key" by {
      assert (hostname + ".crt")[|hostname| + 1] == 'c' && (hostname + ".key")[|hostname| + 1] == 'k';
    }
  }

  /** The two ways to write the storage key of a file, and its segments. */
  lemma ScopeOfFile(hostname: string, issuer: string, ext: string)
    ensures "certificates" + "/" + issuer + "/" + hostname + "/" + (hostname + ext) ==
            "certificates/" + issuer + "/" + hostname + "/" + hostname + ext
    ensures ValidIssuer(issuer) && Paths.NoSlash(hostname) && Paths.NoSlash(ext) ==>
      Paths.Split("certificates/" + issuer + "/" + hostname + "/" + hostname + ext) ==
      ["certificates", issuer, hostname, hostname + ext]
    ensures Paths.NoSlash(".crt") && Paths.NoSlash(".key")
  {
    var path := "certificates" + "/" + issuer + "/" + hostname + "/" + (hostname + ext);
    assert path == "certificates/" + issuer + "/" + hostname + "/" + hostname + ext;
    if ValidIssuer(issuer) && Paths.NoSlash(hostname) && Paths.NoSlash(ext) {
      RenderFour("certificates", issuer, hostname, hostname + ext);
      Paths.SplitRender(["certificates", issuer, hostname, hostname + ext]);
    }
  }

  lemma FourSegments(storageKey: string)
    ensures var parts := Paths.Split(storageKey);
      |parts| == 4 ==>
        && storageKey == parts[0] + "/" + parts[1] + "/" + parts[2] + "/" + parts[3]
        && Paths.NoSlash(parts[2])
  {
    Paths.RenderSplit(storageKey);
    var parts := Paths.Split(storageKey);
    if |parts| == 4 {
      assert parts == [parts[0], parts[1], parts[2], parts[3]];
      RenderFour(parts[0], parts[1], parts[2], parts[3]);
    }
  }

  lemma RenderFour(a: string, b: string, c: string, d: string)
    ensures Paths.Render([a, b, c, d]) == a + "/" + b + "/" + c + "/" + d
  {
    assert [a, b, c, d][1..] == [b, c, d] && [b, c, d][1..] == [c, d] && [c, d][1..] == [d];
    assert Paths.Render([c, d]) == c + "/" + d;
    assert Paths.Render([b, c, d]) == b + "/" + (c + "/" + d);
  }

  // ----- from the raw loads of a handshake -----

  datatype Load = Load(storageKey: string, plaintext: string)

  /** The loads that concern the hostname. */
  function Reads(hostname: string, history: seq<Load>): seq<Read> {
    if history == [] then []
    else
      var last := history[|history| - 1];
      var r := InScope(hostname, last.storageKey, last.plaintext);
      Reads(hostname, history[..|history| - 1]) + if r.Some? then [r.value] else []
  }

  lemma NothingEmittedYet(c: Config)
    ensures Emitted(c, []) == []
  {}

  lemma ReadsGrow(c: Config, history: seq<Load>, last: Load)
    ensures var before, after := Reads(c.hostname, history), Reads(c.hostname, history + [last]);
      var r := InScope(c.hostname, last.storageKey, last.plaintext);
      if r.None? then after == before
      else After(c, after) == Next(c, After(c, before), r.value)
           && Emitted(c, after) == Emitted(c, before) + Emits(c, After(c, before), r.value)
  {
    hide InScope, Next, Emits;
    assert (history + [last])[..|history|] == history;
    var before, after := Reads(c.hostname, history), Reads(c.hostname, history + [last]);
    if after != before { assert after[..|before|] == before && |after| == |before| + 1; }
  }

  // ----- the object -----

  class Observing {
    const config: Config
    const enabled: bool                 // a sink is set and the hostname is valid
    var loads: nat
    var pairs: map<string, Pair>
    var emitted: seq<Candidate>         // what went to the sink
    ghost var history: seq<Load>        // every load of the handshake

    constructor (config: Config, enabled: bool)
      ensures this.config == config && this.enabled == enabled && history == [] && emitted == [] && Valid()
    {
      this.config, this.enabled := config, enabled;
      loads, pairs, emitted, history := 0, map[], [], [];
    }

    /** The fields are what the loads so far make of them. */
    ghost predicate Valid()
      reads this
    {
      var rs := if enabled then Reads(config.hostname, history) else [];
      View() == After(config, rs) && emitted == Emitted(config, rs)
    }

    function View(): Observer
      reads this
    {
      Observer(loads, pairs)
    }

    /** For every sequence of raw loads, in scope or not, the sink has received exactly the
        candidates of the specification. */
    method Observe(storageKey: string, plaintext: string)
      requires Valid()
      modifies this
      ensures Valid() && history == old(history) + [Load(storageKey, plaintext)]
      ensures var rs := Reads(config.hostname, history);
        emitted == if enabled then Expected(config, rs, |rs|) else []
      ensures var r := InScope(config.hostname, storageKey, plaintext);
        if !enabled || r.None? then View() == old(View()) && emitted == old(emitted)
        else
          && View() == Next(config, old(View()), r.value)
          && emitted == old(emitted) + Emits(config, old(View()), r.value)
    {
      hide Reads, After, Emitted, Expected;
      history := history + [Load(storageKey, plaintext)];
      ReadsGrow(config, old(history), Load(storageKey, plaintext));
      ObserverMeetsSpec(config, Reads(config.hostname, history));
      NothingEmittedYet(config);
      Pairing(storageKey, plaintext);
    }

    /** The update of the pairs. */
    method Pairing(storageKey: string, plaintext: string)
      modifies this`loads, this`pairs, this`emitted
      ensures var r := InScope(config.hostname, storageKey, plaintext);
        if !enabled || r.None? then View() == old(View()) && emitted == old(emitted)
        else
          && View() == Next(config, old(View()), r.value)
          && emitted == old(emitted) + Emits(config, old(View()), r.value)
    {
      if !enabled { return; }
      var parts := Paths.Split(storageKey);
      if |parts| != 4 || parts[0] != "certificates" || !ValidIssuer(parts[1]) || parts[2] != config.hostname { return; }
      var isCrt, isKey := parts[3] == config.hostname + ".crt", parts[3] == config.hostname + ".key";
      if !isCrt && !isKey { return; }
      if loads >= 16 { return; }
      loads := loads + 1;
      if parts[1] !in pairs {
        if |pairs| >= 4 { return; }
        pairs := pairs[parts[1] := NO_PAIR];
      }
      var p := pairs[parts[1]];
      if p.done || (if isCrt then p.certSeen else p.keySeen) { return; }
      if isCrt {
        var fp := config.certFingerprints(plaintext);
        p := p.(certSeen := true, leaf := fp.0, cert := fp.1);
      } else {
        p := p.(keySeen := true, key := config.keyFingerprint(plaintext));
      }
      if p.certSeen && p.keySeen {
        p := p.(done := true);
        if !(p.cert == "" || p.key == "" || p.cert == p.key) {
          emitted := emitted + [NewCandidate(config, parts[1], p.leaf, p.cert, p.key)];
        }
      }
      pairs := pairs[parts[1] := p];
    }
  }
}
