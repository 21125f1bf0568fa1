/** The glob-style patterns of the Redis command SCAN, and which keys the pattern of Repair,
    the key prefix followed by a star, covers. */
module ScanPattern {
  import opened Common
  import Paths

  /** The rest of a character class after its opening bracket: whether it admits `c`, and the
      pattern behind it.  An unclosed class ends with the pattern. */
  function Class(p: string, c: char): (bool, string)
    decreases |p|
  {
    if p == "" then (false, "")
    else if p[0] == ']' then (false, p[1..])
    else if p[0] == '\\' && |p| >= 2 then
      var (in_, rest) := Class(p[2..], c);
      (in_ || p[1] == c, rest)
    else if |p| >= 3 && p[1] == '-' then
      var (in_, rest) := Class(p[3..], c);
      (in_ || p[0] <= c <= p[2] || p[2] <= c <= p[0], rest)
    else
      var (in_, rest) := Class(p[1..], c);
      (in_ || p[0] == c, rest)
  }

  lemma {:induction false} ClassShrinks(p: string, c: char)
    ensures |Class(p, c).1| <= |p|
    decreases |p|
  {
    if p != "" && p[0] != ']' {
      if p[0] == '\\' && |p| >= 2 { ClassShrinks(p[2..], c); }
      else if |p| >= 3 && p[1] == '-' { ClassShrinks(p[3..], c); }
      else { ClassShrinks(p[1..], c); }
    }
  }

  /** Does the pattern match the key? */
  function Matches(p: string, s: string): bool
    decreases |p| + |s|
  {
    if p == "" then s == ""
    else if p[0] == '*' then Matches(p[1..], s) || (s != "" && Matches(p, s[1..]))
    else if s == "" then false
    else if p[0] == '?' then Matches(p[1..], s[1..])
    else if p[0] == '[' then
      var negated := |p| >= 2 && p[1] == '^';
      var body := if negated then p[2..] else p[1..];
      var (in_, rest) := Class(body, s[0]);
      ClassShrinks(body, s[0]);
      in_ != negated && Matches(rest, s[1..])
    else if p[0] == '\\' && |p| >= 2 then p[1] == s[0] && Matches(p[2..], s[1..])
    else p[0] == s[0] && Matches(p[1..], s[1..])
  }

  /** No character that stands for something else than itself at its place. */
  predicate Harmless(p: string) { '[' !in p && '\\' !in p }

  predicate Literal(p: string) { Harmless(p) && '*' !in p && '?' !in p }

  lemma {:induction false} StarMatchesAll(s: string)
    ensures Matches("*", s)
    decreases |s|
  {
    if s != "" { StarMatchesAll(s[1..]); }
    assert "*"[1..] == "";
  }

  /** A prefix without brackets and backslashes covers every key that starts with it. */
  lemma {:induction false} HarmlessCoversOwn(p: string, rest: string)
    requires Harmless(p)
    ensures Matches(p + "*", p + rest)
    decreases |p|
  {
    if p == "" {
      assert p + "*" == "*" && p + rest == rest;
      StarMatchesAll(rest);
    } else {
      assert p[0] in p && (p + "*")[0] == p[0] && (p + rest)[0] == p[0];
      assert (p + "*")[1..] == p[1..] + "*" && (p + rest)[1..] == p[1..] + rest;
      HarmlessCoversOwn(p[1..], rest);
      if p[0] == '*' { StarSkips(p[1..] + "*", p + rest); }
    }
  }

  /** A star may stand for one character more. */
  lemma StarSkips(p: string, s: string)
    requires s != "" && Matches(p, s[1..])
    ensures Matches("*" + p, s)
  {
    var q := "*" + p;
    assert q[0] == '*' && q[1..] == p;
    assert Matches(q, s[1..]);
  }

  /** A prefix without any special character covers exactly the keys that start with it. */
  lemma {:induction false} LiteralCoversExactly(p: string, s: string)
    requires Literal(p)
    ensures Matches(p + "*", s) <==> p <= s
    decreases |p|
  {
    if p == "" {
      assert p + "*" == "*";
      StarMatchesAll(s);
    } else {
      assert p[0] in p && (p + "*")[0] == p[0] && (p + "*")[1..] == p[1..] + "*";
      if s != "" {
        LiteralCoversExactly(p[1..], s[1..]);
        assert p <= s <==> p[0] == s[0] && p[1..] <= s[1..];
      }
    }
  }

  /** A prefix that normalizeKeyPrefix accepts and whose own keys the pattern misses. */
  lemma BracketMissesOwn(rest: string)
    ensures Paths.NormalizeKeyPrefix("ca[dd]y") == Some("ca[dd]y")
    ensures !Matches("ca[dd]y*", "ca[dd]y" + rest)
  {
    var s := "ca[dd]y" + rest;
    assert s[0] == 'c' && s[1..][0] == 'a' && s[2..][0] == '[' && s[1..][1..] == s[2..];
    assert "ca[dd]y*"[1..] == "a[dd]y*" && "a[dd]y*"[1..] == "[dd]y*" && "[dd]y*"[1..] == "dd]y*";
    assert "dd]y*"[1..] == "d]y*" && "d]y*"[1..] == "]y*";
    assert !Class("]y*", '[').0;
    assert !Class("d]y*", '[').0;
    assert !Class("dd]y*", '[').0;
    assert !Matches("[dd]y*", s[2..]);
    assert !Matches("a[dd]y*", s[1..]);
    BracketIsAccepted();
  }

  lemma BracketIsAccepted()
    ensures Paths.NormalizeKeyPrefix("ca[dd]y") == Some("ca[dd]y")
  {
    hide Paths.Split, Paths.Trim;
    Paths.TrimmedEnds("ca[dd]y", Paths.IsSpace);
    Paths.TrimmedEnds("ca[dd]y", Paths.IsSlash);
    Paths.SplitSegment("ca[dd]y", "");
  }
}
