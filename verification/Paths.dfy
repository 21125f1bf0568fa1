/** The slash-separated strings that storage.go uses for Redis keys, with package path's
    Clean, Join, Dir and Base.  The other modules name keys by their segments; here the
    segments are shown to be a faithful view of the strings. */
module Paths {
  import opened Common
  import opened Redis
  import DirectoryIndex

  predicate NoSlash(s: string) { '/' !in s }

  /** strings.Split(s, "/") */
  function Split(s: string): (r: seq<string>)
    ensures |r| >= 1
  {
    if s == "" then [""]
    else
      var r := Split(s[1..]);
      if s[0] == '/' then [""] + r else [[s[0]] + r[0]] + r[1..]
  }

  /** strings.Join(p, "/") */
  function Render(p: Path): string {
    if p == [] then "" else if |p| == 1 then p[0] else p[0] + "/" + Render(p[1..])
  }

  /** The segments of a clean relative path. */
  predicate IsClean(p: Path) {
    forall i :: 0 <= i < |p| ==> p[i] != "" && p[i] != "." && p[i] != ".." && NoSlash(p[i])
  }

  // ----- package path -----

  function Reduce(segs: seq<string>, rooted: bool, acc: seq<string>): seq<string>
    decreases |segs|
  {
    if segs == [] then acc
    else if segs[0] == "" || segs[0] == "." then Reduce(segs[1..], rooted, acc)
    else if segs[0] != ".." then Reduce(segs[1..], rooted, acc + [segs[0]])
    else if |acc| > 0 && acc[|acc| - 1] != ".." then Reduce(segs[1..], rooted, acc[..|acc| - 1])
    else if rooted then Reduce(segs[1..], rooted, acc)
    else Reduce(segs[1..], rooted, acc + [".."])
  }

  function Clean(s: string): string {
    if s == "" then "."
    else
      var rooted := s[0] == '/';
      var out := Render(Reduce(Split(s), rooted, []));
      if rooted then "/" + out else if out == "" then "." else out
  }

  function Join(a: string, b: string): string {
    if a == "" && b == "" then ""
    else Clean(if a == "" then b else if b == "" then a else a + "/" + b)
  }

  /** The position of the last slash, or -1. */
  function LastSlash(s: string): (i: int)
    ensures -1 <= i < |s|
    ensures i >= 0 ==> s[i] == '/'
    ensures forall j :: i < j < |s| ==> s[j] != '/'
  {
    if s == "" then -1 else if s[|s| - 1] == '/' then |s| - 1 else LastSlash(s[..|s| - 1])
  }

  function Dir(s: string): string { Clean(s[..LastSlash(s) + 1]) }

  function StripSlashes(s: string): string {
    if s != "" && s[|s| - 1] == '/' then StripSlashes(s[..|s| - 1]) else s
  }

  function Base(s: string): string {
    if s == "" then "."
    else
      var t := StripSlashes(s);
      if t == "" then "/" else t[LastSlash(t) + 1..]
  }

  function TrimPrefix(s: string, t: string): string { if t <= s then s[|t|..] else s }

  // ----- storage.go -----

  function PrefixKey(prefix: string, key: string): string { Join(prefix, key) }

  function TrimKey(prefix: string, key: string): string { TrimPrefix(TrimPrefix(key, prefix), "/") }

  function SplitDirectoryKey(key: string, baseIsDir: bool): (string, string) {
    (Dir(key), if baseIsDir then Base(key) + "/" else Base(key))
  }

  /** A set member as the source writes it: directories end in a slash. */
  function RenderMember(m: Member): string { if m.Dir? then m.name + "/" else m.name }

  function TrimSlashSuffix(s: string): string { if s != "" && s[|s| - 1] == '/' then s[..|s| - 1] else s }

  // ----- Split and Render undo each other -----

  lemma {:induction false} SplitSegment(seg: string, rest: string)
    requires NoSlash(seg)
    ensures Split(seg + "/" + rest) == [seg] + Split(rest)
    ensures Split(seg) == [seg]
    decreases |seg|
  {
    if seg == "" {
      assert seg + "/" + rest == "/" + rest && ("/" + rest)[1..] == rest;
    } else {
      var s := seg + "/" + rest;
      assert s[1..] == seg[1..] + "/" + rest && s[0] == seg[0];
      SplitSegment(seg[1..], rest);
      assert [seg[0]] + seg[1..] == seg;
    }
  }

  lemma {:induction false} SplitRender(p: Path)
    requires |p| >= 1 && forall i :: 0 <= i < |p| ==> NoSlash(p[i])
    ensures Split(Render(p)) == p
    decreases |p|
  {
    if |p| == 1 { SplitSegment(p[0], ""); }
    else { SplitSegment(p[0], Render(p[1..])); SplitRender(p[1..]); }
  }

  lemma {:induction false} RenderSplit(s: string)
    ensures Render(Split(s)) == s
    ensures forall i :: 0 <= i < |Split(s)| ==> NoSlash(Split(s)[i])
    decreases |s|
  {
    if s != "" {
      RenderSplit(s[1..]);
      var r, t := Split(s[1..]), Split(s);
      assert s == [s[0]] + s[1..];
      if s[0] == '/' { assert t[1..] == r; }
      else { assert t[1..] == r[1..] && t[0] == [s[0]] + r[0]; }
    }
  }

  /** Different clean paths are different Redis keys. */
  lemma RenderInjective(p: Path, q: Path)
    requires IsClean(p) && IsClean(q) && Render(p) == Render(q)
    ensures p == q
  {
    RenderNonEmpty(p);
    RenderNonEmpty(q);
    if p != [] && q != [] { SplitRender(p); SplitRender(q); }
  }

  lemma RenderNonEmpty(p: Path)
    requires IsClean(p)
    ensures Render(p) == "" <==> p == []
    ensures p != [] ==> Render(p)[0] != '/' && Render(p) != "."
  {
    if p != [] { assert p[0] != ""; }
  }

  lemma {:induction false} RenderConcat(p: Path, q: Path)
    requires p != [] && q != []
    ensures Render(p + q) == Render(p) + "/" + Render(q)
    decreases |p|
  {
    if |p| == 1 { assert (p + q)[1..] == q; }
    else { assert (p + q)[1..] == p[1..] + q; RenderConcat(p[1..], q); }
  }

  // ----- clean paths -----

  lemma {:induction false} ReduceClean(p: Path, acc: Path)
    requires IsClean(p)
    ensures Reduce(p, false, acc) == acc + p
    decreases |p|
  {
    if p != [] {
      ReduceClean(p[1..], acc + [p[0]]);
      assert acc + [p[0]] + p[1..] == acc + p;
    }
  }

  lemma {:induction false} ReduceTrailing(p: Path, acc: Path)
    requires IsClean(p)
    ensures Reduce(p + [""], false, acc) == acc + p
    decreases |p|
  {
    if p == [] { assert (p + [""])[1..] == []; }
    else {
      assert (p + [""])[1..] == p[1..] + [""];
      ReduceTrailing(p[1..], acc + [p[0]]);
      assert acc + [p[0]] + p[1..] == acc + p;
    }
  }

  lemma CleanRender(p: Path)
    requires IsClean(p) && p != []
    ensures Clean(Render(p)) == Render(p)
  {
    RenderNonEmpty(p);
    SplitRender(p);
    ReduceClean(p, []);
    assert [] + p == p;
  }

  /** path.Join of clean paths joins the segments. */
  lemma JoinRender(p: Path, q: Path)
    requires IsClean(p) && IsClean(q)
    ensures Join(Render(p), Render(q)) == Render(p + q)
  {
    RenderNonEmpty(p);
    RenderNonEmpty(q);
    if p == [] { assert p + q == q; if q != [] { CleanRender(q); } }
    else if q == [] { assert p + q == p; CleanRender(p); }
    else { RenderConcat(p, q); CleanRender(p + q); }
  }

  lemma {:induction false} LastSlashAt(a: string, b: string)
    requires NoSlash(b)
    ensures LastSlash(a + "/" + b) == |a| && LastSlash(b) == -1
    decreases |b|
  {
    var s := a + "/" + b;
    if b != "" {
      LastSlashAt(a, b[..|b| - 1]);
      assert s[..|s| - 1] == a + "/" + b[..|b| - 1] && s[|s| - 1] == b[|b| - 1];
    }
  }

  lemma CleanTrailing(p: Path)
    requires IsClean(p) && p != []
    ensures Clean(Render(p) + "/") == Render(p)
  {
    RenderNonEmpty(p);
    assert Render(p + [""]) == Render(p) + "/" + "" by { RenderConcat(p, [""]); }
    SplitRender(p + [""]);
    ReduceTrailing(p, []);
    assert [] + p == p && Render(p) + "/" + "" == Render(p) + "/";
  }

  lemma ParentAndLast(p: Path)
    requires p != []
    ensures p == DirectoryIndex.Parent(p) + [p[|p| - 1]]
  {}

  lemma RenderSnoc(up: Path, last: string)
    requires up != []
    ensures Render(up + [last]) == Render(up) + "/" + last
  {
    RenderConcat(up, [last]);
  }

  lemma CleanEmpty()
    ensures Clean("") == "."
  {}

  lemma DirOfLast(a: string, b: string)
    requires NoSlash(b)
    ensures Dir(a + "/" + b) == Clean(a + "/") && Dir(b) == "."
  {
    hide Clean;
    LastSlashAt(a, b);
    assert (a + "/" + b)[..|a| + 1] == a + "/" && b[..0] == "";
    CleanEmpty();
  }

  lemma BaseOfLast(a: string, b: string)
    requires NoSlash(b) && b != ""
    ensures Base(a + "/" + b) == b && Base(b) == b
  {
    LastSlashAt(a, b);
    var s := a + "/" + b;
    assert s[|s| - 1] == b[|b| - 1] != '/';
    assert s[|a| + 1..] == b && b[0..] == b;
  }

  lemma DirAndBase(up: Path, last: string)
    requires IsClean(up) && NoSlash(last) && last != ""
    ensures Base(Render(up + [last])) == last
    ensures Dir(Render(up + [last])) == if up == [] then "." else Render(up)
    ensures up != [] ==> |Render(up)| < |Render(up + [last])|
  {
    hide Dir, Base, Clean;
    DirOfLast(Render(up), last);
    BaseOfLast(Render(up), last);
    if up == [] { assert up + [last] == [last]; }
    else { RenderSnoc(up, last); CleanTrailing(up); }
  }

  /** splitDirectoryKey takes the last segment off: the climb of Store and Delete runs over
      the segments, and the top-level test for "." is the test for a single segment. */
  lemma SplitDirectoryKeyOnSegments(p: Path, isDir: bool)
    requires IsClean(p) && p != []
    ensures SplitDirectoryKey(Render(p), isDir) ==
      (if |p| == 1 then "." else Render(DirectoryIndex.Parent(p)), RenderMember(DirectoryIndex.Base(p, isDir)))
    ensures SplitDirectoryKey(Render(p), isDir).0 == "." <==> |p| == 1
    ensures |p| > 1 ==> |Render(DirectoryIndex.Parent(p))| < |Render(p)|
  {
    hide Dir, Base, Render;
    var up := DirectoryIndex.Parent(p);
    ParentAndLast(p);
    DirAndBase(up, p[|p| - 1]);
    RenderNonEmpty(up);
  }

  /** The trailing slash tells directories from files, and removing it gives the name. */
  lemma MemberRoundTrip(m: Member)
    requires NoSlash(m.name)
    ensures TrimSlashSuffix(RenderMember(m)) == m.name
    ensures RenderMember(m) != TrimSlashSuffix(RenderMember(m)) <==> m.Dir?
  {}

  // ----- prefixKey and trimKey -----

  /** prefixKey and trimKey undo each other on the keys below the prefix, also for an empty
      prefix and for the root. */
  lemma PrefixRoundTrip(prefix: Path, key: Path)
    requires IsClean(prefix) && IsClean(key)
    ensures PrefixKey(Render(prefix), Render(key)) == Render(prefix + key)
    ensures TrimKey(Render(prefix), Render(prefix + key)) == Render(key)
  {
    JoinRender(prefix, key);
    RenderNonEmpty(key);
    if prefix == [] { assert prefix + key == key; }
    else if key == [] { assert prefix + key == prefix; }
    else {
      RenderConcat(prefix, key);
      TrimJoined(Render(prefix), Render(key));
    }
  }

  lemma TrimJoined(a: string, b: string)
    ensures TrimKey(a, a + "/" + b) == b
  {
    assert (a + "/" + b)[|a|..] == "/" + b && ("/" + b)[1..] == b;
  }

  /** The pattern of Repair's SCAN also matches keys of a prefix that merely starts with
      the same characters; for those the code loads a different key, below its own prefix. */
  lemma ForeignKeyResolvesElsewhere(prefix: Path, rest: Path)
    requires IsClean(prefix) && prefix != [] && IsClean(rest) && rest != []
    ensures var foreign := Render(prefix) + Render(rest);
      && Render(prefix) <= foreign
      && PrefixKey(Render(prefix), TrimKey(Render(prefix), foreign)) == Render(prefix + rest) != foreign
  {
    var foreign := Render(prefix) + Render(rest);
    assert foreign[|Render(prefix)|..] == Render(rest);
    RenderNonEmpty(rest);
    JoinRender(prefix, rest);
    RenderConcat(prefix, rest);
  }

  // ----- normalizeKeyPrefix -----

  predicate IsSpace(c: char) {
    || c in {'\t', '\n', '\U{000B}', '\U{000C}', '\r', ' ', '\U{0085}', '\U{00A0}'}
    || c in {'\U{1680}', '\U{2028}', '\U{2029}', '\U{202F}', '\U{205F}', '\U{3000}'}
    || '\U{2000}' <= c <= '\U{200A}'
  }

  function TrimLeft(s: string, f: char -> bool): string { if s != "" && f(s[0]) then TrimLeft(s[1..], f) else s }

  function TrimRight(s: string, f: char -> bool): string {
    if s != "" && f(s[|s| - 1]) then TrimRight(s[..|s| - 1], f) else s
  }

  function Trim(s: string, f: char -> bool): string { TrimRight(TrimLeft(s, f), f) }

  predicate IsSlash(c: char) { c == '/' }

  function NormalizeKeyPrefix(prefix: string): Option<string> {
    var p := Trim(Trim(prefix, IsSpace), IsSlash);
    if p != "" && exists i :: 0 <= i < |Split(p)| && Split(p)[i] in ["", ".", ".."] then None else Some(p)
  }

  /** An accepted prefix is empty or the string of a clean path. */
  lemma NormalizedPrefixIsClean(prefix: string)
    ensures var r := NormalizeKeyPrefix(prefix);
      r.Some? && r.value != "" ==> IsClean(Split(r.value)) && Render(Split(r.value)) == r.value
  {
    var r := NormalizeKeyPrefix(prefix);
    if r.Some? { RenderSplit(r.value); }
  }

  lemma {:induction false} TrimmedEnds(s: string, f: char -> bool)
    ensures var t := Trim(s, f); t != "" ==> !f(t[0]) && !f(t[|t| - 1])
    ensures |Trim(s, f)| <= |s| && (|Trim(s, f)| == |s| ==> Trim(s, f) == s)
    ensures (s != "" ==> !f(s[0]) && !f(s[|s| - 1])) ==> Trim(s, f) == s
  {
    TrimLeftEnds(s, f);
    TrimRightEnds(TrimLeft(s, f), f);
  }

  lemma {:induction false} TrimLeftEnds(s: string, f: char -> bool)
    ensures var t := TrimLeft(s, f); |t| <= |s| && (|t| == |s| ==> t == s) && (t != "" ==> !f(t[0]))
  {
    if s != "" && f(s[0]) { TrimLeftEnds(s[1..], f); }
  }

  lemma {:induction false} TrimRightEnds(s: string, f: char -> bool)
    ensures var t := TrimRight(s, f); t <= s && (t != "" ==> !f(t[|t| - 1]))
  {
    if s != "" && f(s[|s| - 1]) { TrimRightEnds(s[..|s| - 1], f); }
  }

  /** Normalising twice is not normalising once: an accepted prefix changes again exactly when
      a space stands next to the slashes, that is, at an end of what is left between them. */
  lemma NormalizeTwiceIff(prefix: string)
    ensures var inner := Trim(Trim(prefix, IsSpace), IsSlash);
      var r := NormalizeKeyPrefix(prefix);
      r.Some? ==> (NormalizeKeyPrefix(r.value) == r <==>
                   inner == "" || (!IsSpace(inner[0]) && !IsSpace(inner[|inner| - 1])))
  {
    var r := NormalizeKeyPrefix(prefix);
    TrimmedEnds(Trim(prefix, IsSpace), IsSlash);
    if r.Some? {
      TrimmedEnds(r.value, IsSpace);
      TrimmedEnds(r.value, IsSlash);
      TrimmedEnds(Trim(r.value, IsSpace), IsSlash);
    }
  }

  /** An input that is normalised in two steps. */
  lemma NormalizeTwiceExample()
    ensures NormalizeKeyPrefix("/ caddy /") == Some(" caddy ") && NormalizeKeyPrefix(" caddy ") == Some("caddy")
  {
    hide Split, Trim;
    SplitSegment(" caddy ", "");
    SplitSegment("caddy", "");
    TrimExampleSlashes();
    TrimExampleSpaces();
  }

  lemma TrimExampleSlashes()
    ensures Trim("/ caddy /", IsSpace) == "/ caddy /" && Trim("/ caddy /", IsSlash) == " caddy "
  {
    var s := "/ caddy /";
    assert TrimLeft(s, IsSpace) == s && TrimRight(s, IsSpace) == s;
    assert s[1..] == " caddy /" && s[1..][..7] == " caddy ";
    assert TrimLeft(s, IsSlash) == s[1..] && TrimRight(s[1..], IsSlash) == " caddy ";
  }

  lemma TrimExampleSpaces()
    ensures Trim(" caddy ", IsSpace) == "caddy" && Trim("caddy", IsSlash) == "caddy"
  {
    var t := " caddy ";
    assert t[1..] == "caddy " && t[1..][..5] == "caddy";
    assert TrimLeft(t, IsSpace) == t[1..] && TrimRight(t[1..], IsSpace) == "caddy";
    assert TrimLeft("caddy", IsSlash) == "caddy" && TrimRight("caddy", IsSlash) == "caddy";
  }
}
