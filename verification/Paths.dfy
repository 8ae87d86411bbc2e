/** internal/archive/archive.go: lexical path cleaning, and the two containment checks. */
module Paths {
  import opened Bytes

  type Parts = seq<string>

  /** A name that stands for one directory entry. */
  predicate Ordinary(part: string) {
    part != "" && part != "." && part != ".." && '/' !in part
  }

  predicate AllOrdinary(parts: Parts) {
    forall p <- parts :: Ordinary(p)
  }

  /** The components between slashes; there is always at least one. */
  function Split(s: string): (parts: Parts)
    ensures |parts| > 0 && forall p <- parts :: '/' !in p
  {
    if s == "" then [""]
    else
      var rest := Split(s[1..]);
      if s[0] == '/' then [""] + rest else [[s[0]] + rest[0]] + rest[1..]
  }

  function Join(parts: Parts): string {
    if parts == [] then "" else if |parts| == 1 then parts[0] else parts[0] + "/" + Join(parts[1..])
  }

  /** One component of the lexical cleaning of a relative path, applied to what is already out. */
  function CleanOne(done: Parts, part: string): Parts {
    if part == "" || part == "." then done
    else if part == ".." && done != [] && done[|done| - 1] != ".." then done[..|done| - 1]
    else done + [part]
  }

  function CleanParts(parts: Parts): Parts {
    if parts == [] then [] else CleanOne(CleanParts(parts[..|parts| - 1]), parts[|parts| - 1])
  }

  /** `path.Clean` on a relative path. */
  function Clean(name: string): string {
    var parts := CleanParts(Split(name));
    if parts == [] then "." else Join(parts)
  }

  predicate IsAbs(name: string) {
    name != "" && name[0] == '/'
  }

  /** `relativePathEscapesRoot` */
  predicate EscapesRoot(relative: string) {
    relative == ".." || "../" <= relative
  }

  /** `safeArchivePath`: the components below `root` that an entry name stands for. */
  function SafeArchivePath(name: string): Result<Parts> {
    if name == "" || IsAbs(name) then Err("unsafe archive path")
    else
      var cleanName := Clean(name);
      if cleanName == "." || cleanName == ".." || "../" <= cleanName then Err("unsafe archive path")
      else Ok(CleanParts(Split(name)))
  }

  // ----- what a path means -----

  /** Where a relative path leads from a directory given by its components from the root. */
  function Walk(dir: Parts, parts: Parts): Parts {
    if parts == [] then dir else WalkOne(Walk(dir, parts[..|parts| - 1]), parts[|parts| - 1])
  }

  function WalkOne(dir: Parts, part: string): Parts {
    if part == "" || part == "." then dir
    else if part == ".." then (if dir == [] then [] else dir[..|dir| - 1])
    else dir + [part]
  }

  /** Every cleaned path is some `..` followed by ordinary components. */
  ghost predicate Cleaned(parts: Parts, ups: nat) {
    && ups <= |parts|
    && (forall k | 0 <= k < ups :: parts[k] == "..")
    && (forall k | ups <= k < |parts| :: Ordinary(parts[k]))
  }

  lemma {:induction false} CleanIsCleaned(parts: Parts) returns (ups: nat)
    requires forall p <- parts :: '/' !in p
    ensures Cleaned(CleanParts(parts), ups)
  {
    if parts == [] {
      ups := 0;
    } else {
      ups := CleanIsCleaned(parts[..|parts| - 1]);
      var part := parts[|parts| - 1];
      var done := CleanParts(parts[..|parts| - 1]);
      if part == ".." && ups == |done| {
        ups := ups + 1;
      }
    }
  }

  /** Cleaning does not change where a path leads, from any directory. */
  lemma {:induction false} CleanKeepsMeaning(dir: Parts, parts: Parts)
    requires forall p <- parts :: '/' !in p
    ensures Walk(dir, CleanParts(parts)) == Walk(dir, parts)
  {
    if parts != [] {
      var before := parts[..|parts| - 1];
      var part := parts[|parts| - 1];
      CleanKeepsMeaning(dir, before);
      var done := CleanParts(before);
      var ups := CleanIsCleaned(before);
      if part == ".." && done != [] && done[|done| - 1] != ".." {
        assert Ordinary(done[|done| - 1]);
        assert Walk(dir, done) == Walk(dir, done[..|done| - 1]) + [done[|done| - 1]];
      } else if part != "" && part != "." {
        assert (done + [part])[..|done|] == done;
      }
    }
  }

  /** A cleaned path climbs as often as it has `..`, then descends through the rest. */
  lemma {:induction false} WalkCleaned(dir: Parts, parts: Parts, ups: nat)
    requires Cleaned(parts, ups)
    ensures Walk(dir, parts) == (if ups <= |dir| then dir[..|dir| - ups] else []) + parts[ups..]
  {
    if parts != [] {
      var before := parts[..|parts| - 1];
      if ups == |parts| {
        WalkCleaned(dir, before, ups - 1);
      } else {
        WalkCleaned(dir, before, ups);
        assert parts[ups..] == before[ups..] + [parts[|parts| - 1]];
      }
    }
  }

  /** The string tests read the first component and nothing else. */
  lemma JoinedEscapes(parts: Parts)
    requires forall p <- parts :: '/' !in p && p != ""
    ensures EscapesRoot(Join(parts)) <==> parts != [] && parts[0] == ".."
    ensures parts != [] && parts[0] != "." ==> Join(parts) != "."
  {
    if parts != [] {
      var p, s := parts[0], Join(parts);
      if |parts| == 1 {
        OneSlashless(p);
      } else {
        assert s[|p|] == '/' && s[..|p|] == p;
        assert forall k | 0 <= k < |p| :: s[k] in p;
        if "../" <= s {
          assert s[0] == '.' && s[1] == '.' && s[2] == '/';
          assert |p| == 2;
          assert p == s[..2] == "..";
        }
      }
    }
  }

  lemma OneSlashless(p: string)
    requires '/' !in p
    ensures !("../" <= p)
  {
    if |p| >= 3 {
      assert p[2] in p;
    }
  }

  lemma CleanTests(name: string) returns (parts: Parts, ups: nat)
    ensures parts == CleanParts(Split(name)) && Cleaned(parts, ups)
    ensures EscapesRoot(Clean(name)) <==> ups > 0
    ensures Clean(name) == "." <==> parts == []
  {
    parts := CleanParts(Split(name));
    ups := CleanIsCleaned(Split(name));
    forall p <- parts ensures '/' !in p && p != "" && p != "." {
      var k :| 0 <= k < |parts| && parts[k] == p;
      if k >= ups {
        assert Ordinary(p);
      }
    }
    JoinedEscapes(parts);
    if parts != [] {
      assert parts[0] in parts;
    }
  }

  lemma Leads(name: string, dir: Parts, parts: Parts, ups: nat)
    requires parts == CleanParts(Split(name)) && Cleaned(parts, ups)
    ensures Walk(dir, Split(name)) == (if ups <= |dir| then dir[..|dir| - ups] else []) + parts[ups..]
  {
    CleanKeepsMeaning(dir, Split(name));
    WalkCleaned(dir, parts, ups);
  }

  /** A directory from which a path that climbs at least once leads outside. */
  lemma Outside(name: string, parts: Parts, ups: nat) returns (dir: Parts)
    requires parts == CleanParts(Split(name)) && Cleaned(parts, ups) && ups > 0
    ensures !(dir <= Walk(dir, Split(name)))
  {
    dir := [if ups < |parts| then parts[ups] + "x" else "x"];
    Leads(name, dir, parts, ups);
    assert Walk(dir, Split(name)) == parts[ups..];
    if ups < |parts| {
      assert parts[ups..][0] == parts[ups] && dir[0] != parts[ups];
    }
  }

  lemma Inside(name: string, dir: Parts, parts: Parts)
    requires parts == CleanParts(Split(name)) && Cleaned(parts, 0)
    ensures Walk(dir, Split(name)) == dir + parts
  {
    Leads(name, dir, parts, 0);
    assert dir[..|dir| - 0] == dir && parts[0..] == parts;
  }

  /** What lies between the slashes, put together with slashes, is the name again. */
  lemma {:induction false} JoinSplit(s: string)
    ensures Join(Split(s)) == s
  {
    if s != "" {
      JoinSplit(s[1..]);
      var rest := Split(s[1..]);
      assert s == [s[0]] + s[1..];
      if s[0] == '/' {
        assert ([""] + rest)[1..] == rest;
      } else {
        assert ([[s[0]] + rest[0]] + rest[1..])[1..] == rest[1..];
        JoinFirst(s[0], rest);
      }
    }
  }

  lemma JoinFirst(c: char, parts: Parts)
    requires parts != []
    ensures Join([[c] + parts[0]] + parts[1..]) == [c] + Join(parts)
  {
    var longer := [[c] + parts[0]] + parts[1..];
    assert longer[1..] == parts[1..];
    if |parts| > 1 {
      assert ([c] + parts[0]) + "/" + Join(parts[1..]) == [c] + (parts[0] + "/" + Join(parts[1..]));
    }
  }

  /** A name is empty or absolute exactly when nothing stands before its first slash. */
  lemma RelativeNames(name: string)
    ensures name != "" && !IsAbs(name) <==> Split(name)[0] != ""
  {}

  /** `safeArchivePath` accepts exactly the non-empty relative names that lead strictly below
      whatever directory they are read from, and returns the way down. */
  lemma SafeIffStrictlyBelow(name: string)
    ensures SafeArchivePath(name).Ok? <==>
              Split(name)[0] != "" && forall dir: Parts :: dir < Walk(dir, Split(name))
    ensures SafeArchivePath(name).Ok? ==>
              var way := SafeArchivePath(name).value;
              way != [] && AllOrdinary(way) && forall dir: Parts :: Walk(dir, Split(name)) == dir + way
  {
    RelativeNames(name);
    var parts, ups := CleanTests(name);
    if ups > 0 {
      var dir := Outside(name, parts, ups);
      assert !(dir < Walk(dir, Split(name)));
    } else {
      forall dir: Parts ensures Walk(dir, Split(name)) == dir + parts {
        Inside(name, dir, parts);
      }
      if parts == [] {
        assert !([] < Walk([], Split(name)));
      }
    }
  }

  /** A cleaned relative path is refused exactly when from some directory it leads outside it. */
  lemma EscapesIffOutside(name: string)
    ensures EscapesRoot(Clean(name)) <==> exists dir: Parts :: !(dir <= Walk(dir, Split(name)))
  {
    var parts, ups := CleanTests(name);
    if ups > 0 {
      var dir := Outside(name, parts, ups);
    } else {
      forall dir: Parts ensures dir <= Walk(dir, Split(name)) {
        Inside(name, dir, parts);
      }
    }
  }

  // ----- names of archive entries -----

  lemma {:induction false} SplitJoin(parts: Parts)
    requires parts != [] && forall p <- parts :: '/' !in p
    ensures Split(Join(parts)) == parts
  {
    if |parts| == 1 {
      SplitOne(parts[0]);
    } else {
      SplitJoin(parts[1..]);
      SplitSlash(parts[0], Join(parts[1..]));
    }
  }

  lemma {:induction false} SplitOne(p: string)
    requires '/' !in p
    ensures Split(p) == [p]
  {
    if p != "" {
      SplitOne(p[1..]);
      assert p[0] in p && p == [p[0]] + p[1..];
    }
  }

  lemma {:induction false} SplitSlash(p: string, rest: string)
    requires '/' !in p
    ensures Split(p + "/" + rest) == [p] + Split(rest)
  {
    var s := p + "/" + rest;
    if p == "" {
      assert s[1..] == rest;
    } else {
      SplitSlash(p[1..], rest);
      assert p[0] in p && p == [p[0]] + p[1..];
      assert s[1..] == p[1..] + "/" + rest;
    }
  }

  lemma {:induction false} CleanOrdinary(parts: Parts)
    requires AllOrdinary(parts)
    ensures CleanParts(parts) == parts
  {
    if parts != [] {
      CleanOrdinary(parts[..|parts| - 1]);
      assert parts[|parts| - 1] in parts;
      assert parts == parts[..|parts| - 1] + [parts[|parts| - 1]];
    }
  }

  /** The name `Create` gives an entry leads `Extract` to the same place. */
  lemma EntryNameIsSafe(parts: Parts)
    requires parts != [] && AllOrdinary(parts)
    ensures SafeArchivePath(Join(parts)) == Ok(parts)
  {
    SplitJoin(parts);
    CleanOrdinary(parts);
    JoinedEscapes(parts);
    assert parts[0] in parts;
    assert Join(parts)[0] == parts[0][0];
  }
}
