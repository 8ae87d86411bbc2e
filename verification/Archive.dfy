/** internal/archive/archive.go: `Create` flattens a directory tree into entries, `Extract`
    rebuilds it in a file system that checks permissions. */
module Archive {
  import opened Bytes
  import opened Paths
  import Words

  /** A source directory's entries, in the order the walk meets them. */
  datatype Tree = File(mode: nat, content: bytes) | Dir(mode: nat, entries: Entries)
  datatype Entries = End | Entry(name: string, tree: Tree, rest: Entries)

  datatype Header = DirHeader(name: string, dirMode: nat) | FileHeader(name: string, fileMode: nat, content: bytes)

  function Names(entries: Entries): set<string> {
    match entries
    case End => {}
    case Entry(name, _, rest) => {name} + Names(rest)
  }

  /** What a real directory guarantees: ordinary names, each once. */
  ghost predicate WellFormed(entries: Entries) {
    match entries
    case End => true
    case Entry(name, tree, rest) =>
      Ordinary(name) && name !in Names(rest) && WellFormed(rest) && (tree.Dir? ==> WellFormed(tree.entries))
  }

  // ----- Create -----

  function Size(entries: Entries): nat {
    match entries
    case End => 0
    case Entry(_, File(_, content), rest) => |content| + Size(rest)
    case Entry(_, Dir(_, inner), rest) => Size(inner) + Size(rest)
  }

  /** The walk: one header per entry, a directory before what it holds, with the running
      total of file bytes checked against the limit at each file. */
  function WalkTree(prefix: Parts, entries: Entries, used: nat, limit: nat): Result<(seq<Header>, nat)>
    decreases entries
  {
    match entries
    case End => Ok(([], used))
    case Entry(name, File(mode, content), rest) =>
      if limit > 0 && used + |content| > limit then Err("directory exceeds maximum source size")
      else
        var (headers, total) :- WalkTree(prefix, rest, used + |content|, limit);
        Ok(([FileHeader(Join(prefix + [name]), mode, content)] + headers, total))
    case Entry(name, Dir(mode, inner), rest) =>
      var (inside, soFar) :- WalkTree(prefix + [name], inner, used, limit);
      var (headers, total) :- WalkTree(prefix, rest, soFar, limit);
      Ok(([DirHeader(Join(prefix + [name]), mode)] + inside + headers, total))
  }

  /** The headers when nothing is refused. */
  function Flatten(prefix: Parts, entries: Entries): seq<Header>
    decreases entries
  {
    match entries
    case End => []
    case Entry(name, File(mode, content), rest) =>
      [FileHeader(Join(prefix + [name]), mode, content)] + Flatten(prefix, rest)
    case Entry(name, Dir(mode, inner), rest) =>
      [DirHeader(Join(prefix + [name]), mode)] + Flatten(prefix + [name], inner) + Flatten(prefix, rest)
  }

  function Create(entries: Entries, limit: nat): Result<seq<Header>> {
    var (headers, _) :- WalkTree([], entries, 0, limit);
    Ok(headers)
  }

  lemma {:induction false} WalkIsFlatten(prefix: Parts, entries: Entries, used: nat, limit: nat)
    requires limit > 0 ==> used <= limit
    ensures WalkTree(prefix, entries, used, limit).Ok? <==> limit == 0 || used + Size(entries) <= limit
    ensures WalkTree(prefix, entries, used, limit).Ok? ==>
              WalkTree(prefix, entries, used, limit).value == (Flatten(prefix, entries), used + Size(entries))
    decreases entries
  {
    match entries
    case End =>
    case Entry(name, File(mode, content), rest) =>
      if limit == 0 || used + |content| <= limit {
        WalkIsFlatten(prefix, rest, used + |content|, limit);
      }
    case Entry(name, Dir(mode, inner), rest) =>
      WalkIsFlatten(prefix + [name], inner, used, limit);
      if limit == 0 || used + Size(inner) <= limit {
        WalkIsFlatten(prefix, rest, used + Size(inner), limit);
      }
  }

  // ----- the file system Extract works in -----

  datatype Node = FileNode(mode: nat, content: bytes) | DirNode(mode: nat)

  /** Paths are components below the temporary destination, which is the empty path. */
  type FileSystem = map<Parts, Node>

  const DIRECTORY_MODE := 0x1ed // 0o755
  const FILE_MODE := 0x180 // 0o600
  const ROOT_MODE := 0x1c0 // 0o700

  /** `FileMode.Perm` */
  function Perm(mode: nat): nat {
    mode % 0x200
  }

  /** The owner may write into, respectively pass through, a directory. */
  predicate OwnerWrites(mode: nat) {
    mode / 0x80 % 2 == 1
  }

  predicate OwnerPasses(mode: nat) {
    mode / 0x40 % 2 == 1
  }

  /** Every directory on the way to `p` exists and lets its owner through. */
  predicate Reachable(fs: FileSystem, p: Parts) {
    forall k: nat :: k < |p| ==> p[..k] in fs && fs[p[..k]].DirNode? && OwnerPasses(fs[p[..k]].mode)
  }

  /** A new entry may be made at `p`. */
  predicate CanAdd(fs: FileSystem, p: Parts) {
    && p != [] && p !in fs && Reachable(fs, p) && OwnerWrites(fs[p[..|p| - 1]].mode)
  }

  /** `os.MkdirAll(p, 0o755)` */
  function MkdirAll(fs: FileSystem, p: Parts): Result<FileSystem>
    decreases |p|
  {
    if p in fs then (if fs[p].DirNode? then Ok(fs) else Err("not a directory"))
    else if p == [] then Err("no such directory")
    else
      var fs' :- MkdirAll(fs, p[..|p| - 1]);
      if CanAdd(fs', p) then Ok(fs'[p := DirNode(DIRECTORY_MODE)]) else Err("permission denied")
  }

  /** `os.Chmod(p, mode)` */
  function Chmod(fs: FileSystem, p: Parts, mode: nat): Result<FileSystem> {
    if p !in fs then Err("no such file")
    else if !Reachable(fs, p) then Err("permission denied")
    else if fs[p].DirNode? then Ok(fs[p := DirNode(mode)])
    else Ok(fs[p := fs[p].(mode := mode)])
  }

  /** A directory whose permissions wait for the end. */
  datatype Deferred = Deferred(path: Parts, mode: nat)

  /** One round of the entry loop. */
  function ExtractOne(fs: FileSystem, h: Header): Result<(FileSystem, seq<Deferred>)> {
    var p :- SafeArchivePath(h.name);
    match h
    case DirHeader(_, mode) =>
      var fs' :- MkdirAll(fs, p);
      Ok((fs', [Deferred(p, Perm(mode))]))
    case FileHeader(_, mode, content) =>
      var fs1 :- MkdirAll(fs, if p == [] then [] else p[..|p| - 1]);
      if !CanAdd(fs1, p) then Err("create file")
      else
        var fs2 :- Chmod(fs1[p := FileNode(FILE_MODE, content)], p, Perm(mode));
        Ok((fs2, []))
  }

  function ExtractAll(fs: FileSystem, headers: seq<Header>): Result<(FileSystem, seq<Deferred>)> {
    if headers == [] then Ok((fs, []))
    else
      var (fs1, directories) :- ExtractAll(fs, headers[..|headers| - 1]);
      var (fs2, more) :- ExtractOne(fs1, headers[|headers| - 1]);
      Ok((fs2, directories + more))
  }

  function ApplyModes(fs: FileSystem, directories: seq<Deferred>): Result<FileSystem> {
    if directories == [] then Ok(fs)
    else
      var fs' :- ApplyModes(fs, directories[..|directories| - 1]);
      Chmod(fs', directories[|directories| - 1].path, directories[|directories| - 1].mode)
  }

  ghost predicate DeepestFirst(directories: seq<Deferred>) {
    forall j, k | 0 <= j < k < |directories| :: |directories[j].path| >= |directories[k].path|
  }

  /** `sort.Slice` by depth, which promises no more than this. */
  ghost predicate SortsByDepth(sort: seq<Deferred> -> seq<Deferred>) {
    forall ds :: multiset(sort(ds)) == multiset(ds) && DeepestFirst(sort(ds))
  }

  /** `Extract` into a fresh temporary directory. */
  method Extract(headers: seq<Header>, sort: seq<Deferred> -> seq<Deferred>) returns (r: Result<FileSystem>)
    ensures r == Extracted(headers, sort)
  {
    var fs: FileSystem := map[[] := DirNode(ROOT_MODE)];
    var directories: seq<Deferred> := [];
    var i := 0;
    while i < |headers|
      invariant 0 <= i <= |headers|
      invariant ExtractAll(map[[] := DirNode(ROOT_MODE)], headers[..i]) == Ok((fs, directories))
    {
      assert headers[..i + 1][..i] == headers[..i];
      var one := ExtractOne(fs, headers[i]);
      if one.Err? {
        ExtractStops(map[[] := DirNode(ROOT_MODE)], headers, i + 1);
        return Err(one.error);
      }
      fs := one.value.0;
      directories := directories + one.value.1;
      i := i + 1;
    }
    assert headers[..i] == headers;
    var sorted := sort(directories);
    ghost var extracted := fs;
    var j := 0;
    while j < |sorted|
      invariant 0 <= j <= |sorted|
      invariant ApplyModes(extracted, sorted[..j]) == Ok(fs)
    {
      assert sorted[..j + 1][..j] == sorted[..j];
      var changed := Chmod(fs, sorted[j].path, sorted[j].mode);
      if changed.Err? {
        ApplyStops(extracted, sorted, j + 1);
        return Err(changed.error);
      }
      fs := changed.value;
      j := j + 1;
    }
    assert sorted[..j] == sorted;
    return Ok(fs);
  }

  function Extracted(headers: seq<Header>, sort: seq<Deferred> -> seq<Deferred>): Result<FileSystem> {
    var (fs, directories) :- ExtractAll(map[[] := DirNode(ROOT_MODE)], headers);
    ApplyModes(fs, sort(directories))
  }

  lemma StopsOneMore(fs: FileSystem, headers: seq<Header>, h: Header)
    requires ExtractAll(fs, headers).Err?
    ensures ExtractAll(fs, headers + [h]) == Err(ExtractAll(fs, headers).error)
  {
    assert (headers + [h])[..|headers|] == headers;
  }

  lemma {:induction false} ExtractStops(fs: FileSystem, headers: seq<Header>, n: nat)
    requires n <= |headers| && ExtractAll(fs, headers[..n]).Err?
    ensures ExtractAll(fs, headers) == Err(ExtractAll(fs, headers[..n]).error)
    decreases |headers| - n
  {
    if n < |headers| {
      StopsOneMore(fs, headers[..n], headers[n]);
      assert headers[..n + 1] == headers[..n] + [headers[n]];
      ExtractStops(fs, headers, n + 1);
    } else {
      assert headers[..n] == headers;
    }
  }

  lemma {:induction false} ApplyStops(fs: FileSystem, directories: seq<Deferred>, n: nat)
    requires n <= |directories| && ApplyModes(fs, directories[..n]).Err?
    ensures ApplyModes(fs, directories) == Err(ApplyModes(fs, directories[..n]).error)
    decreases |directories| - n
  {
    if n < |directories| {
      assert directories[..n + 1][..n] == directories[..n];
      ApplyStops(fs, directories, n + 1);
    } else {
      assert directories[..n] == directories;
    }
  }

  // ----- the round trip -----

  /** The entry a path names in a source directory. */
  function Find(entries: Entries, p: Parts): Option<Tree>
    requires p != []
    decreases entries
  {
    match entries
    case End => None
    case Entry(name, tree, rest) =>
      if p[0] != name then Find(rest, p)
      else if |p| == 1 then Some(tree)
      else if tree.Dir? then Find(tree.entries, p[1..])
      else None
  }

  /** What the entry loop makes of an entry: a directory's own mode is still to come. */
  function Plain(tree: Tree): Node {
    match tree
    case File(mode, content) => FileNode(Perm(mode), content)
    case Dir(_, _) => DirNode(DIRECTORY_MODE)
  }

  /** What is to be there in the end: contents and permission bits. */
  function Rebuilt(tree: Tree): Node {
    match tree
    case File(mode, content) => FileNode(Perm(mode), content)
    case Dir(mode, _) => DirNode(Perm(mode))
  }

  /** The file system the entry loop makes of some entries, and the directories it defers. */
  function PlainTree(prefix: Parts, entries: Entries): FileSystem
    decreases entries
  {
    match entries
    case End => map[]
    case Entry(name, tree, rest) =>
      var p := prefix + [name];
      map[p := Plain(tree)] + (if tree.Dir? then PlainTree(p, tree.entries) else map[]) + PlainTree(prefix, rest)
  }

  function Metas(prefix: Parts, entries: Entries): seq<Deferred>
    decreases entries
  {
    match entries
    case End => []
    case Entry(name, tree, rest) =>
      var p := prefix + [name];
      (if tree.Dir? then [Deferred(p, Perm(tree.mode))] + Metas(p, tree.entries) else []) + Metas(prefix, rest)
  }

  /** `q` lies below one of the named entries of `prefix`, or is one. */
  predicate Under(prefix: Parts, names: set<string>, q: Parts) {
    |prefix| < |q| && q[..|prefix|] == prefix && q[|prefix|] in names
  }

  lemma {:induction false} StaysUnder(prefix: Parts, entries: Entries)
    ensures forall q <- PlainTree(prefix, entries) :: Under(prefix, Names(entries), q)
    ensures forall d <- Metas(prefix, entries) :: Under(prefix, Names(entries), d.path)
    decreases entries
  {
    match entries
    case End =>
    case Entry(name, tree, rest) =>
      StaysUnder(prefix, rest);
      if tree.Dir? {
        var p := prefix + [name];
        StaysUnder(p, tree.entries);
        forall q: Parts | Under(p, Names(tree.entries), q) ensures Under(prefix, {name}, q) {
          assert q[..|prefix|] == p[..|prefix|] == prefix && q[|prefix|] == p[|prefix|];
        }
      }
  }

  /** A path that does not go through a named entry is in neither. */
  lemma NotUnder(prefix: Parts, entries: Entries, q: Parts)
    requires !Under(prefix, Names(entries), q)
    ensures q !in PlainTree(prefix, entries)
    ensures forall mode :: Deferred(q, mode) !in Metas(prefix, entries)
  {
    StaysUnder(prefix, entries);
  }

  /** Where `prefix + p` can stand in a directory whose first entry is `name`. */
  lemma Branches(prefix: Parts, name: string, tree: Tree, rest: Entries, p: Parts)
    requires p != [] && name !in Names(rest)
    ensures (prefix + p == prefix + [name] <==> p == [name]) && (p[0] == name && |p| == 1 ==> p == [name])
    ensures p[0] == name ==> !Under(prefix, Names(rest), prefix + p)
    ensures p[0] == name ==> prefix + p == prefix + [name] + p[1..]
    ensures p[0] != name || |p| == 1 ==> tree.Dir? ==> !Under(prefix + [name], Names(tree.entries), prefix + p)
  {
    var q := prefix + p;
    assert q[|prefix|..] == p && (prefix + [name])[|prefix|..] == [name];
    assert q[|prefix|] == p[0];
    if q[..|prefix + [name]|] == prefix + [name] && |q| > |prefix| + 1 {
      assert q[|prefix|] == (prefix + [name])[|prefix|];
    }
  }

  /** The loop's file system holds a path exactly when the source does. */
  lemma {:induction false} PlainTreeIs(prefix: Parts, entries: Entries, p: Parts)
    requires WellFormed(entries) && p != []
    ensures prefix + p in PlainTree(prefix, entries) <==> Find(entries, p).Some?
    ensures Find(entries, p).Some? ==> PlainTree(prefix, entries)[prefix + p] == Plain(Find(entries, p).value)
    decreases entries
  {
    match entries
    case End =>
    case Entry(name, tree, rest) =>
      Branches(prefix, name, tree, rest, p);
      if p[0] != name {
        PlainTreeIs(prefix, rest, p);
      } else {
        NotUnder(prefix, rest, prefix + p);
      }
      if tree.Dir? {
        if p[0] == name && |p| > 1 {
          PlainTreeIs(prefix + [name], tree.entries, p[1..]);
        } else {
          NotUnder(prefix + [name], tree.entries, prefix + p);
        }
      }
  }

  /** The deferred directories are the source's, each with its permission bits. */
  lemma {:induction false} MetasAre(prefix: Parts, entries: Entries, p: Parts, mode: nat)
    requires WellFormed(entries) && p != []
    ensures Deferred(prefix + p, mode) in Metas(prefix, entries) <==>
              var found := Find(entries, p);
              found.Some? && found.value.Dir? && Perm(found.value.mode) == mode
    decreases entries
  {
    match entries
    case End =>
    case Entry(name, tree, rest) =>
      Branches(prefix, name, tree, rest, p);
      if p[0] != name {
        MetasAre(prefix, rest, p, mode);
      } else {
        NotUnder(prefix, rest, prefix + p);
      }
      if tree.Dir? {
        if p[0] == name && |p| > 1 {
          MetasAre(prefix + [name], tree.entries, p[1..], mode);
        } else {
          NotUnder(prefix + [name], tree.entries, prefix + p);
        }
      }
  }

  /** The entry loop turns `fs` into `fs'`, deferring `ds`. */
  predicate Does(fs: FileSystem, headers: seq<Header>, fs': FileSystem, ds: seq<Deferred>) {
    ExtractAll(fs, headers) == Ok((fs', ds))
  }

  lemma DoesOneMore(fs: FileSystem, headers: seq<Header>, fs1: FileSystem, d1: seq<Deferred>,
                    h: Header, fs2: FileSystem, d2: seq<Deferred>)
    requires Does(fs, headers, fs1, d1) && ExtractOne(fs1, h) == Ok((fs2, d2))
    ensures Does(fs, headers + [h], fs2, d1 + d2)
  {
    assert (headers + [h])[..|headers|] == headers;
  }

  lemma DoesLast(fs: FileSystem, headers: seq<Header>, fs2: FileSystem, d: seq<Deferred>)
    returns (before: seq<Header>, last: Header, fs1: FileSystem, d1: seq<Deferred>, d2: seq<Deferred>)
    requires headers != [] && Does(fs, headers, fs2, d)
    ensures headers == before + [last] && d == d1 + d2
    ensures Does(fs, before, fs1, d1) && ExtractOne(fs1, last) == Ok((fs2, d2))
  {
    before, last := headers[..|headers| - 1], headers[|headers| - 1];
    assert headers == before + [last];
    DoesSnoc(fs, before, last);
    fs1, d1 := ExtractAll(fs, before).value.0, ExtractAll(fs, before).value.1;
    d2 := ExtractOne(fs1, last).value.1;
  }

  lemma DoesSnoc(fs: FileSystem, before: seq<Header>, last: Header)
    requires ExtractAll(fs, before + [last]).Ok?
    ensures ExtractAll(fs, before).Ok?
    ensures var (fs1, d1) := ExtractAll(fs, before).value;
            && ExtractOne(fs1, last).Ok?
            && var (fs2, d2) := ExtractOne(fs1, last).value;
               ExtractAll(fs, before + [last]) == Ok((fs2, d1 + d2))
  {
    assert (before + [last])[..|before|] == before;
  }

  lemma Regroup<T>(a: seq<T>, b: seq<T>, c: seq<T>)
    ensures (a + b) + c == a + (b + c)
  {}

  lemma Extend(fs: FileSystem, a: seq<Header>, before: seq<Header>, last: Header,
               fs1: FileSystem, d1: seq<Deferred>, d: seq<Deferred>, fs2: FileSystem, d2: seq<Deferred>)
    requires Does(fs, a + before, fs1, d1 + d) && ExtractOne(fs1, last) == Ok((fs2, d2))
    ensures Does(fs, a + (before + [last]), fs2, d1 + (d + d2))
  {
    DoesOneMore(fs, a + before, fs1, d1 + d, last, fs2, d2);
    Regroup(a, before, [last]);
    Regroup(d1, d, d2);
  }

  lemma {:induction false} DoesBoth(fs: FileSystem, a: seq<Header>, fs1: FileSystem, d1: seq<Deferred>,
                                    b: seq<Header>, fs2: FileSystem, d2: seq<Deferred>)
    requires Does(fs, a, fs1, d1) && Does(fs1, b, fs2, d2)
    ensures Does(fs, a + b, fs2, d1 + d2)
    decreases |b|
  {
    if b == [] {
      assert a + b == a && d1 + d2 == d1;
    } else {
      var before, last, fs', d', d'' := DoesLast(fs1, b, fs2, d2);
      DoesBoth(fs, a, fs1, d1, before, fs', d');
      Extend(fs, a, before, last, fs', d1, d', fs2, d'');
    }
  }

  /** The owner can work in directory `p`. */
  ghost predicate Workable(fs: FileSystem, p: Parts) {
    Reachable(fs, p) && p in fs && fs[p].DirNode? && OwnerWrites(fs[p].mode) && OwnerPasses(fs[p].mode)
  }

  ghost predicate Vacant(fs: FileSystem, prefix: Parts, names: set<string>) {
    forall q <- fs :: !Under(prefix, names, q)
  }

  lemma ReachesInto(fs: FileSystem, prefix: Parts, name: string)
    requires Workable(fs, prefix)
    ensures Reachable(fs, prefix + [name])
  {
    forall k: nat | k < |prefix + [name]| ensures (prefix + [name])[..k] == prefix[..k] {}
    assert prefix[..|prefix|] == prefix;
  }

  function HeaderOf(p: Parts, tree: Tree): Header {
    match tree
    case File(mode, content) => FileHeader(Join(p), mode, content)
    case Dir(mode, _) => DirHeader(Join(p), mode)
  }

  lemma MayAdd(fs: FileSystem, prefix: Parts, name: string)
    requires Workable(fs, prefix) && Vacant(fs, prefix, {name})
    ensures CanAdd(fs, prefix + [name]) && MkdirAll(fs, prefix) == Ok(fs) && (prefix + [name])[..|prefix|] == prefix
  {
    var p := prefix + [name];
    ReachesInto(fs, prefix, name);
    assert p[..|p| - 1] == prefix;
    assert Under(prefix, {name}, p);
  }

  lemma MakesDir(fs: FileSystem, p: Parts, mode: nat)
    requires p != [] && AllOrdinary(p) && CanAdd(fs, p) && MkdirAll(fs, p[..|p| - 1]) == Ok(fs)
    ensures ExtractOne(fs, DirHeader(Join(p), mode)) == Ok((fs[p := DirNode(DIRECTORY_MODE)], [Deferred(p, Perm(mode))]))
  {
    EntryNameIsSafe(p);
  }

  lemma MakesFile(fs: FileSystem, p: Parts, mode: nat, content: bytes)
    requires p != [] && AllOrdinary(p) && CanAdd(fs, p) && MkdirAll(fs, p[..|p| - 1]) == Ok(fs)
    ensures ExtractOne(fs, FileHeader(Join(p), mode, content)) == Ok((fs[p := FileNode(Perm(mode), content)], []))
  {
    EntryNameIsSafe(p);
    var fs1 := fs[p := FileNode(FILE_MODE, content)];
    assert Reachable(fs1, p);
    assert fs1[p := FileNode(Perm(mode), content)] == fs[p := FileNode(Perm(mode), content)];
  }

  lemma DoesOne(fs: FileSystem, h: Header, fs': FileSystem, d: seq<Deferred>)
    requires ExtractOne(fs, h) == Ok((fs', d))
    ensures Does(fs, [h], fs', d)
  {
    DoesOneMore(fs, [], fs, [], h, fs', d);
    assert [] + [h] == [h] && [] + d == d;
  }

  lemma WorkableAfter(fs: FileSystem, prefix: Parts, name: string, node: Node)
    requires Workable(fs, prefix) && CanAdd(fs, prefix + [name])
    ensures Workable(fs[prefix + [name] := node], prefix)
    ensures node == DirNode(DIRECTORY_MODE) ==> Workable(fs[prefix + [name] := node], prefix + [name])
  {}

  /** One entry is made in a workable directory where its name is free. */
  lemma MakesEntry(fs: FileSystem, prefix: Parts, name: string, tree: Tree)
    requires AllOrdinary(prefix) && Ordinary(name) && Workable(fs, prefix) && Vacant(fs, prefix, {name})
    ensures var p := prefix + [name];
            && Does(fs, [HeaderOf(p, tree)], fs[p := Plain(tree)],
                    if tree.Dir? then [Deferred(p, Perm(tree.mode))] else [])
            && Workable(fs[p := Plain(tree)], prefix)
            && (tree.Dir? ==> Workable(fs[p := Plain(tree)], p))
  {
    var p := prefix + [name];
    MayAdd(fs, prefix, name);
    WorkableAfter(fs, prefix, name, Plain(tree));
    if tree.Dir? {
      MakesDir(fs, p, tree.mode);
      DoesOne(fs, HeaderOf(p, tree), fs[p := Plain(tree)], [Deferred(p, Perm(tree.mode))]);
    } else {
      MakesFile(fs, p, tree.mode, tree.content);
      DoesOne(fs, HeaderOf(p, tree), fs[p := Plain(tree)], []);
    }
  }

  lemma VacantAfter(fs: FileSystem, prefix: Parts, name: string, tree: Tree, rest: Entries)
    requires Vacant(fs, prefix, {name} + Names(rest)) && name !in Names(rest)
    ensures var p := prefix + [name];
            var fs1 := fs[p := Plain(tree)];
            && (tree.Dir? ==> Vacant(fs1, p, Names(tree.entries))
                              && Vacant(fs1 + PlainTree(p, tree.entries), prefix, Names(rest)))
            && Vacant(fs1, prefix, Names(rest))
  {
    var p := prefix + [name];
    var fs1 := fs[p := Plain(tree)];
    assert p[|prefix|] == name;
    forall q: Parts | |p| < |q| && q[..|p|] == p ensures Under(prefix, {name}, q) && q[|prefix|] == name {
      assert q[..|prefix|] == p[..|prefix|] == prefix && q[|prefix|] == p[|prefix|];
    }
    if tree.Dir? {
      StaysUnder(p, tree.entries);
    }
  }

  lemma StaysWorkable(fs: FileSystem, more: FileSystem, q: Parts)
    requires Workable(fs, q) && forall r <- more :: r !in fs
    ensures Workable(fs + more, q)
  {}

  ghost predicate Extracts(fs: FileSystem, prefix: Parts, entries: Entries) {
    Does(fs, Flatten(prefix, entries), fs + PlainTree(prefix, entries), Metas(prefix, entries))
  }

  lemma MapsAdd(fs: FileSystem, p: Parts, node: Node, inner: FileSystem, more: FileSystem)
    ensures fs[p := node] + inner + more == fs + (map[p := node] + inner + more)
  {}

  lemma ExtractsFile(fs: FileSystem, prefix: Parts, name: string, tree: Tree, rest: Entries)
    requires tree.File?
    requires var p := prefix + [name];
             && Does(fs, [HeaderOf(p, tree)], fs[p := Plain(tree)], [])
             && Extracts(fs[p := Plain(tree)], prefix, rest)
    ensures Extracts(fs, prefix, Entry(name, tree, rest))
  {
    var p := prefix + [name];
    var more := PlainTree(prefix, rest);
    DoesBoth(fs, [HeaderOf(p, tree)], fs[p := Plain(tree)], [],
             Flatten(prefix, rest), fs[p := Plain(tree)] + more, Metas(prefix, rest));
    MapsAdd(fs, p, Plain(tree), map[], more);
    assert fs[p := Plain(tree)] + map[] == fs[p := Plain(tree)];
    assert [] + Metas(prefix, rest) == Metas(prefix, rest);
  }

  lemma ExtractsDir(fs: FileSystem, prefix: Parts, name: string, tree: Tree, rest: Entries)
    requires tree.Dir?
    requires var p := prefix + [name];
             && Does(fs, [HeaderOf(p, tree)], fs[p := Plain(tree)], [Deferred(p, Perm(tree.mode))])
             && Extracts(fs[p := Plain(tree)], p, tree.entries)
             && Extracts(fs[p := Plain(tree)] + PlainTree(p, tree.entries), prefix, rest)
    ensures Extracts(fs, prefix, Entry(name, tree, rest))
  {
    var p := prefix + [name];
    var h, d := [HeaderOf(p, tree)], [Deferred(p, Perm(tree.mode))];
    var fs1, inner, more := fs[p := Plain(tree)], PlainTree(p, tree.entries), PlainTree(prefix, rest);
    DoesBoth(fs, h, fs1, d, Flatten(p, tree.entries), fs1 + inner, Metas(p, tree.entries));
    DoesBoth(fs, h + Flatten(p, tree.entries), fs1 + inner, d + Metas(p, tree.entries),
             Flatten(prefix, rest), fs1 + inner + more, Metas(prefix, rest));
    MapsAdd(fs, p, Plain(tree), inner, more);
  }

  /** The loop rebuilds a whole directory's entries, wherever it stands. */
  lemma {:induction false} ExtractsEntries(fs: FileSystem, prefix: Parts, entries: Entries)
    requires WellFormed(entries) && AllOrdinary(prefix)
    requires Workable(fs, prefix) && Vacant(fs, prefix, Names(entries))
    ensures Extracts(fs, prefix, entries)
    decreases entries
  {
    match entries
    case End =>
      assert fs + map[] == fs;
    case Entry(name, tree, rest) =>
      var p := prefix + [name];
      var fs1 := fs[p := Plain(tree)];
      assert Vacant(fs, prefix, {name});
      MakesEntry(fs, prefix, name, tree);
      VacantAfter(fs, prefix, name, tree, rest);
      if tree.Dir? {
        ExtractsEntries(fs1, p, tree.entries);
        InnerIsNew(fs1, p, tree.entries);
        StaysWorkable(fs1, PlainTree(p, tree.entries), prefix);
        ExtractsEntries(fs1 + PlainTree(p, tree.entries), prefix, rest);
        ExtractsDir(fs, prefix, name, tree, rest);
      } else {
        ExtractsEntries(fs1, prefix, rest);
        ExtractsFile(fs, prefix, name, tree, rest);
      }
  }

  lemma InnerIsNew(fs: FileSystem, p: Parts, entries: Entries)
    requires Vacant(fs, p, Names(entries))
    ensures forall r <- PlainTree(p, entries) :: r !in fs
  {
    StaysUnder(p, entries);
  }

  /** `fs'` is `fs` after the modes in `ds` were set, and nothing else. */
  ghost predicate ModesSet(fs: FileSystem, ds: seq<Deferred>, fs': FileSystem) {
    && fs'.Keys == fs.Keys
    && (forall q <- fs :: (forall d <- ds :: d.path != q) ==> fs'[q] == fs[q])
    && (forall d <- ds :: d.path in fs' && fs'[d.path] == DirNode(d.mode))
  }

  lemma StillReachable(fs: FileSystem, ds: seq<Deferred>, fs': FileSystem, p: Parts)
    requires ModesSet(fs, ds, fs') && Reachable(fs, p)
    requires forall d <- ds :: |d.path| >= |p|
    ensures Reachable(fs', p)
  {
    forall k: nat | k < |p| ensures p[..k] in fs' && fs'[p[..k]] == fs[p[..k]] {
      assert forall d <- ds :: d.path != p[..k];
    }
  }

  lemma SetsMode(fs: FileSystem, ds: seq<Deferred>, fs1: FileSystem, last: Deferred)
    requires ModesSet(fs, ds, fs1) && last.path in fs
    requires forall d <- ds :: d.path == last.path ==> d == last
    ensures ModesSet(fs, ds + [last], fs1[last.path := DirNode(last.mode)])
  {
    var fs2, all := fs1[last.path := DirNode(last.mode)], ds + [last];
    assert last in all;
    forall q <- fs | forall d <- all :: d.path != q ensures fs2[q] == fs[q] {
      assert forall d <- ds :: d in all;
      assert q != last.path;
    }
    assert forall d <- all :: d in ds || d == last;
  }

  /** Each directory is there, within reach, and has one mode to receive. */
  ghost predicate Settable(fs: FileSystem, ds: seq<Deferred>) {
    && (forall d <- ds :: d.path in fs && fs[d.path].DirNode? && Reachable(fs, d.path))
    && (forall d <- ds, e <- ds :: d.path == e.path ==> d == e)
  }

  lemma LastIsShallowest(fs: FileSystem, ds: seq<Deferred>, last: Deferred)
    requires DeepestFirst(ds + [last]) && Settable(fs, ds + [last])
    ensures DeepestFirst(ds) && Settable(fs, ds) && Settable(fs, [last])
    ensures forall d <- ds :: |d.path| >= |last.path| && (d.path == last.path ==> d == last)
  {
    var all := ds + [last];
    assert last in all;
    assert forall d <- ds :: d in all;
    forall d <- ds ensures |d.path| >= |last.path| {
      var j :| 0 <= j < |ds| && ds[j] == d;
      assert all[j] == d && all[|ds|] == last;
    }
    forall j, k | 0 <= j < k < |ds| ensures |ds[j].path| >= |ds[k].path| {
      assert all[j] == ds[j] && all[k] == ds[k];
    }
  }

  /** Deepest first, no directory on the way to the next one has lost a permission yet, so
      every mode can be set, and ends up set. */
  lemma {:induction false} DeepestFirstApplies(fs: FileSystem, ds: seq<Deferred>)
    requires DeepestFirst(ds) && Settable(fs, ds)
    ensures ApplyModes(fs, ds).Ok? && ModesSet(fs, ds, ApplyModes(fs, ds).value)
  {
    if ds != [] {
      var before, last := ds[..|ds| - 1], ds[|ds| - 1];
      assert ds == before + [last];
      LastIsShallowest(fs, before, last);
      DeepestFirstApplies(fs, before);
      SetsLast(fs, before, ApplyModes(fs, before).value, last);
    }
  }

  lemma SetsLast(fs: FileSystem, ds: seq<Deferred>, fs1: FileSystem, last: Deferred)
    requires ModesSet(fs, ds, fs1) && Settable(fs, [last])
    requires forall d <- ds :: |d.path| >= |last.path| && (d.path == last.path ==> d == last)
    ensures Chmod(fs1, last.path, last.mode).Ok?
    ensures ModesSet(fs, ds + [last], Chmod(fs1, last.path, last.mode).value)
  {
    assert last in [last];
    StillReachable(fs, ds, fs1, last.path);
    StillDir(fs, ds, fs1, last.path);
    SetsMode(fs, ds, fs1, last);
  }

  lemma StillDir(fs: FileSystem, ds: seq<Deferred>, fs': FileSystem, p: Parts)
    requires ModesSet(fs, ds, fs') && p in fs && fs[p].DirNode?
    ensures fs'[p].DirNode?
  {
    if d :| d in ds && d.path == p {
      assert fs'[d.path] == DirNode(d.mode);
    }
  }

  /** `fs` holds every entry of the source as the extraction rebuilds it, and no other. */
  ghost predicate Rebuilds(fs: FileSystem, entries: Entries) {
    forall p: Parts | p != [] ::
      && (p in fs <==> Find(entries, p).Some?)
      && (p in fs ==> fs[p] == Rebuilt(Find(entries, p).value))
  }

  /** The nine permission bits of the source, and no others. */
  ghost predicate SamePermissions(restored: nat, source: nat) {
    restored < 0x200 && forall i: nat | i < 9 :: Words.Bit(restored, i) <==> Words.Bit(source, i)
  }

  lemma PermKeepsBits(mode: nat)
    ensures SamePermissions(Perm(mode), mode)
  {
    assert Words.Pow2(9) == 0x200 by {
      assert Words.Pow2(4) == 0x10;
    }
    forall i: nat | i < 9 ensures Words.Bit(Perm(mode), i) == Words.Bit(mode, i) {
      Words.BitMod(mode, 9, i);
    }
  }

  /** The node has the kind, the contents and the permission bits of the source entry. */
  ghost predicate Mirrors(node: Node, tree: Tree) {
    match tree
    case File(mode, content) => node.FileNode? && node.content == content && SamePermissions(node.mode, mode)
    case Dir(mode, _) => node.DirNode? && SamePermissions(node.mode, mode)
  }

  /** The source directory `entries` is what `fs` holds below the root: the same names, no
      others, the same contents and the same permission bits. */
  ghost predicate Holds(fs: FileSystem, entries: Entries) {
    forall p: Parts | p != [] ::
      && (p in fs <==> Find(entries, p).Some?)
      && (p in fs ==> Mirrors(fs[p], Find(entries, p).value))
  }

  lemma RebuiltMirrors(fs: FileSystem, entries: Entries)
    requires Rebuilds(fs, entries)
    ensures Holds(fs, entries)
  {
    forall p: Parts | p != [] && p in fs ensures Mirrors(fs[p], Find(entries, p).value) {
      PermKeepsBits(Find(entries, p).value.mode);
    }
  }

  lemma LoopRebuilds(entries: Entries) returns (fs: FileSystem)
    requires WellFormed(entries)
    ensures ExtractAll(map[[] := DirNode(ROOT_MODE)], Flatten([], entries)) == Ok((fs, Metas([], entries)))
    ensures [] in fs && fs[[]] == DirNode(ROOT_MODE)
    ensures forall p: Parts | p != [] ::
              && (p in fs <==> Find(entries, p).Some?)
              && (p in fs ==> fs[p] == Plain(Find(entries, p).value))
  {
    var root: FileSystem := map[[] := DirNode(ROOT_MODE)];
    assert Workable(root, []);
    ExtractsEntries(root, [], entries);
    fs := root + PlainTree([], entries);
    StaysUnder([], entries);
    assert forall q <- PlainTree([], entries) :: q != [];
    forall p: Parts | p != []
      ensures p in fs <==> Find(entries, p).Some?
      ensures p in fs ==> fs[p] == Plain(Find(entries, p).value)
    {
      PlainTreeIs([], entries, p);
      assert [] + p == p;
    }
  }

  lemma FoundIsReachable(fs: FileSystem, entries: Entries, p: Parts)
    requires [] in fs && fs[[]] == DirNode(ROOT_MODE)
    requires forall p: Parts | p != [] ::
               && (p in fs <==> Find(entries, p).Some?)
               && (p in fs ==> fs[p] == Plain(Find(entries, p).value))
    requires p != [] && Find(entries, p).Some?
    ensures Reachable(fs, p)
  {
    forall k: nat | k < |p| ensures p[..k] in fs && fs[p[..k]].DirNode? && OwnerPasses(fs[p[..k]].mode) {
      if k > 0 {
        ParentIsDir(entries, p, k);
      }
    }
  }

  lemma {:induction false} ParentIsDir(entries: Entries, p: Parts, k: nat)
    requires 0 < k < |p| && Find(entries, p).Some?
    ensures Find(entries, p[..k]).Some? && Find(entries, p[..k]).value.Dir?
    decreases entries
  {
    if p[0] != entries.name {
      ParentIsDir(entries.rest, p, k);
    } else if k > 1 {
      ParentIsDir(entries.tree.entries, p[1..], k - 1);
      assert p[..k][1..] == p[1..][..k - 1];
    }
  }

  /** The archive round trip: `Create` succeeds exactly within its size limit, and then
      `Extract`, however it breaks ties between equally deep directories, rebuilds the same
      names, contents and permission bits below its root. */
  lemma RoundTrip(entries: Entries, limit: nat, sort: seq<Deferred> -> seq<Deferred>)
    requires WellFormed(entries) && SortsByDepth(sort)
    ensures Create(entries, limit).Ok? <==> limit == 0 || Size(entries) <= limit
    ensures Create(entries, limit).Ok? ==>
              var extracted := Extracted(Create(entries, limit).value, sort);
              extracted.Ok? && Holds(extracted.value, entries)
  {
    WalkIsFlatten([], entries, 0, limit);
    if limit == 0 || Size(entries) <= limit {
      var fs := LoopRebuilds(entries);
      ModesApply(entries, fs, sort(Metas([], entries)));
      RebuiltMirrors(ApplyModes(fs, sort(Metas([], entries))).value, entries);
    }
  }

  lemma ModesApply(entries: Entries, fs: FileSystem, ds: seq<Deferred>)
    requires WellFormed(entries)
    requires [] in fs && fs[[]] == DirNode(ROOT_MODE)
    requires forall p: Parts | p != [] ::
               && (p in fs <==> Find(entries, p).Some?)
               && (p in fs ==> fs[p] == Plain(Find(entries, p).value))
    requires multiset(ds) == multiset(Metas([], entries)) && DeepestFirst(ds)
    ensures ApplyModes(fs, ds).Ok? && Rebuilds(ApplyModes(fs, ds).value, entries)
  {
    StaysUnder([], entries);
    forall d: Deferred ensures d in ds <==> d in Metas([], entries) {
      assert d in multiset(ds) <==> d in multiset(Metas([], entries));
    }
    forall d <- ds
      ensures d.path != [] && Find(entries, d.path).Some? && Find(entries, d.path).value.Dir?
      ensures d.mode == Perm(Find(entries, d.path).value.mode) && Reachable(fs, d.path)
    {
      assert [] + d.path == d.path;
      MetasAre([], entries, d.path, d.mode);
      FoundIsReachable(fs, entries, d.path);
    }
    DeepestFirstApplies(fs, ds);
    var fs' := ApplyModes(fs, ds).value;
    forall p: Parts | p != [] && p in fs' ensures fs'[p] == Rebuilt(Find(entries, p).value) {
      var found := Find(entries, p).value;
      if found.Dir? {
        MetasAre([], entries, p, Perm(found.mode));
        assert [] + p == p;
        assert Deferred(p, Perm(found.mode)) in ds;
      }
    }
  }

  lemma ClosedParent(fs: FileSystem, closed: FileSystem)
    requires ["a"] in fs && fs[["a"]].DirNode? && closed == fs[["a"] := DirNode(0)]
    ensures !Reachable(closed, ["a", "b"])
  {
    assert ["a", "b"][..1] == ["a"];
    assert closed[["a", "b"][..1]].mode == 0;
  }

  /** Setting modes in archive order instead would fail: the parent is closed too early. */
  lemma ShallowFirstFails()
    ensures var entries := Entry("a", Dir(0, Entry("b", Dir(0x1ed, End), End)), End);
            && WellFormed(entries)
            && ExtractAll(map[[] := DirNode(ROOT_MODE)], Flatten([], entries)).Ok?
            && var (fs, directories) := ExtractAll(map[[] := DirNode(ROOT_MODE)], Flatten([], entries)).value;
               directories == Metas([], entries) && ApplyModes(fs, directories).Err?
  {
    var inner := Entry("b", Dir(0x1ed, End), End);
    var entries := Entry("a", Dir(0, inner), End);
    assert Names(entries) == {"a"} && Names(inner) == {"b"};
    var fs := LoopRebuilds(entries);
    var a, b := Deferred(["a"], 0), Deferred(["a", "b"], 0x1ed);
    assert Metas(["a"], inner) == [b] by { assert ["a"] + ["b"] == ["a", "b"]; }
    assert Metas([], entries) == [a, b] by { assert [] + ["a"] == ["a"]; }
    assert [a, b][..1] == [a] && [a][..0] == [];
    assert ApplyModes(fs, []) == Ok(fs);
    var closed := Chmod(fs, ["a"], 0);
    assert ApplyModes(fs, [a]) == closed;
    if closed.Ok? {
      ClosedParent(fs, closed.value);
    }
  }
}
