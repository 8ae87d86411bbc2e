/** internal/archive/archive.go: what `Extract` makes of any archive at all, not only of one that
    `Create` wrote. */
module Extraction {
  import opened Bytes
  import opened Paths
  import opened Archive

  const ROOT: FileSystem := map[[] := DirNode(ROOT_MODE)]

  /** Where an entry goes. */
  function PathOf(h: Header): Parts {
    var r := SafeArchivePath(h.name);
    if r.Ok? then r.value else []
  }

  // ----- one entry -----

  /** `fs'` is `fs` with new directories on the way to `p`, `p` perhaps among them. */
  ghost predicate Grows(fs: FileSystem, p: Parts, fs': FileSystem) {
    && (forall q <- fs :: q in fs' && fs'[q] == fs[q])
    && (forall q <- fs' :: q !in fs ==> q <= p && fs'[q] == DirNode(DIRECTORY_MODE))
  }

  lemma {:induction false} MkdirAllGrows(fs: FileSystem, p: Parts)
    requires MkdirAll(fs, p).Ok?
    ensures Grows(fs, p, MkdirAll(fs, p).value)
    ensures p in MkdirAll(fs, p).value && MkdirAll(fs, p).value[p].DirNode?
    decreases |p|
  {
    if p !in fs && p != [] {
      MkdirAllGrows(fs, p[..|p| - 1]);
      assert p[..|p| - 1] <= p;
    }
  }

  /** What one entry adds: its directories, and itself; a file is new. */
  ghost predicate Adds(fs: FileSystem, h: Header, fs': FileSystem, more: seq<Deferred>) {
    var p := PathOf(h);
    && SafeArchivePath(h.name).Ok? && p in fs'
    && (forall q <- fs :: q in fs' && fs'[q] == fs[q])
    && (forall q <- fs' :: q !in fs && (q != p || h.DirHeader?) ==> q <= p && fs'[q] == DirNode(DIRECTORY_MODE))
    && match h
       case DirHeader(_, mode) => fs'[p].DirNode? && more == [Deferred(p, Perm(mode))]
       case FileHeader(_, mode, content) => p !in fs && fs'[p] == FileNode(Perm(mode), content) && more == []
  }

  lemma OneAdds(fs: FileSystem, h: Header)
    requires ExtractOne(fs, h).Ok?
    ensures Adds(fs, h, ExtractOne(fs, h).value.0, ExtractOne(fs, h).value.1)
  {
    var p := PathOf(h);
    if h.DirHeader? {
      MkdirAllGrows(fs, p);
    } else {
      var way := if p == [] then [] else p[..|p| - 1];
      MkdirAllGrows(fs, way);
      assert way <= p;
    }
  }

  // ----- all entries -----

  /** Entry by entry: each safe and where it belongs, each file once. */
  ghost predicate Placed(headers: seq<Header>, fs: FileSystem, ds: seq<Deferred>) {
    && (forall h <- headers :: SafeArchivePath(h.name).Ok? && PathOf(h) in fs)
    && (forall h <- headers :: h.FileHeader? ==> fs[PathOf(h)] == FileNode(Perm(h.fileMode), h.content))
    && (forall h <- headers :: h.DirHeader? ==> fs[PathOf(h)].DirNode? && Deferred(PathOf(h), Perm(h.dirMode)) in ds)
    && (forall j, k | 0 <= j < k < |headers| :: headers[k].FileHeader? ==> PathOf(headers[j]) != PathOf(headers[k]))
  }

  /** Something in the archive asked for `q`, or for something below it. */
  ghost predicate Wanted(headers: seq<Header>, q: Parts) {
    q == [] || exists h <- headers :: q <= PathOf(h)
  }

  /** Node by node: nothing that was not asked for. */
  ghost predicate Caused(headers: seq<Header>, fs: FileSystem, ds: seq<Deferred>) {
    && (forall q <- fs :: AllOrdinary(q) && Wanted(headers, q))
    && (forall q <- fs :: fs[q].FileNode? ==> exists h <- headers :: h.FileHeader? && PathOf(h) == q)
    && (forall q <- fs :: fs[q].DirNode? ==> fs[q].mode == if q == [] then ROOT_MODE else DIRECTORY_MODE)
    && (forall d <- ds :: d.path in fs && fs[d.path].DirNode?
                          && exists h <- headers :: h.DirHeader? && PathOf(h) == d.path && Perm(h.dirMode) == d.mode)
  }

  lemma PlacedMore(headers: seq<Header>, fs: FileSystem, ds: seq<Deferred>, h: Header, fs': FileSystem, more: seq<Deferred>)
    requires Placed(headers, fs, ds) && Adds(fs, h, fs', more)
    ensures Placed(headers + [h], fs', ds + more)
  {
    var all := headers + [h];
    forall j, k | 0 <= j < k < |all| && all[k].FileHeader? ensures PathOf(all[j]) != PathOf(all[k]) {
      assert all[j] in headers;
    }
    forall g <- all | g.DirHeader? ensures Deferred(PathOf(g), Perm(g.dirMode)) in ds + more {
      if g in headers {
        assert Deferred(PathOf(g), Perm(g.dirMode)) in ds;
      } else {
        assert more[0] in more;
      }
    }
  }

  lemma PathIsOrdinary(h: Header)
    requires SafeArchivePath(h.name).Ok?
    ensures PathOf(h) != [] && AllOrdinary(PathOf(h))
  {
    SafeIffStrictlyBelow(h.name);
  }

  lemma WantedMore(headers: seq<Header>, h: Header, q: Parts)
    ensures Wanted(headers, q) || q <= PathOf(h) ==> Wanted(headers + [h], q)
  {
    assert h in headers + [h] && forall g <- headers :: g in headers + [h];
  }

  lemma NodesMore(headers: seq<Header>, fs: FileSystem, ds: seq<Deferred>, h: Header, fs': FileSystem, more: seq<Deferred>)
    requires Caused(headers, fs, ds) && Adds(fs, h, fs', more) && [] in fs
    ensures forall q <- fs' :: AllOrdinary(q) && Wanted(headers + [h], q)
    ensures forall q <- fs' :: fs'[q].DirNode? ==> fs'[q].mode == if q == [] then ROOT_MODE else DIRECTORY_MODE
  {
    PathIsOrdinary(h);
    forall q <- fs' ensures AllOrdinary(q) && Wanted(headers + [h], q) {
      WantedMore(headers, h, q);
      if q !in fs {
        assert forall part <- q :: part in PathOf(h);
      }
    }
  }

  lemma FilesMore(headers: seq<Header>, fs: FileSystem, ds: seq<Deferred>, h: Header, fs': FileSystem, more: seq<Deferred>)
    requires Caused(headers, fs, ds) && Adds(fs, h, fs', more)
    ensures forall q <- fs' :: fs'[q].FileNode? ==> exists g <- headers + [h] :: g.FileHeader? && PathOf(g) == q
  {
    var all := headers + [h];
    assert h in all;
    forall q <- fs' | fs'[q].FileNode? ensures exists g <- all :: g.FileHeader? && PathOf(g) == q {
      if q in fs {
        var g :| g in headers && g.FileHeader? && PathOf(g) == q;
        assert g in all;
      }
    }
  }

  lemma DeferredMore(headers: seq<Header>, fs: FileSystem, ds: seq<Deferred>, h: Header, fs': FileSystem, more: seq<Deferred>)
    requires Caused(headers, fs, ds) && Adds(fs, h, fs', more)
    ensures forall d <- ds + more :: d.path in fs' && fs'[d.path].DirNode?
                          && exists g <- headers + [h] :: g.DirHeader? && PathOf(g) == d.path && Perm(g.dirMode) == d.mode
  {
    var all := headers + [h];
    assert h in all;
    forall d <- ds + more
      ensures exists g <- all :: g.DirHeader? && PathOf(g) == d.path && Perm(g.dirMode) == d.mode
    {
      if d in ds {
        var g :| g in headers && g.DirHeader? && PathOf(g) == d.path && Perm(g.dirMode) == d.mode;
        assert g in all;
      }
    }
  }

  /** The loop, so far. */
  ghost predicate Extracting(headers: seq<Header>, fs: FileSystem, ds: seq<Deferred>) {
    [] in fs && Placed(headers, fs, ds) && Caused(headers, fs, ds)
  }

  lemma EntryKeeps(headers: seq<Header>, fs: FileSystem, ds: seq<Deferred>, h: Header, fs': FileSystem, more: seq<Deferred>)
    requires Extracting(headers, fs, ds) && Adds(fs, h, fs', more)
    ensures Extracting(headers + [h], fs', ds + more)
  {
    PlacedMore(headers, fs, ds, h, fs', more);
    NodesMore(headers, fs, ds, h, fs', more);
    FilesMore(headers, fs, ds, h, fs', more);
    DeferredMore(headers, fs, ds, h, fs', more);
  }

  lemma NothingYet(headers: seq<Header>)
    requires headers == []
    ensures ExtractAll(ROOT, headers) == Ok((ROOT, [])) && Extracting(headers, ROOT, [])
  {}

  lemma OneMoreEntry(headers: seq<Header>, fs: FileSystem, ds: seq<Deferred>, h: Header)
      returns (fs': FileSystem, ds': seq<Deferred>)
    requires ExtractAll(ROOT, headers) == Ok((fs, ds)) && ExtractAll(ROOT, headers + [h]).Ok?
    requires Extracting(headers, fs, ds)
    ensures ExtractAll(ROOT, headers + [h]) == Ok((fs', ds')) && Extracting(headers + [h], fs', ds')
  {
    DoesSnoc(ROOT, headers, h);
    OneAdds(fs, h);
    var (one, more) := ExtractOne(fs, h).value;
    fs', ds' := one, ds + more;
    EntryKeeps(headers, fs, ds, h, one, more);
  }

  lemma BeforeIsOk(headers: seq<Header>, h: Header)
    requires ExtractAll(ROOT, headers + [h]).Ok?
    ensures ExtractAll(ROOT, headers).Ok?
  {
    DoesSnoc(ROOT, headers, h);
  }

  lemma {:induction false} AllEntries(headers: seq<Header>) returns (fs: FileSystem, ds: seq<Deferred>)
    requires ExtractAll(ROOT, headers).Ok?
    ensures ExtractAll(ROOT, headers) == Ok((fs, ds)) && Extracting(headers, fs, ds)
    decreases |headers|, 0
  {
    if headers == [] {
      NothingYet(headers);
      fs, ds := ROOT, [];
    } else {
      var before, h := headers[..|headers| - 1], headers[|headers| - 1];
      assert headers == before + [h];
      fs, ds := AllAndOne(before, h);
      SameEntries(before + [h], headers, fs, ds);
    }
  }

  lemma SameEntries(a: seq<Header>, b: seq<Header>, fs: FileSystem, ds: seq<Deferred>)
    requires a == b && Extracting(a, fs, ds)
    ensures Extracting(b, fs, ds)
  {}

  lemma {:induction false} AllAndOne(before: seq<Header>, h: Header) returns (fs: FileSystem, ds: seq<Deferred>)
    requires ExtractAll(ROOT, before + [h]).Ok?
    ensures ExtractAll(ROOT, before + [h]) == Ok((fs, ds)) && Extracting(before + [h], fs, ds)
    decreases |before|, 1
  {
    BeforeIsOk(before, h);
    var fs0, ds0 := AllEntries(before);
    fs, ds := OneMoreEntry(before, fs0, ds0, h);
  }

  // ----- the modes -----

  /** The files are as they were, and each directory has one of the modes that wait for it, or
      none waits and it is as it was. */
  ghost predicate ModesOf(fs: FileSystem, ds: seq<Deferred>, fs': FileSystem) {
    && fs'.Keys == fs.Keys
    && (forall q <- fs :: fs[q].FileNode? ==> fs'[q] == fs[q])
    && (forall q <- fs :: fs[q].DirNode? ==>
          && fs'[q].DirNode?
          && (fs'[q] == fs[q] || Deferred(q, fs'[q].mode) in ds)
          && ((exists d <- ds :: d.path == q) ==> Deferred(q, fs'[q].mode) in ds))
  }

  lemma ChmodModes(fs: FileSystem, ds: seq<Deferred>, fs1: FileSystem, last: Deferred)
    requires ModesOf(fs, ds, fs1) && last.path in fs && fs[last.path].DirNode?
    requires Chmod(fs1, last.path, last.mode).Ok?
    ensures ModesOf(fs, ds + [last], Chmod(fs1, last.path, last.mode).value)
  {
    var fs2 := Chmod(fs1, last.path, last.mode).value;
    assert fs2 == fs1[last.path := DirNode(last.mode)];
    assert last in ds + [last];
    forall q <- fs | fs[q].DirNode?
      ensures fs2[q] == fs[q] || Deferred(q, fs2[q].mode) in ds + [last]
      ensures (exists d <- ds + [last] :: d.path == q) ==> Deferred(q, fs2[q].mode) in ds + [last]
    {
      if q == last.path {
        assert Deferred(q, fs2[q].mode) == last;
      } else if d :| d in ds + [last] && d.path == q {
        assert d in ds;
      }
    }
  }

  lemma {:induction false} ApplyModesOf(fs: FileSystem, ds: seq<Deferred>)
    requires forall d <- ds :: d.path in fs && fs[d.path].DirNode?
    requires ApplyModes(fs, ds).Ok?
    ensures ModesOf(fs, ds, ApplyModes(fs, ds).value)
  {
    if ds != [] {
      var before, last := ds[..|ds| - 1], ds[|ds| - 1];
      assert before + [last] == ds;
      ApplyModesOf(fs, before);
      ChmodModes(fs, before, ApplyModes(fs, before).value, last);
    }
  }

  // ----- any archive -----

  /** Every entry is where its name leads, as what it is; a file name never comes after an entry
      of the same name. */
  ghost predicate AllThere(headers: seq<Header>, fs: FileSystem) {
    && (forall h <- headers :: SafeArchivePath(h.name).Ok? && PathOf(h) in fs)
    && (forall h <- headers :: h.FileHeader? ==>
          var node := fs[PathOf(h)];
          node.FileNode? && node.content == h.content && SamePermissions(node.mode, h.fileMode))
    && (forall h <- headers :: h.DirHeader? ==> fs[PathOf(h)].DirNode?)
    && (forall j, k | 0 <= j < k < |headers| :: headers[k].FileHeader? ==> PathOf(headers[j]) != PathOf(headers[k]))
  }

  /** An entry for directory `q` has these permissions. */
  ghost predicate SaidMode(headers: seq<Header>, q: Parts, mode: nat) {
    exists h <- headers :: h.DirHeader? && PathOf(h) == q && SamePermissions(mode, h.dirMode)
  }

  /** A directory has the permissions of an entry of its own, or those `MkdirAll` gives if it has none. */
  ghost predicate HasMode(headers: seq<Header>, q: Parts, mode: nat) {
    if exists h <- headers :: h.DirHeader? && PathOf(h) == q then SaidMode(headers, q, mode) else mode == 0x1ed
  }

  /** And nothing else is: no name that leads elsewhere, no file without an entry, no directory
      on the way to nothing. */
  ghost predicate NothingElse(headers: seq<Header>, fs: FileSystem) {
    && (forall q <- fs :: AllOrdinary(q) && Wanted(headers, q))
    && (forall q <- fs :: fs[q].FileNode? ==> exists h <- headers :: h.FileHeader? && PathOf(h) == q)
    && (forall q <- fs :: fs[q].DirNode? && q != [] ==> HasMode(headers, q, fs[q].mode))
  }

  lemma AllStillThere(headers: seq<Header>, fs: FileSystem, ds: seq<Deferred>, sorted: seq<Deferred>, fs': FileSystem)
    requires Extracting(headers, fs, ds) && ModesOf(fs, sorted, fs')
    ensures AllThere(headers, fs')
  {
    forall h <- headers | h.FileHeader?
      ensures fs'[PathOf(h)] == FileNode(Perm(h.fileMode), h.content) && SamePermissions(Perm(h.fileMode), h.fileMode)
    {
      PermKeepsBits(h.fileMode);
    }
  }

  lemma ModeIsSaid(headers: seq<Header>, fs: FileSystem, ds: seq<Deferred>, q: Parts, mode: nat)
    requires Caused(headers, fs, ds) && Deferred(q, mode) in ds
    ensures SaidMode(headers, q, mode)
  {
    var h :| h in headers && h.DirHeader? && PathOf(h) == q && Perm(h.dirMode) == mode;
    PermKeepsBits(h.dirMode);
  }

  lemma ModeIsHad(headers: seq<Header>, fs: FileSystem, ds: seq<Deferred>, sorted: seq<Deferred>, fs': FileSystem, q: Parts)
    requires Extracting(headers, fs, ds) && ModesOf(fs, sorted, fs') && forall d :: d in sorted <==> d in ds
    requires q in fs' && fs'[q].DirNode? && q != []
    ensures HasMode(headers, q, fs'[q].mode)
  {
    if Deferred(q, fs'[q].mode) in ds {
      ModeIsSaid(headers, fs, ds, q, fs'[q].mode);
    } else {
      forall h <- headers ensures !(h.DirHeader? && PathOf(h) == q) {
        assert h.DirHeader? ==> Deferred(PathOf(h), Perm(h.dirMode)) in sorted;
      }
    }
  }

  lemma NodesAreWanted(headers: seq<Header>, fs: FileSystem, ds: seq<Deferred>, sorted: seq<Deferred>, fs': FileSystem)
    requires Caused(headers, fs, ds) && ModesOf(fs, sorted, fs')
    ensures forall q <- fs' :: AllOrdinary(q) && Wanted(headers, q)
  {}

  lemma FilesAreEntries(headers: seq<Header>, fs: FileSystem, ds: seq<Deferred>, sorted: seq<Deferred>, fs': FileSystem)
    requires Caused(headers, fs, ds) && ModesOf(fs, sorted, fs')
    ensures forall q <- fs' :: fs'[q].FileNode? ==> exists h <- headers :: h.FileHeader? && PathOf(h) == q
  {}

  lemma ModesAreHad(headers: seq<Header>, fs: FileSystem, ds: seq<Deferred>, sorted: seq<Deferred>, fs': FileSystem)
    requires Extracting(headers, fs, ds) && ModesOf(fs, sorted, fs') && forall d :: d in sorted <==> d in ds
    ensures forall q <- fs' :: fs'[q].DirNode? && q != [] ==> HasMode(headers, q, fs'[q].mode)
  {
    forall q <- fs' | fs'[q].DirNode? && q != [] ensures HasMode(headers, q, fs'[q].mode) {
      ModeIsHad(headers, fs, ds, sorted, fs', q);
    }
  }

  lemma NothingElseThere(headers: seq<Header>, fs: FileSystem, ds: seq<Deferred>, sorted: seq<Deferred>, fs': FileSystem)
    requires Extracting(headers, fs, ds) && ModesOf(fs, sorted, fs') && forall d :: d in sorted <==> d in ds
    ensures NothingElse(headers, fs')
  {
    NodesAreWanted(headers, fs, ds, sorted, fs');
    FilesAreEntries(headers, fs, ds, sorted, fs');
    ModesAreHad(headers, fs, ds, sorted, fs');
  }

  /** Whatever archive is extracted: if it is at all, every entry lies where its name leads below
      the destination, with its contents and permissions, and nothing else was made. */
  lemma ExtractedIsTheArchive(headers: seq<Header>, sort: seq<Deferred> -> seq<Deferred>)
    requires SortsByDepth(sort) && Extracted(headers, sort).Ok?
    ensures AllThere(headers, Extracted(headers, sort).value) && NothingElse(headers, Extracted(headers, sort).value)
  {
    var fs, ds := AllEntries(headers);
    SortedHasSame(sort, ds);
    ApplyModesOf(fs, sort(ds));
    AllStillThere(headers, fs, ds, sort(ds), ApplyModes(fs, sort(ds)).value);
    NothingElseThere(headers, fs, ds, sort(ds), ApplyModes(fs, sort(ds)).value);
  }

  lemma SortedHasSame(sort: seq<Deferred> -> seq<Deferred>, ds: seq<Deferred>)
    requires SortsByDepth(sort)
    ensures forall d :: d in sort(ds) <==> d in ds
  {
    forall d ensures d in sort(ds) <==> d in ds {
      assert d in multiset(sort(ds)) <==> d in multiset(ds);
    }
  }

  /** One name that leads out of the destination, or nowhere, and nothing is extracted. */
  lemma UnsafeNameStops(headers: seq<Header>, sort: seq<Deferred> -> seq<Deferred>, h: Header)
    requires SortsByDepth(sort) && h in headers
    requires Split(h.name)[0] == "" || exists dir: Parts :: !(dir < Walk(dir, Split(h.name)))
    ensures Extracted(headers, sort).Err?
  {
    if Extracted(headers, sort).Ok? {
      ExtractedIsTheArchive(headers, sort);
      SafeIffStrictlyBelow(h.name);
      assert false;
    }
  }
}
