/** The deterministic tar packer and the unpacker that undoes it. */
module Tar {
  import opened Utf8
  import opened Strings
  import opened Models
  import Lex

  // ----- Trees

  datatype Tree = File(mode: nat, data: Bytes) | Dir(mode: nat, kids: map<string, Tree>)

  const DIR_MODE: nat := 0x1ED   // 0755
  const FILE_MODE: nat := 0x1A4  // 0644

  /** Some bit of 0111 is set. */
  predicate Executable(mode: nat) {
    mode % 2 == 1 || mode / 8 % 2 == 1 || mode / 64 % 2 == 1
  }

  function PackedMode(mode: nat): nat {
    if Executable(mode) then DIR_MODE else FILE_MODE
  }

  lemma OctalDigit(above: nat, digit: nat)
    requires digit < 8
    ensures (8 * above + digit) / 8 == above && (8 * above + digit) % 2 == digit % 2
  {
    HalfOf(4 * above + digit / 2, digit % 2);
    assert 8 * above + digit == 2 * (4 * above + digit / 2) + digit % 2;
  }

  lemma HalfOf(half: nat, bit: nat)
    requires bit < 2
    ensures (2 * half + bit) % 2 == bit
  {
  }

  /** The mode by its octal digits: one execute bit anywhere makes it 0755, none makes it 0644. */
  lemma PackedModes(upper: nat, user: nat, group: nat, other: nat)
    requires user < 8 && group < 8 && other < 8
    ensures PackedMode(8 * (8 * (8 * upper + user) + group) + other)
            == if user % 2 == 1 || group % 2 == 1 || other % 2 == 1 then 8 * (8 * 7 + 5) + 5 else 8 * (8 * 6 + 4) + 4
  {
    var top := 8 * upper + user;
    var middle := 8 * top + group;
    OctalDigit(upper, user);
    OctalDigit(top, group);
    OctalDigit(middle, other);
    assert (8 * middle + other) / 64 == middle / 8;
  }

  predicate ValidName(name: string) {
    name != "" && '/' !in name && name != "." && name != ".."
  }

  ghost predicate ValidTree(t: Tree) {
    t.Dir? ==> forall n :: n in t.kids ==> ValidName(n) && ValidTree(t.kids[n])
  }

  /** The tree with the modes an archive keeps. */
  ghost function Normalized(t: Tree): Tree {
    match t
    case File(mode, data) => File(PackedMode(mode), data)
    case Dir(_, kids) => Dir(DIR_MODE, map n | n in kids :: Normalized(kids[n]))
  }

  // ----- Packing

  datatype Entry = DirEntry(name: string, mode: nat) | FileEntry(name: string, mode: nat, size: nat, data: Bytes)

  ghost function Pack(d: Tree, prefix: string): seq<Entry>
    requires d.Dir?
    decreases d, 1, 0
  {
    Lex.InOrderLaw(d.kids.Keys);
    PackNames(d, Lex.InOrder(d.kids.Keys), prefix)
  }

  ghost function PackNames(d: Tree, names: seq<string>, prefix: string): seq<Entry>
    requires d.Dir? && forall n :: n in names ==> n in d.kids
    decreases d, 0, |names|
  {
    if names == [] then []
    else PackOne(d.kids[names[0]], names[0], prefix) + PackNames(d, names[1..], prefix)
  }

  ghost function PackOne(t: Tree, name: string, prefix: string): seq<Entry>
    decreases t, 2, 0
  {
    match t
    case File(mode, data) => [FileEntry(prefix + name, PackedMode(mode), |data|, data)]
    case Dir(_, _) => [DirEntry(prefix + name + "/", DIR_MODE)] + Pack(t, prefix + name + "/")
  }

  /** Packing sees only what normalization keeps. */
  lemma {:induction false} PackNormalized(d: Tree, prefix: string)
    requires d.Dir?
    ensures Pack(Normalized(d), prefix) == Pack(d, prefix)
    decreases d, 1, 0
  {
    assert Normalized(d).kids.Keys == d.kids.Keys;
    Lex.InOrderLaw(d.kids.Keys);
    PackNamesNormalized(d, Lex.InOrder(d.kids.Keys), prefix);
  }

  lemma {:induction false} PackNamesNormalized(d: Tree, names: seq<string>, prefix: string)
    requires d.Dir? && forall n :: n in names ==> n in d.kids
    ensures PackNames(Normalized(d), names, prefix) == PackNames(d, names, prefix)
    decreases d, 0, |names|
  {
    if names != [] {
      var t := d.kids[names[0]];
      assert Normalized(d).kids[names[0]] == Normalized(t);
      match t {
        case File(mode, data) =>
          assert Executable(DIR_MODE) && !Executable(FILE_MODE);
        case Dir(_, _) =>
          PackNormalized(t, prefix + names[0] + "/");
      }
      PackNamesNormalized(d, names[1..], prefix);
    }
  }

  class TarWriter {
    var entries: seq<Entry>
    /** How often reading the source or writing the archive has failed. */
    ghost var faults: nat

    constructor ()
      ensures entries == []
    {
      entries := [];
    }

    method Fails() returns (b: bool)
      modifies this`faults
      ensures faults == old(faults) + (if b then 1 else 0)
    {
      b := *;
      if b {
        faults := faults + 1;
      }
    }

    method Add(entry: Entry) returns (ok: bool)
      modifies this
      ensures entries == if ok then old(entries) + [entry] else old(entries)
      ensures faults == old(faults) + (if ok then 0 else 1)
    {
      var fails := Fails();
      if !fails {
        entries := entries + [entry];
      }
      ok := !fails;
    }
  }

  /** Readdir: the names of a directory, in whatever order the file system has them. */
  method Readdir(d: Tree) returns (names: seq<string>)
    requires d.Dir?
    ensures Lex.Distinct(names) && forall n :: n in names <==> n in d.kids
  {
    names := [];
    var left := d.kids.Keys;
    while left != {}
      invariant Lex.Distinct(names) && left <= d.kids.Keys
      invariant forall n :: n in names <==> n in d.kids && n !in left
      decreases left
    {
      var n :| n in left;
      names := names + [n];
      left := left - {n};
    }
  }

  lemma SortedListing(d: Tree, names: seq<string>)
    requires d.Dir? && Lex.Distinct(names) && forall n :: n in names <==> n in d.kids
    ensures Lex.Sort(names) == Lex.InOrder(d.kids.Keys)
  {
    Lex.SortLaw(names);
    Lex.SortForgetsOrder(names, names);
    Lex.InOrderLaw(d.kids.Keys);
    Lex.SortedUnique(Lex.Sort(names), Lex.InOrder(d.kids.Keys));
  }

  /** AddDirToTar: the same entries for every order the directories are read in. */
  method AddDirToTar(tw: TarWriter, dir: Tree, prefix: string) returns (ok: bool)
    requires dir.Dir?
    modifies tw
    ensures ok ==> tw.entries == old(tw.entries) + Pack(dir, prefix)
    ensures tw.faults == old(tw.faults) + (if ok then 0 else 1)
    decreases dir, 0
  {
    var readFails := tw.Fails();
    if readFails {
      return false;
    }
    var listing := Readdir(dir);
    var names := Lex.SortStrings(listing);
    FirstName(tw.entries, dir, listing, prefix);
    ok := true;
    var i := 0;
    while i < |names|
      invariant 0 <= i <= |names|
      invariant PackedSoFar(tw.entries, old(tw.entries), dir, names, i, prefix)
      invariant ok && tw.faults == old(tw.faults)
    {
      NextName(tw.entries, old(tw.entries), dir, names, i, prefix);
      ok := AddOne(tw, dir.kids[names[i]], names[i], prefix);
      if !ok {
        return;
      }
      i := i + 1;
    }
  }

  /** The loop body: one header and, for a directory, everything below it. */
  method AddOne(tw: TarWriter, t: Tree, name: string, prefix: string) returns (ok: bool)
    modifies tw
    ensures ok ==> tw.entries == old(tw.entries) + PackOne(t, name, prefix)
    ensures tw.faults == old(tw.faults) + (if ok then 0 else 1)
    decreases t, 1
  {
    if t.Dir? {
      ok := tw.Add(DirEntry(prefix + name + "/", DIR_MODE));
      if ok {
        ok := AddDirToTar(tw, t, prefix + name + "/");
      }
    } else {
      var mode := FILE_MODE;
      if Executable(t.mode) {
        mode := DIR_MODE;
      }
      ok := tw.Add(FileEntry(prefix + name, mode, |t.data|, t.data));
    }
  }

  /** What has been written and what the names from i on will add make up the whole. */
  ghost predicate PackedSoFar(entries: seq<Entry>, start: seq<Entry>, dir: Tree, names: seq<string>, i: nat, prefix: string) {
    dir.Dir? && i <= |names| && (forall n :: n in names ==> n in dir.kids)
    && entries + PackNames(dir, names[i..], prefix) == start + Pack(dir, prefix)
  }

  lemma FirstName(entries: seq<Entry>, dir: Tree, listing: seq<string>, prefix: string)
    requires dir.Dir? && Lex.Distinct(listing) && forall n :: n in listing <==> n in dir.kids
    ensures PackedSoFar(entries, entries, dir, Lex.Sort(listing), 0, prefix)
  {
    SortedListing(dir, listing);
    Lex.InOrderLaw(dir.kids.Keys);
    assert Lex.Sort(listing)[0..] == Lex.Sort(listing);
  }

  lemma NextName(entries: seq<Entry>, start: seq<Entry>, dir: Tree, names: seq<string>, i: nat, prefix: string)
    requires PackedSoFar(entries, start, dir, names, i, prefix) && i < |names|
    ensures names[i] in dir.kids
    ensures PackedSoFar(entries + PackOne(dir.kids[names[i]], names[i], prefix), start, dir, names, i + 1, prefix)
  {
    assert names[i] in names && names[i..][1..] == names[i + 1..];
    var one, rest := PackOne(dir.kids[names[i]], names[i], prefix), PackNames(dir, names[i + 1..], prefix);
    assert entries + one + rest == entries + (one + rest);
  }

  // ----- File systems

  type Path = seq<string>

  datatype Node = DirNode(mode: nat) | FileNode(mode: nat, data: Bytes)

  type Nodes = map<Path, Node>

  /** filepath.Clean on a rooted path. */
  function Clean(parts: Path): Path {
    if parts == [] then []
    else
      var before, last := Clean(parts[..|parts| - 1]), parts[|parts| - 1];
      if last == "." then before
      else if last == ".." then if before == [] then [] else before[..|before| - 1]
      else before + [last]
  }

  function JoinPath(target: Path, name: string): Path {
    Clean(target + Segments(name))
  }

  predicate ValidPath(p: Path) {
    forall i :: 0 <= i < |p| ==> ValidName(p[i])
  }

  /** A path spelled with a slash after every name, as directory entries are. */
  function Spell(p: Path): string {
    if p == [] then "" else Spell(p[..|p| - 1]) + p[|p| - 1] + "/"
  }

  lemma {:induction false} CleanValid(p: Path)
    requires ValidPath(p)
    ensures Clean(p) == p
  {
    if p != [] {
      CleanValid(p[..|p| - 1]);
      assert p == p[..|p| - 1] + [p[|p| - 1]];
    }
  }

  /** Entry names parse back to the path they were printed from. */
  lemma {:induction false} SpelledBack(at: Path, n: string)
    requires ValidPath(at) && ValidName(n)
    ensures Segments(Spell(at) + n) == at + [n]
    ensures Spell(at) + n + "/" == Spell(at + [n])
    ensures Segments(Spell(at + [n])) == at + [n]
  {
    SegmentsOfName(n);
    if at == [] {
      assert Spell(at) + n == n;
    } else {
      var k := |at| - 1;
      SpelledBack(at[..k], at[k]);
      assert at[..k] + [at[k]] == at;
      var s := Spell(at[..k]) + at[k];
      assert Spell(at) + n == s + "/" + n;
      SegmentsAppend(s, n);
    }
    SegmentsAppend(Spell(at) + n, "");
    assert Spell(at) + n + "/" + "" == Spell(at) + n + "/";
    assert (at + [n])[..|at|] == at;
    assert Segments(Spell(at) + n) + [] == Segments(Spell(at) + n);
  }

  lemma JoinSpelled(target: Path, at: Path, n: string)
    requires ValidPath(target) && ValidPath(at) && ValidName(n)
    ensures JoinPath(target, Spell(at) + n) == target + at + [n]
    ensures JoinPath(target, Spell(at + [n])) == target + at + [n]
  {
    SpelledBack(at, n);
    CleanJoined(target, at, n);
  }

  lemma CleanJoined(target: Path, at: Path, n: string)
    requires ValidPath(target) && ValidPath(at) && ValidName(n)
    ensures Clean(target + (at + [n])) == target + at + [n]
  {
    assert target + (at + [n]) == target + at + [n];
    CleanValid(target + at + [n]);
  }

  // ----- Unpacking

  /** os.MkdirAll: missing parents get the same mode, existing directories keep theirs. */
  function MkdirAll(nodes: Nodes, p: Path, mode: nat): Option<Nodes> {
    if p == [] then Some(nodes)
    else
      match MkdirAll(nodes, p[..|p| - 1], mode)
      case None => None
      case Some(up) =>
        if p !in up then Some(up[p := DirNode(mode)])
        else if up[p].DirNode? then Some(up) else None
  }

  /** Open with O_CREATE and O_RDWR but without O_TRUNC, then copy the data in. */
  function WriteFile(nodes: Nodes, p: Path, mode: nat, data: Bytes): Option<Nodes> {
    if p == [] then None
    else if p in nodes then
      match nodes[p]
      case DirNode(_) => None
      case FileNode(m, was) => Some(nodes[p := FileNode(m, if |was| > |data| then data + was[|data|..] else data)])
    else if IsDir(nodes, p[..|p| - 1]) then Some(nodes[p := FileNode(mode, data)])
    else None
  }

  predicate IsDir(nodes: Nodes, p: Path) {
    p == [] || (p in nodes && nodes[p].DirNode?)
  }

  function Parent(p: Path): Path {
    if p == [] then [] else p[..|p| - 1]
  }

  function UnpackEntry(nodes: Nodes, target: Path, entry: Entry): Option<Nodes> {
    var p := JoinPath(target, entry.name);
    match entry
    case DirEntry(_, mode) => MkdirAll(nodes, p, mode)
    case FileEntry(_, mode, _, data) =>
      match MkdirAll(nodes, Parent(p), DIR_MODE)
      case None => None
      case Some(up) => WriteFile(up, p, mode, data)
  }

  function UnpackAll(nodes: Nodes, target: Path, entries: seq<Entry>): Option<Nodes>
    decreases |entries|
  {
    if entries == [] then Some(nodes)
    else
      match UnpackEntry(nodes, target, entries[0])
      case None => None
      case Some(next) => UnpackAll(next, target, entries[1..])
  }

  lemma {:induction false} UnpackAppend(nodes: Nodes, target: Path, a: seq<Entry>, b: seq<Entry>)
    ensures UnpackAll(nodes, target, a + b) ==
              match UnpackAll(nodes, target, a) case None => None case Some(next) => UnpackAll(next, target, b)
    decreases |a|
  {
    if a == [] {
      assert a + b == b;
    } else {
      assert (a + b)[1..] == a[1..] + b;
      match UnpackEntry(nodes, target, a[0]) {
        case None =>
        case Some(next) => UnpackAppend(next, target, a[1..], b);
      }
    }
  }

  /** Every directory on the way to p, and p itself, is there. */
  ghost predicate DirsTo(nodes: Nodes, p: Path) {
    forall k :: 0 < k <= |p| ==> p[..k] in nodes && nodes[p[..k]].DirNode?
  }

  lemma {:induction false} MkdirAllThere(nodes: Nodes, p: Path, mode: nat)
    requires DirsTo(nodes, p)
    ensures MkdirAll(nodes, p, mode) == Some(nodes)
  {
    if p != [] {
      var k := |p| - 1;
      assert p[..|p|] == p;
      forall j | 0 < j <= k ensures p[..k][..j] in nodes && nodes[p[..k][..j]].DirNode? {
        assert p[..k][..j] == p[..j];
      }
      MkdirAllThere(nodes, p[..k], mode);
    }
  }

  lemma DirsToKid(nodes: Nodes, p: Path, n: string)
    requires DirsTo(nodes, p) && p + [n] in nodes && nodes[p + [n]].DirNode?
    ensures DirsTo(nodes, p + [n])
  {
    var q := p + [n];
    forall k | 0 < k <= |q| ensures q[..k] in nodes && nodes[q[..k]].DirNode? {
      if k == |q| {
        assert q[..k] == q;
      } else {
        assert q[..k] == p[..k];
      }
    }
  }

  /** Nothing exists at p or below it. */
  ghost predicate Vacant(nodes: Nodes, p: Path) {
    forall q :: q in nodes ==> !(p <= q)
  }

  /** The nodes a tree becomes when unpacked at p. */
  ghost function FlatOne(t: Tree, p: Path): Nodes
    decreases t, 2, 0
  {
    match t
    case File(mode, data) => map[p := FileNode(PackedMode(mode), data)]
    case Dir(_, _) => map[p := DirNode(DIR_MODE)] + Flat(t, p)
  }

  ghost function Flat(d: Tree, p: Path): Nodes
    requires d.Dir?
    decreases d, 1, 0
  {
    Lex.InOrderLaw(d.kids.Keys);
    FlatNames(d, Lex.InOrder(d.kids.Keys), p)
  }

  ghost function FlatNames(d: Tree, names: seq<string>, p: Path): Nodes
    requires d.Dir? && forall n :: n in names ==> n in d.kids
    decreases d, 0, |names|
  {
    if names == [] then map[]
    else FlatOne(d.kids[names[0]], p + [names[0]]) + FlatNames(d, names[1..], p)
  }

  lemma {:induction false} FlatBelow(t: Tree, p: Path, q: Path)
    requires q in FlatOne(t, p)
    ensures p <= q
    decreases t, 2, 0
  {
    if t.Dir? && q != p {
      Lex.InOrderLaw(t.kids.Keys);
      FlatNamesBelow(t, Lex.InOrder(t.kids.Keys), p, q);
    }
  }

  lemma {:induction false} FlatNamesBelow(d: Tree, names: seq<string>, p: Path, q: Path)
    requires d.Dir? && (forall n :: n in names ==> n in d.kids) && q in FlatNames(d, names, p)
    ensures exists n :: n in names && p + [n] <= q
    decreases d, 0, |names|
  {
    var n := names[0];
    if q in FlatNames(d, names[1..], p) {
      FlatNamesBelow(d, names[1..], p, q);
    } else {
      FlatBelow(d.kids[n], p + [n], q);
      assert n in names;
    }
  }

  /** Unpacking the entries of a tree adds exactly its nodes. */
  lemma {:induction false} UnpackOne(nodes: Nodes, target: Path, at: Path, t: Tree, n: string)
    requires ValidPath(target) && ValidPath(at) && ValidName(n) && ValidTree(t)
    requires DirsTo(nodes, target + at) && Vacant(nodes, target + at + [n])
    ensures UnpackAll(nodes, target, PackOne(t, n, Spell(at))) == Some(nodes + FlatOne(t, target + at + [n]))
    decreases t, 2, 0
  {
    match t {
      case File(mode, data) =>
        var entry := FileEntry(Spell(at) + n, PackedMode(mode), |data|, data);
        UnpackFile(nodes, target, at, n, entry);
        AddFile(nodes, target + at + [n], t);
      case Dir(_, _) =>
        UnpackSubdir(nodes, target, at, t, n);
    }
  }

  lemma AddFile(nodes: Nodes, p: Path, t: Tree)
    requires t.File?
    ensures nodes[p := FileNode(PackedMode(t.mode), t.data)] == nodes + FlatOne(t, p)
  {
  }

  lemma {:induction false} UnpackSubdir(nodes: Nodes, target: Path, at: Path, t: Tree, n: string)
    requires ValidPath(target) && ValidPath(at) && ValidName(n) && ValidTree(t) && t.Dir?
    requires DirsTo(nodes, target + at) && Vacant(nodes, target + at + [n])
    ensures UnpackAll(nodes, target, PackOne(t, n, Spell(at))) == Some(nodes + FlatOne(t, target + at + [n]))
    decreases t, 1, 1
  {
    var p := target + at + [n];
    SpelledBack(at, n);
    UnpackHeader(nodes, target, at, n);
    var next := nodes[p := DirNode(DIR_MODE)];
    UnpackBelow(next, target, at, t, n);
    UnpackHead(nodes, next, target, DirEntry(Spell(at + [n]), DIR_MODE), Pack(t, Spell(at + [n])));
    AddHeader(nodes, next, p, t);
  }

  lemma {:induction false} UnpackBelow(next: Nodes, target: Path, at: Path, t: Tree, n: string)
    requires ValidPath(target) && ValidPath(at) && ValidName(n) && ValidTree(t) && t.Dir?
    requires DirsTo(next, target + at + [n]) && forall m :: Vacant(next, target + at + [n] + [m])
    ensures UnpackAll(next, target, Pack(t, Spell(at + [n]))) == Some(next + Flat(t, target + at + [n]))
    decreases t, 1, 0, 1
  {
    assert target + (at + [n]) == target + at + [n];
    UnpackDir(next, target, at + [n], t);
  }

  lemma AddHeader(nodes: Nodes, next: Nodes, p: Path, t: Tree)
    requires t.Dir? && next == nodes[p := DirNode(DIR_MODE)]
    ensures next + Flat(t, p) == nodes + FlatOne(t, p)
  {
    JoinMaps(nodes, map[p := DirNode(DIR_MODE)], Flat(t, p));
    assert next == nodes + map[p := DirNode(DIR_MODE)];
  }

  lemma JoinMaps(a: Nodes, b: Nodes, c: Nodes)
    ensures a + b + c == a + (b + c)
  {
  }

  lemma UnpackHead(nodes: Nodes, next: Nodes, target: Path, head: Entry, below: seq<Entry>)
    requires UnpackEntry(nodes, target, head) == Some(next)
    ensures UnpackAll(nodes, target, [head] + below) == UnpackAll(next, target, below)
  {
    assert ([head] + below)[1..] == below;
  }

  lemma UnpackFile(nodes: Nodes, target: Path, at: Path, n: string, entry: Entry)
    requires ValidPath(target) && ValidPath(at) && ValidName(n)
    requires DirsTo(nodes, target + at) && Vacant(nodes, target + at + [n])
    requires entry.FileEntry? && entry.name == Spell(at) + n
    ensures UnpackAll(nodes, target, [entry]) == Some(nodes[target + at + [n] := FileNode(entry.mode, entry.data)])
  {
    var p := target + at + [n];
    JoinSpelled(target, at, n);
    assert Parent(p) == target + at && p !in nodes;
    MkdirAllThere(nodes, target + at, DIR_MODE);
    ParentIsDir(nodes, target + at);
    assert [entry][1..] == [];
  }

  lemma UnpackHeader(nodes: Nodes, target: Path, at: Path, n: string)
    requires ValidPath(target) && ValidPath(at) && ValidName(n)
    requires DirsTo(nodes, target + at) && Vacant(nodes, target + at + [n])
    ensures var p := target + at + [n];
            var next := nodes[p := DirNode(DIR_MODE)];
            UnpackEntry(nodes, target, DirEntry(Spell(at + [n]), DIR_MODE)) == Some(next)
            && DirsTo(next, p) && forall m :: Vacant(next, p + [m])
  {
    var p := target + at + [n];
    var next := nodes[p := DirNode(DIR_MODE)];
    JoinSpelled(target, at, n);
    assert p[..|p| - 1] == target + at && p !in nodes;
    MkdirAllThere(nodes, target + at, DIR_MODE);
    DirsToKept(nodes, next, target + at);
    DirsToKid(next, target + at, n);
    forall m, q | q in next ensures !(p + [m] <= q) {
      assert p <= p + [m];
      assert p + [m] <= q ==> p <= q;
    }
  }

  lemma ParentIsDir(nodes: Nodes, p: Path)
    requires DirsTo(nodes, p)
    ensures IsDir(nodes, p)
  {
    assert p[..|p|] == p;
  }

  lemma DirsToKept(nodes: Nodes, more: Nodes, p: Path)
    requires DirsTo(nodes, p) && forall q :: q in nodes ==> q in more && more[q] == nodes[q]
    ensures DirsTo(more, p)
  {
  }

  lemma {:induction false} UnpackDir(nodes: Nodes, target: Path, at: Path, d: Tree)
    requires ValidPath(target) && ValidPath(at) && d.Dir? && ValidTree(d)
    requires DirsTo(nodes, target + at) && forall n :: n in d.kids ==> Vacant(nodes, target + at + [n])
    ensures UnpackAll(nodes, target, Pack(d, Spell(at))) == Some(nodes + Flat(d, target + at))
    decreases d, 1, 0, 0
  {
    Lex.InOrderLaw(d.kids.Keys);
    UnpackNames(nodes, target, at, d, Lex.InOrder(d.kids.Keys));
  }

  lemma {:induction false} UnpackNames(nodes: Nodes, target: Path, at: Path, d: Tree, names: seq<string>)
    requires ValidPath(target) && ValidPath(at) && d.Dir? && ValidTree(d)
    requires Lex.Distinct(names) && forall n :: n in names ==> n in d.kids
    requires DirsTo(nodes, target + at) && forall n :: n in names ==> Vacant(nodes, target + at + [n])
    ensures UnpackAll(nodes, target, PackNames(d, names, Spell(at))) == Some(nodes + FlatNames(d, names, target + at))
    decreases d, 0, |names|
  {
    if names == [] {
      assert nodes + map[] == nodes;
    } else {
      var n, p := names[0], target + at;
      var t := d.kids[n];
      assert n in names && ValidTree(t) && ValidName(n);
      UnpackOne(nodes, target, at, t, n);
      var next := nodes + FlatOne(t, p + [n]);
      OtherKidsVacant(nodes, t, p, n, names);
      NodesKept(nodes, t, p, n);
      TailDistinct(names);
      UnpackNames(next, target, at, d, names[1..]);
      UnpackBoth(nodes, next, target, PackOne(t, n, Spell(at)), PackNames(d, names[1..], Spell(at)),
                 FlatOne(t, p + [n]), FlatNames(d, names[1..], p));
    }
  }

  lemma TailDistinct(names: seq<string>)
    requires names != [] && Lex.Distinct(names)
    ensures Lex.Distinct(names[1..]) && forall n :: n in names[1..] ==> n in names
  {
  }

  lemma UnpackBoth(nodes: Nodes, next: Nodes, target: Path, a: seq<Entry>, b: seq<Entry>, flatA: Nodes, flatB: Nodes)
    requires UnpackAll(nodes, target, a) == Some(next) && next == nodes + flatA
    requires UnpackAll(next, target, b) == Some(next + flatB)
    ensures UnpackAll(nodes, target, a + b) == Some(nodes + (flatA + flatB))
  {
    UnpackAppend(nodes, target, a, b);
    JoinMaps(nodes, flatA, flatB);
  }

  lemma NodesKept(nodes: Nodes, t: Tree, p: Path, n: string)
    requires DirsTo(nodes, p) && Vacant(nodes, p + [n])
    ensures DirsTo(nodes + FlatOne(t, p + [n]), p)
  {
    var next := nodes + FlatOne(t, p + [n]);
    forall q | q in nodes ensures next[q] == nodes[q] {
      if q in FlatOne(t, p + [n]) { FlatBelow(t, p + [n], q); }
    }
    DirsToKept(nodes, next, p);
  }

  /** Two steps from p on the way to one place are the same step. */
  lemma OneStep(p: Path, n: string, m: string, q: Path)
    requires p + [n] <= q
    ensures p + [m] <= q <==> n == m
  {
    assert q[|p|] == (p + [n])[|p|] == n;
    assert (p + [m])[|p|] == m;
    assert q[..|p| + 1] == p + [n];
  }

  lemma OtherKidsVacant(nodes: Nodes, t: Tree, p: Path, n: string, names: seq<string>)
    requires names != [] && names[0] == n && Lex.Distinct(names)
    requires forall m :: m in names ==> Vacant(nodes, p + [m])
    ensures forall m :: m in names[1..] ==> Vacant(nodes + FlatOne(t, p + [n]), p + [m])
  {
    forall m, q | m in names[1..] && q in nodes + FlatOne(t, p + [n])
      ensures !(p + [m] <= q)
    {
      assert m in names && m != n by {
        var i :| 0 <= i < |names[1..]| && names[1..][i] == m;
        assert names[i + 1] == m;
      }
      if q in FlatOne(t, p + [n]) {
        FlatBelow(t, p + [n], q);
        OneStep(p, n, m, q);
      }
    }
  }

  // ----- What a file system holds

  function Lookup(t: Tree, p: Path): Option<Tree>
    decreases |p|
  {
    if p == [] then Some(t)
    else if t.Dir? && p[0] in t.kids then Lookup(t.kids[p[0]], p[1..])
    else None
  }

  function NodeOf(t: Tree): Node {
    match t
    case File(mode, data) => FileNode(mode, data)
    case Dir(mode, _) => DirNode(mode)
  }

  /** The tree at root is t: the same paths, kinds, modes and contents, and nothing else. */
  ghost predicate Holds(nodes: Nodes, root: Path, t: Tree) {
    forall p: Path :: HoldsAt(nodes, root, t, p)
  }

  ghost predicate HoldsAt(nodes: Nodes, root: Path, t: Tree, p: Path) {
    && (root + p in nodes <==> Lookup(t, p).Some?)
    && (root + p in nodes ==> nodes[root + p] == NodeOf(Lookup(t, p).value))
  }

  lemma {:induction false} FlatHolds(t: Tree, root: Path, p: Path)
    ensures HoldsAt(FlatOne(t, root), root, Normalized(t), p)
    decreases t, 2, 0
  {
    var flat := FlatOne(t, root);
    if p == [] {
      assert root + p == root;
      if t.Dir? && root in Flat(t, root) {
        Lex.InOrderLaw(t.kids.Keys);
        FlatNamesBelow(t, Lex.InOrder(t.kids.Keys), root, root);
      }
    } else {
      assert root + p != root;
      if t.Dir? {
        Lex.InOrderLaw(t.kids.Keys);
        FlatNamesHold(t, Lex.InOrder(t.kids.Keys), root, p);
        assert root + p in flat <==> root + p in Flat(t, root);
        assert Normalized(t).kids.Keys == t.kids.Keys;
      }
    }
  }

  lemma {:induction false} FlatNamesHold(d: Tree, names: seq<string>, root: Path, p: Path)
    requires d.Dir? && Lex.Distinct(names) && (forall n :: n in names ==> n in d.kids) && p != []
    ensures var flat := FlatNames(d, names, root);
            (p[0] !in names ==> root + p !in flat)
            && (p[0] in names ==>
                  (root + p in flat <==> Lookup(Normalized(d.kids[p[0]]), p[1..]).Some?)
                  && (root + p in flat ==> flat[root + p] == NodeOf(Lookup(Normalized(d.kids[p[0]]), p[1..]).value)))
    decreases d, 0, |names|
  {
    if names != [] {
      var n, rest := names[0], names[1..];
      FlatNamesHold(d, rest, root, p);
      var one := FlatOne(d.kids[n], root + [n]);
      Lex.TailElements(names, p[0]);
      if p[0] == n {
        assert root + p == root + [n] + p[1..];
        FlatHolds(d.kids[n], root + [n], p[1..]);
      } else {
        if root + p in one {
          FlatBelow(d.kids[n], root + [n], root + p);
          OneStep(root, n, p[0], root + p);
        }
        assert root + p !in one;
      }
    }
  }

  /** A file system holds one tree at a place. */
  lemma {:induction false} HoldsUnique(nodes: Nodes, root: Path, s: Tree, t: Tree)
    requires Holds(nodes, root, s) && Holds(nodes, root, t)
    ensures s == t
    decreases s
  {
    assert HoldsAt(nodes, root, s, []) && HoldsAt(nodes, root, t, []);
    assert root + [] == root;
    assert NodeOf(s) == NodeOf(t);
    if s.Dir? {
      forall n: string
        ensures n in s.kids <==> n in t.kids
        ensures n in s.kids && n in t.kids ==> s.kids[n] == t.kids[n]
      {
        assert HoldsAt(nodes, root, s, [n]) && HoldsAt(nodes, root, t, [n]);
        assert Lookup(s, [n]).Some? <==> n in s.kids by { KidLookup(s, n, []); }
        assert Lookup(t, [n]).Some? <==> n in t.kids by { KidLookup(t, n, []); }
        if n in s.kids && n in t.kids {
          KidHolds(nodes, root, s, n);
          KidHolds(nodes, root, t, n);
          HoldsUnique(nodes, root + [n], s.kids[n], t.kids[n]);
        }
      }
      assert s.kids == t.kids;
    }
  }

  lemma KidLookup(t: Tree, n: string, p: Path)
    ensures Lookup(t, [n] + p) == if t.Dir? && n in t.kids then Lookup(t.kids[n], p) else None
  {
    assert ([n] + p)[1..] == p;
    assert [n] + [] == [n];
  }

  lemma KidHolds(nodes: Nodes, root: Path, t: Tree, n: string)
    requires Holds(nodes, root, t) && t.Dir? && n in t.kids
    ensures Holds(nodes, root + [n], t.kids[n])
  {
    forall p: Path ensures HoldsAt(nodes, root + [n], t.kids[n], p) {
      assert HoldsAt(nodes, root, t, [n] + p);
      assert root + ([n] + p) == root + [n] + p;
      KidLookup(t, n, p);
    }
  }

  // ----- The round trip

  lemma {:induction false} MkdirAllLaw(nodes: Nodes, p: Path, mode: nat)
    requires MkdirAll(nodes, p, mode).Some?
    ensures var up := MkdirAll(nodes, p, mode).value;
            DirsTo(up, p)
            && (forall q :: q in nodes ==> q in up && up[q] == nodes[q])
            && (forall q :: q in up && q !in nodes ==> q <= p && up[q] == DirNode(mode))
  {
    if p != [] {
      var k := |p| - 1;
      MkdirAllLaw(nodes, p[..k], mode);
      var up := MkdirAll(nodes, p, mode).value;
      forall j | 0 < j <= |p| ensures p[..j] in up && up[p[..j]].DirNode? {
        if j == |p| {
          assert p[..j] == p;
        } else {
          assert p[..k][..j] == p[..j];
        }
      }
      forall q | q in up && q !in nodes ensures q <= p && up[q] == DirNode(mode) {
        assert q == p || q <= p[..k];
      }
    }
  }

  /** What unpackGit leaves when nothing fails: the target directory, then every entry. */
  function Unpacked(nodes: Nodes, target: Path, entries: seq<Entry>): Option<Nodes> {
    match MkdirAll(nodes, target, DIR_MODE)
    case None => None
    case Some(up) => UnpackAll(up, target, entries)
  }

  /**
   * Unpack after pack: in a place that is free, the archive of any tree becomes that tree with
   * normalized modes, empty directories included, and nothing that existed before changes.
   */
  lemma UnpackRestores(nodes: Nodes, target: Path, d: Tree)
    requires d.Dir? && ValidTree(d) && target != [] && ValidPath(target) && Vacant(nodes, target)
    requires MkdirAll(nodes, target, DIR_MODE).Some?
    ensures var r := Unpacked(nodes, target, Pack(d, ""));
            r.Some? && Holds(r.value, target, Normalized(d))
            && forall q :: q in nodes ==> q in r.value && r.value[q] == nodes[q]
  {
    var up := MkdirAll(nodes, target, DIR_MODE).value;
    TargetMade(nodes, target, up);
    UnpackTop(up, target, d);
    HoldsUnpacked(up, target, d);
    BesideTarget(nodes, target, d);
  }

  lemma UnpackTop(up: Nodes, target: Path, d: Tree)
    requires d.Dir? && ValidTree(d) && ValidPath(target)
    requires DirsTo(up, target) && target in up && up[target] == DirNode(DIR_MODE)
    requires forall n :: Vacant(up, target + [] + [n])
    ensures UnpackAll(up, target, Pack(d, "")) == Some(up + FlatOne(d, target))
  {
    assert target + [] == target;
    UnpackDir(up, target, [], d);
    TopIsThere(up, target, d);
  }

  lemma TopIsThere(up: Nodes, target: Path, d: Tree)
    requires d.Dir? && target in up && up[target] == DirNode(DIR_MODE)
    ensures up + Flat(d, target) == up + FlatOne(d, target)
  {
  }

  lemma BesideTarget(nodes: Nodes, target: Path, d: Tree)
    requires Vacant(nodes, target)
    ensures forall q :: q in nodes ==> q !in FlatOne(d, target)
  {
    forall q | q in nodes && q in FlatOne(d, target) ensures false {
      FlatBelow(d, target, q);
    }
  }

  lemma TargetMade(nodes: Nodes, target: Path, up: Nodes)
    requires target != [] && Vacant(nodes, target) && MkdirAll(nodes, target, DIR_MODE) == Some(up)
    ensures DirsTo(up, target) && target in up && up[target] == DirNode(DIR_MODE)
    ensures forall q :: q in up && target <= q ==> q == target
    ensures forall n :: Vacant(up, target + [] + [n])
    ensures forall q :: q in nodes ==> q in up && up[q] == nodes[q]
  {
    MkdirAllLaw(nodes, target, DIR_MODE);
    assert target[..|target|] == target && target !in nodes;
    forall n, q | q in up ensures !(target + [] + [n] <= q) {
      assert target <= target + [] + [n];
      assert target + [] + [n] <= q ==> target <= q && |q| > |target|;
    }
  }

  lemma HoldsUnpacked(up: Nodes, target: Path, d: Tree)
    requires d.Dir? && target in up && up[target] == DirNode(DIR_MODE)
    requires forall q :: q in up && target <= q ==> q == target
    ensures Holds(up + FlatOne(d, target), target, Normalized(d))
  {
    forall p: Path ensures HoldsAt(up + FlatOne(d, target), target, Normalized(d), p) {
      FlatHolds(d, target, p);
      assert target <= target + p;
      if p == [] {
        assert target + p == target;
      } else {
        assert target + p != target;
      }
    }
  }

  /** Pack after unpack after pack is pack: whatever tree the place now holds packs to the same entries. */
  lemma PackUnpackPack(nodes: Nodes, target: Path, d: Tree, found: Tree)
    requires d.Dir? && ValidTree(d) && target != [] && ValidPath(target) && Vacant(nodes, target)
    requires MkdirAll(nodes, target, DIR_MODE).Some?
    requires Unpacked(nodes, target, Pack(d, "")).Some? ==> Holds(Unpacked(nodes, target, Pack(d, "")).value, target, found)
    ensures found.Dir? && Pack(found, "") == Pack(d, "")
  {
    UnpackRestores(nodes, target, d);
    HoldsUnique(Unpacked(nodes, target, Pack(d, "")).value, target, found, Normalized(d));
    PackNormalized(d, "");
  }

  // ----- unpackGit

  class FileSystem {
    var nodes: Nodes
    /** How often a system call or the archive stream has failed by itself. */
    ghost var faults: nat

    constructor (nodes: Nodes)
      ensures this.nodes == nodes
    {
      this.nodes := nodes;
    }

    method Fails() returns (b: bool)
      modifies this`faults
      ensures faults == old(faults) + (if b then 1 else 0)
    {
      b := *;
      if b {
        faults := faults + 1;
      }
    }

    method MakeDirs(p: Path, mode: nat) returns (ok: bool)
      modifies this
      ensures ok ==> MkdirAll(old(nodes), p, mode) == Some(nodes)
      ensures nodes == old(nodes) || MkdirAll(old(nodes), p, mode) == Some(nodes)
      ensures faults >= old(faults) && (ok ==> faults == old(faults))
      ensures !ok && faults == old(faults) ==> MkdirAll(old(nodes), p, mode) == None
    {
      var r := MkdirAll(nodes, p, mode);
      var fails := Fails();
      ok := !fails && r.Some?;
      if r.Some? {
        nodes := r.value;
      }
    }

    /** Open, copy, close; a failed copy leaves part of the data. */
    method Store(p: Path, mode: nat, data: Bytes) returns (ok: bool)
      modifies this
      ensures ok ==> WriteFile(old(nodes), p, mode, data) == Some(nodes)
      ensures faults >= old(faults) && (ok ==> faults == old(faults))
      ensures !ok && faults == old(faults) ==> WriteFile(old(nodes), p, mode, data) == None
    {
      var breaks := Fails();
      var n: nat :| n <= |data|;
      var r := WriteFile(nodes, p, mode, if breaks then data[..n] else data);
      ok := !breaks && r.Some?;
      if r.Some? {
        nodes := r.value;
      }
    }

    method RemoveAll(p: Path)
      modifies this`nodes
      ensures Vacant(nodes, p)
      ensures forall q :: q in nodes <==> q in old(nodes) && !(p <= q)
      ensures forall q :: q in nodes ==> nodes[q] == old(nodes)[q]
    {
      nodes := map q | q in nodes && !(p <= q) :: nodes[q];
    }

    method UnpackOneEntry(target: Path, entry: Entry) returns (ok: bool)
      modifies this
      ensures ok ==> UnpackEntry(old(nodes), target, entry) == Some(nodes)
      ensures faults >= old(faults) && (ok ==> faults == old(faults))
      ensures !ok && faults == old(faults) ==> UnpackEntry(old(nodes), target, entry) == None
    {
      var p := JoinPath(target, entry.name);
      match entry
      case DirEntry(_, mode) =>
        ok := MakeDirs(p, mode);
      case FileEntry(_, mode, _, data) =>
        ok := MakeDirs(Parent(p), DIR_MODE);
        if ok {
          ok := Store(p, mode, data);
        }
    }

    /**
     * Success leaves exactly what the entries say. A failure after the target directory was made
     * removes it with everything under it, so a half-unpacked repository is never served.
     */
    method UnpackGit(target: Path, archive: Option<seq<Entry>>) returns (ok: bool)
      modifies this
      ensures ok ==> archive.Some? && Unpacked(old(nodes), target, archive.value) == Some(nodes)
      ensures archive.None? ==> nodes == old(nodes)
      ensures !ok && archive.Some? ==>
                Vacant(nodes, target) || nodes == old(nodes) || MkdirAll(old(nodes), target, DIR_MODE) == Some(nodes)
      ensures archive.Some? ==> (ok <==> faults == old(faults) && Unpacked(old(nodes), target, archive.value).Some?)
    {
      if archive.None? {
        return false;
      }
      ok := MakeDirs(target, DIR_MODE);
      if !ok {
        return;
      }
      ghost var start := nodes;
      var entries := archive.value;
      while entries != []
        invariant UnpackAll(nodes, target, entries) == UnpackAll(start, target, archive.value)
        invariant faults == old(faults)
        decreases |entries|
      {
        var unreadable := Fails();
        if !unreadable {
          ok := UnpackOneEntry(target, entries[0]);
        }
        if unreadable || !ok {
          RemoveAll(target);
          return false;
        }
        entries := entries[1..];
      }
      ok := true;
    }
  }
}
