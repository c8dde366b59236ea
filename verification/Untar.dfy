/** Unpacking an archive: where files go, how they are listed, and the cap on their size. */
module Untar {
  import opened Paths

  datatype Kind = Directory | Regular | OtherKind

  /** One entry of the archive. `fails` says that the file system refuses an operation on it. */
  datatype Entry = Entry(name: string, kind: Kind, data: string, fails: bool)

  datatype FileEntry = FileEntry(path: string, size: nat)

  datatype ExtractedRepo = ExtractedRepo(rootDir: string, files: seq<FileEntry>)

  datatype Result = Unpacked(repo: ExtractedRepo) | BadPath | Outside | IoError | TooLarge | ReadError

  /** The first segment of a path. */
  function FirstSegment(p: string): string {
    Split(p)[0]
  }

  /** `p[:i]` for the first slash at `i`. */
  method FirstSegmentByIndex(p: string) returns (r: string)
    ensures r == FirstSegment(p)
  {
    var i := 0;
    while i < |p| && p[i] != '/'
      invariant i <= |p| && '/' !in p[..i]
    {
      i := i + 1;
    }
    r := p[..i];
    SplitSegment(p[..i]);
    if i < |p| {
      SplitConcat(p[..i], p[i + 1..]);
      assert p == p[..i] + ("/" + p[i + 1..]);
    } else {
      assert p[..i] == p;
    }
  }

  /** The path below the top directory; empty for the top directory itself, unchanged for paths elsewhere. */
  function RelToTop(name: string, top: string): string {
    if top == "" then name
    else if name == top then ""
    else if top + "/" <= name then name[|top| + 1..]
    else name
  }

  /** The bytes the copy of one file writes: `io.LimitReader` stops after `remaining + 1`, and after 1 at the least. */
  function Copied(size: nat, remaining: int): nat {
    var limit := if remaining + 1 < 1 then 1 else remaining + 1;
    if size < limit then size else limit
  }

  function RegularBytes(entries: seq<Entry>): nat {
    if entries == [] then 0
    else RegularBytes(entries[..|entries| - 1]) + if entries[|entries| - 1].kind.Regular? then |entries[|entries| - 1].data| else 0
  }

  function ListedBytes(files: seq<FileEntry>): nat {
    if files == [] then 0 else ListedBytes(files[..|files| - 1]) + files[|files| - 1].size
  }

  /** The file system refuses an operation the unpacker makes for this entry; others are skipped. */
  predicate Fails(e: Entry) {
    e.fails && !e.kind.OtherKind?
  }

  /** The archive has no entry the unpacker refuses and no operation fails. */
  ghost predicate Sound(entries: seq<Entry>) {
    forall e | e in entries :: !Climbs(Clean(e.name)) && !Fails(e)
  }

  ghost predicate StaysInside(entries: seq<Entry>, dest: string) {
    forall e | e in entries :: Inside(Join(dest, Clean(e.name)), dest)
  }

  /** How one regular entry is listed, if at all. */
  function Listing(e: Entry, top: string): seq<FileEntry> {
    var rel := RelToTop(Clean(e.name), top);
    if e.kind.Regular? && rel != "" then [FileEntry(rel, |e.data|)] else []
  }

  function Listings(entries: seq<Entry>, top: string): seq<FileEntry> {
    if entries == [] then [] else Listings(entries[..|entries| - 1], top) + Listing(entries[|entries| - 1], top)
  }

  function TopDir(entries: seq<Entry>): string {
    if entries == [] then "" else FirstSegment(Clean(entries[0].name))
  }

  function RootDir(dest: string, top: string): string {
    if top == "" then dest else Join(dest, top)
  }

  lemma {:induction false} RegularBytesGrow(entries: seq<Entry>, n: nat)
    requires n <= |entries|
    ensures RegularBytes(entries[..n]) <= RegularBytes(entries)
    decreases |entries|
  {
    if n < |entries| {
      RegularBytesGrow(entries[..|entries| - 1], n);
      assert entries[..|entries| - 1][..n] == entries[..n];
    } else {
      assert entries[..n] == entries;
    }
  }

  lemma {:induction false} ListedAtMostRegular(entries: seq<Entry>, top: string)
    ensures ListedBytes(Listings(entries, top)) <= RegularBytes(entries)
  {
    if entries != [] {
      var front := entries[..|entries| - 1];
      ListedAtMostRegular(front, top);
      var listing := Listing(entries[|entries| - 1], top);
      if listing != [] {
        assert (Listings(front, top) + listing)[..|Listings(front, top)|] == Listings(front, top);
      } else {
        assert Listings(front, top) + listing == Listings(front, top);
      }
    }
  }

  ghost predicate NoRegular(entries: seq<Entry>) {
    forall e | e in entries :: !e.kind.Regular?
  }

  /** Where the regular entries go, in order. */
  function Targets(entries: seq<Entry>, dest: string): seq<string> {
    if entries == [] then []
    else Targets(entries[..|entries| - 1], dest) +
         if entries[|entries| - 1].kind.Regular? then [Join(dest, Clean(entries[|entries| - 1].name))] else []
  }

  /** The files by path. */
  type Disk = map<string, string>

  /** The disk after writing the regular entries, the later over the earlier. */
  function DiskOf(entries: seq<Entry>, dest: string): Disk {
    if entries == [] then map[]
    else
      var e := entries[|entries| - 1];
      var before := DiskOf(entries[..|entries| - 1], dest);
      if e.kind.Regular? then before[Join(dest, Clean(e.name)) := e.data] else before
  }

  /** A cleaned path is never empty, and its first segment is not either unless the path is absolute. */
  lemma FirstSegmentNonEmpty(name: string)
    requires !Climbs(Clean(name))
    ensures FirstSegment(Clean(name)) != ""
  {
    CleanedName(name);
    var segments := Segments(name);
    if segments == [] {
      SplitSegment(".");
    } else {
      assert segments[0] in segments;
      SplitJoined(segments);
    }
  }

  /** The second guard never fires: what passes the first one lands under the destination. */
  lemma TargetInside(dest: seq<string>, name: string)
    requires dest != [] && AreNames(dest) && !Climbs(Clean(name))
    ensures AreNames(Segments(name)) && Join(Dir(dest), Clean(name)) == Dir(dest + Segments(name))
    ensures Inside(Join(Dir(dest), Clean(name)), Dir(dest))
  {
    CleanedName(name);
    CleanDir(dest);
    var segments := Segments(name);
    if segments == [] {
      assert dest + segments == dest;
    } else {
      JoinSegmentsNonEmpty(segments);
      DirConcat(dest, segments);
    }
    JoinNames(dest, Clean(name), segments);
  }

  /** The guard on the target. */
  predicate Inside(target: string, dest: string) {
    Clean(dest) + "/" <= target || target == Clean(dest)
  }

  lemma {:induction false} JoinConcat(a: seq<string>, b: seq<string>)
    requires a != [] && b != []
    ensures JoinSegments(a + b) == JoinSegments(a) + ("/" + JoinSegments(b))
  {
    assert (a + b)[1..] == a[1..] + b;
    if |a| == 1 {
      assert a[1..] + b == b;
    } else {
      JoinConcat(a[1..], b);
      var rest := "/" + JoinSegments(b);
      assert a[0] + ("/" + (JoinSegments(a[1..]) + rest)) == (a[0] + ("/" + JoinSegments(a[1..]))) + rest;
    }
  }

  lemma DirConcat(a: seq<string>, b: seq<string>)
    requires a != [] && b != []
    ensures Dir(a + b) == Dir(a) + ("/" + JoinSegments(b))
  {
    JoinConcat(a, b);
  }

  lemma NoneYet(entries: seq<Entry>, dest: string)
    ensures RegularBytes(entries[..0]) == 0 && NoRegular(entries[..0])
    ensures Targets(entries[..0], dest) == [] && DiskOf(entries[..0], dest) == map[] && TopDir(entries[..0]) == ""
    ensures forall top :: Listings(entries[..0], top) == []
  {
  }

  /** What one more entry adds to the sums and lists of the loop. */
  lemma OneMore(entries: seq<Entry>, i: nat, dest: string, top: string)
    requires i < |entries|
    ensures var e := entries[i];
      RegularBytes(entries[..i + 1]) == RegularBytes(entries[..i]) + (if e.kind.Regular? then |e.data| else 0) &&
      (NoRegular(entries[..i + 1]) <==> NoRegular(entries[..i]) && !e.kind.Regular?) &&
      Listings(entries[..i + 1], top) == Listings(entries[..i], top) + Listing(e, top) &&
      Targets(entries[..i + 1], dest) == Targets(entries[..i], dest) + (if e.kind.Regular? then [Join(dest, Clean(e.name))] else []) &&
      DiskOf(entries[..i + 1], dest) ==
      (if e.kind.Regular? then DiskOf(entries[..i], dest)[Join(dest, Clean(e.name)) := e.data] else DiskOf(entries[..i], dest))
    ensures TopDir(entries[..i + 1]) == if i == 0 then FirstSegment(Clean(entries[0].name)) else TopDir(entries[..i])
    ensures RegularBytes(entries[..i + 1]) <= RegularBytes(entries)
    ensures Sound(entries[..i + 1]) <==> Sound(entries[..i]) && !Climbs(Clean(entries[i].name)) && !Fails(entries[i])
  {
    assert entries[..i + 1][..i] == entries[..i];
    assert entries[..i + 1] == entries[..i] + [entries[i]];
    RegularBytesGrow(entries, i + 1);
  }

  /** Unpacks under `dest`. `corrupt` says that reading the archive fails after these entries;
      `copied` counts the bytes written to files, `written` are the targets of the regular entries in order,
      `disk` is what completed copies have left on an empty disk. */
  method Untar(entries: seq<Entry>, corrupt: bool, dest: string, cap: int)
    returns (r: Result, copied: nat, written: seq<string>, disk: Disk)
    ensures copied <= (if cap < 0 then 0 else cap) + 1
    ensures r.Unpacked? ==> Sound(entries) && StaysInside(entries, dest) && !corrupt && copied == RegularBytes(entries)
    ensures r.Unpacked? ==> r.repo == ExtractedRepo(RootDir(dest, TopDir(entries)), Listings(entries, TopDir(entries)))
    ensures r.Unpacked? ==> ListedBytes(r.repo.files) <= copied && (copied <= cap || NoRegular(entries))
    ensures r.Unpacked? ==> written == Targets(entries, dest) && disk == DiskOf(entries, dest)
    // Without a path or I/O error, the size alone decides.
    ensures Sound(entries) && StaysInside(entries, dest) && !corrupt && 0 <= cap ==>
      (r.Unpacked? <==> RegularBytes(entries) <= cap) && (r.TooLarge? <==> cap < RegularBytes(entries))
    ensures r.BadPath? ==> exists e | e in entries :: Climbs(Clean(e.name))
    ensures r.Outside? ==> exists e | e in entries :: !Climbs(Clean(e.name)) && !Inside(Join(dest, Clean(e.name)), dest)
    ensures r.IoError? ==> exists e | e in entries :: Fails(e)
    ensures r.TooLarge? ==> cap < RegularBytes(entries)
    ensures r.ReadError? ==> corrupt
  {
    hide Clean, Join, Inside, Climbs, FirstSegment, RelToTop, RootDir;
    hide RegularBytes, NoRegular, Listings, Targets, TopDir, ListedBytes, DiskOf;
    NoneYet(entries, dest);
    var total: nat, topDir, files := 0, "", [];
    copied, written, disk := 0, [], map[];
    for i := 0 to |entries|
      invariant total == copied == RegularBytes(entries[..i]) && Sound(entries[..i])
      invariant forall k: nat | k < i :: Inside(Join(dest, Clean(entries[k].name)), dest)
      invariant topDir == TopDir(entries[..i]) && files == Listings(entries[..i], topDir)
      invariant written == Targets(entries[..i], dest) && disk == DiskOf(entries[..i], dest)
      invariant i > 0 ==> topDir != ""
      invariant total <= cap || NoRegular(entries[..i])
      invariant NoRegular(entries[..i]) ==> total == 0
    {
      var e := entries[i];
      var cleanName := Clean(e.name);
      if Climbs(cleanName) {
        return BadPath, copied, written, disk;
      }
      FirstSegmentNonEmpty(e.name);
      if topDir == "" {
        topDir := FirstSegmentByIndex(cleanName);
      }
      OneMore(entries, i, dest, topDir);
      var target := Join(dest, cleanName);
      if !Inside(target, dest) {
        return Outside, copied, written, disk;
      }
      if e.kind.Directory? && e.fails {
        return IoError, copied, written, disk;
      } else if e.kind.Regular? {
        var n := Copied(|e.data|, cap - total);
        if e.fails {
          var part: nat :| part <= n;
          return IoError, copied + part, written, disk;
        }
        total, copied, written, disk := total + n, copied + n, written + [target], disk[target := e.data[..n]];
        if total > cap {
          return TooLarge, copied, written, disk;
        }
        assert e.data[..n] == e.data;
        var rel := RelToTop(cleanName, topDir);
        if rel != "" {
          files := files + [FileEntry(rel, n)];
        }
      }
    }
    assert entries[..|entries|] == entries;
    if corrupt {
      return ReadError, copied, written, disk;
    }
    ListedAtMostRegular(entries, topDir);
    r := Unpacked(ExtractedRepo(RootDir(dest, topDir), files));
  }

  /** A path that is `.` or a row of names. */
  function Row(names: seq<string>): string {
    if names == [] then "." else JoinSegments(names)
  }

  lemma FirstOfRow(names: seq<string>)
    requires AreNames(names)
    ensures FirstSegment(Row(names)) == if names == [] then "." else names[0]
  {
    if names == [] {
      SplitSegment(".");
    } else {
      SplitJoined(names);
    }
  }

  /** The path relative to the top directory, in terms of names. */
  lemma RelOfRow(names: seq<string>, top: string)
    requires AreNames(names) && (top == "." || IsName(top))
    ensures RelToTop(Row(names), top) ==
      if FirstSegment(Row(names)) != top then Row(names)
      else if |names| <= 1 then "" else JoinSegments(names[1..])
  {
    hide Split;
    var row := Row(names);
    FirstOfRow(names);
    if top + "/" <= row {
      var rest := row[|top| + 1..];
      assert row == top + ("/" + rest);
      SplitSegment(top);
      SplitConcat(top, rest);
    }
    if |names| > 1 {
      assert names[0] in names;
      var rest := JoinSegments(names[1..]);
      assert row == names[0] + ("/" + rest) == (names[0] + "/") + rest;
      assert row[|names[0]| + 1..] == rest;
      assert row != names[0];
    }
  }

  /** The names of an entry lead below the top directory: to it, or to something in it. */
  predicate UnderTop(first: Entry, e: Entry) {
    Segments(first.name) != [] && Segments(e.name) != [] && Segments(e.name)[0] == Segments(first.name)[0]
  }

  /** How an entry is listed, in terms of names: a regular one without the top directory if it lies in it,
      under its whole name if it does not. Only an entry that is itself the top directory is not listed. */
  lemma ListingOfNames(first: Entry, e: Entry)
    requires !Climbs(Clean(first.name)) && !Climbs(Clean(e.name))
    ensures var names := Segments(e.name);
      Listing(e, FirstSegment(Clean(first.name))) ==
        if !e.kind.Regular? then []
        else if UnderTop(first, e) then
          if |names| == 1 then [] else [FileEntry(JoinSegments(names[1..]), |e.data|)]
        else if names == [] then
          if Segments(first.name) == [] then [] else [FileEntry(".", |e.data|)]
        else [FileEntry(JoinSegments(names), |e.data|)]
  {
    hide Clean, Climbs, Segments, Split, JoinSegments, RelToTop, FirstSegment;
    CleanedName(first.name);
    CleanedName(e.name);
    var names, tops := Segments(e.name), Segments(first.name);
    FirstOfRow(names);
    FirstOfRow(tops);
    assert (tops != [] ==> tops[0] in tops) && (names != [] ==> names[0] in names);
    RelOfRow(names, FirstSegment(Clean(first.name)));
    if names != [] {
      JoinSegmentsNonEmpty(names);
      if |names| > 1 {
        assert forall s | s in names[1..] :: s in names;
        JoinSegmentsNonEmpty(names[1..]);
      }
    }
  }

  /** Entry `i` appears in the listing: it is a regular one and not itself the top directory. */
  predicate IsListed(entries: seq<Entry>, first: Entry, i: nat) {
    i < |entries| && entries[i].kind == Regular &&
    Segments(entries[i].name) != if Segments(first.name) == [] then [] else [Segments(first.name)[0]]
  }

  /** The listing is complete: it shows, in the order of the archive, exactly the regular entries that are not
      themselves the top directory, each by its names below it and with its size. */
  lemma {:induction false} ListingsAreComplete(entries: seq<Entry>, n: nat, first: Entry) returns (ps: seq<nat>)
    requires n <= |entries| && !Climbs(Clean(first.name)) && forall e | e in entries :: !Climbs(Clean(e.name))
    ensures forall j: nat, k: nat | j < k < |ps| :: ps[j] < ps[k]
    ensures forall i: nat :: i in ps <==> i < n && IsListed(entries, first, i)
    ensures var files := Listings(entries[..n], FirstSegment(Clean(first.name)));
      |files| == |ps| && forall k: nat | k < |ps| ::
        ps[k] < n && files[k] == FileEntry(ListedName(first, entries[ps[k]]), |entries[ps[k]].data|)
  {
    hide Clean, Climbs, Segments, JoinSegments, FirstSegment, Listing, Listings, ListedName, IsListed;
    var top := FirstSegment(Clean(first.name));
    ps := [];
    if n == 0 {
      NoneYet(entries, "");
    } else {
      ps := ListingsAreComplete(entries, n - 1, first);
      assert forall k: nat | k < |ps| :: ps[k] in ps;
      assert entries[..n][..n - 1] == entries[..n - 1];
      ListingsStep(entries, n - 1, top);
      EntryListing(entries, first, n - 1);
      if IsListed(entries, first, n - 1) {
        ps := ps + [n - 1];
      }
    }
  }

  lemma ListingsStep(entries: seq<Entry>, i: nat, top: string)
    requires i < |entries|
    ensures Listings(entries[..i + 1], top) == Listings(entries[..i], top) + Listing(entries[i], top)
  {
    hide Listing;
    assert entries[..i + 1][..i] == entries[..i];
  }

  /** An entry's names below the top directory if it lies in it, all of them if it does not. */
  function ListedName(first: Entry, e: Entry): string {
    var names := Segments(e.name);
    if UnderTop(first, e) then JoinSegments(names[1..]) else if names == [] then "." else JoinSegments(names)
  }

  lemma EntryListing(entries: seq<Entry>, first: Entry, i: nat)
    requires i < |entries| && !Climbs(Clean(first.name)) && !Climbs(Clean(entries[i].name))
    ensures Listing(entries[i], FirstSegment(Clean(first.name))) ==
      if IsListed(entries, first, i) then [FileEntry(ListedName(first, entries[i]), |entries[i].data|)] else []
  {
    hide Clean, Climbs, Segments, JoinSegments, FirstSegment, Listing;
    ListingOfNames(first, entries[i]);
  }

  /** The sums are sums: they add up over parts of an archive or a listing. */
  lemma {:induction false} BytesAddUp(a: seq<Entry>, b: seq<Entry>)
    ensures RegularBytes(a + b) == RegularBytes(a) + RegularBytes(b)
    ensures |b| == 1 ==> RegularBytes(b) == if b[0].kind == Regular then |b[0].data| else 0
  {
    if b == [] {
      assert a + b == a;
    } else {
      assert (a + b)[..|a + b| - 1] == a + b[..|b| - 1];
      BytesAddUp(a, b[..|b| - 1]);
    }
  }

  lemma {:induction false} ListedBytesAddUp(a: seq<FileEntry>, b: seq<FileEntry>)
    ensures ListedBytes(a + b) == ListedBytes(a) + ListedBytes(b)
    ensures |b| == 1 ==> ListedBytes(b) == b[0].size
  {
    if b == [] {
      assert a + b == a;
    } else {
      assert (a + b)[..|a + b| - 1] == a + b[..|b| - 1];
      ListedBytesAddUp(a, b[..|b| - 1]);
    }
  }

  lemma TargetsStep(dest: seq<string>, entries: seq<Entry>, i: nat)
    requires i < |entries| && dest != [] && AreNames(dest) && !Climbs(Clean(entries[i].name))
    ensures Targets(entries[..i + 1], Dir(dest)) == Targets(entries[..i], Dir(dest)) +
      if entries[i].kind.Regular? then [Dir(dest + Segments(entries[i].name))] else []
  {
    hide Clean, Climbs, Segments, Join, Dir;
    TargetInside(dest, entries[i].name);
    assert entries[..i + 1][..i] == entries[..i];
  }

  /** Written are exactly the regular entries, in their order, each below the destination by its names. */
  lemma {:induction false} TargetsAreRegular(dest: seq<string>, entries: seq<Entry>, n: nat) returns (ps: seq<nat>)
    requires n <= |entries| && dest != [] && AreNames(dest) && forall e | e in entries :: !Climbs(Clean(e.name))
    ensures forall j: nat, k: nat | j < k < |ps| :: ps[j] < ps[k]
    ensures forall i: nat :: i in ps <==> i < n && entries[i].kind == Regular
    ensures |Targets(entries[..n], Dir(dest))| == |ps|
    ensures forall k: nat | k < |ps| ::
      ps[k] < n && Targets(entries[..n], Dir(dest))[k] == Dir(dest + Segments(entries[ps[k]].name))
  {
    hide Clean, Climbs, Segments, Join, Dir, Targets, AreNames;
    ps := [];
    if n == 0 {
      NoneYet(entries, Dir(dest));
    } else {
      ps := TargetsAreRegular(dest, entries, n - 1);
      assert forall k: nat | k < |ps| :: ps[k] in ps;
      TargetsStep(dest, entries, n - 1);
      if entries[n - 1].kind.Regular? {
        ps := ps + [n - 1];
      }
    }
  }

  /** A listed file is found under the root directory exactly when the recorded top directory is its own,
      or the archive has none. */
  lemma ListedWhereWritten(dest: seq<string>, first: Entry, e: Entry)
    requires dest != [] && AreNames(dest) && !Climbs(Clean(first.name)) && !Climbs(Clean(e.name))
    requires Listing(e, FirstSegment(Clean(first.name))) != []
    ensures var top := FirstSegment(Clean(first.name));
      (Join(RootDir(Dir(dest), top), Listing(e, top)[0].path) == Join(Dir(dest), Clean(e.name))
       <==> top == "." || FirstSegment(Clean(e.name)) == top)
  {
    hide Clean, Climbs, Segments, JoinSegments, Split, Dir, Join;
    var top := FirstSegment(Clean(first.name));
    CleanedName(first.name);
    FirstOfRow(Segments(first.name));
    CleanedName(e.name);
    var names := Segments(e.name);
    FirstOfRow(names);
    RelOfRow(names, top);
    TargetInside(dest, e.name);
    assert names != [] ==> names[0] in names && IsName(names[0]);
    if top == "." {
      JoinNames(dest, ".", []);
      assert dest + [] == dest;
      assert Listing(e, top)[0].path == Clean(e.name);
    } else {
      JoinSegmentsOne(top);
      JoinNames(dest, top, [top]);
      var root := dest + [top];
      if FirstSegment(Clean(e.name)) == top {
        JoinSegmentsNonEmpty(names[1..]);
        assert forall s | s in names[1..] :: s in names;
        JoinNames(root, JoinSegments(names[1..]), names[1..]);
        assert root + names[1..] == dest + names;
      } else {
        JoinNames(root, Clean(e.name), names);
        DirInjective(root + names, dest + names);
      }
    }
  }

  lemma JoinSegmentsOne(s: string)
    ensures JoinSegments([s]) == s
  {
  }

  lemma DirInjective(a: seq<string>, b: seq<string>)
    requires a != [] && b != [] && AreNames(a) && AreNames(b)
    ensures Dir(a) == Dir(b) ==> a == b
  {
    if Dir(a) == Dir(b) {
      assert Dir(a)[1..] == JoinSegments(a) && Dir(b)[1..] == JoinSegments(b);
      JoinSegmentsInjective(a, b);
    }
  }

  /** The archive has one top directory, its first entry of any kind included. */
  ghost predicate HasOneTop(entries: seq<Entry>) {
    forall e | e in entries && e.kind.Regular? :: FirstSegment(Clean(e.name)) == TopDir(entries)
  }

  /** Where the first entry of any kind and all regular entries lie under one top directory, every listed file is found. */
  lemma OneTopDirectory(dest: seq<string>, entries: seq<Entry>, i: nat)
    requires dest != [] && AreNames(dest) && Sound(entries) && i < |entries| && Listing(entries[i], TopDir(entries)) != []
    requires HasOneTop(entries)
    ensures Join(RootDir(Dir(dest), TopDir(entries)), Listing(entries[i], TopDir(entries))[0].path) ==
            Join(Dir(dest), Clean(entries[i].name))
  {
    assert entries[0] in entries && entries[i] in entries;
    ListedWhereWritten(dest, entries[0], entries[i]);
  }

  /** Entry `i` is the last to be written to its target. */
  ghost predicate WrittenLast(entries: seq<Entry>, dest: string, i: nat) {
    i < |entries| && entries[i].kind.Regular? &&
    forall k: nat | i < k < |entries| && entries[k].kind.Regular? ::
      Join(dest, Clean(entries[k].name)) != Join(dest, Clean(entries[i].name))
  }

  lemma {:induction false} LastWrite(entries: seq<Entry>, dest: string, i: nat) returns (j: nat)
    requires i < |entries| && entries[i].kind.Regular?
    ensures WrittenLast(entries, dest, j) && Join(dest, Clean(entries[j].name)) == Join(dest, Clean(entries[i].name))
    decreases |entries| - i
  {
    hide Join, Clean;
    j := i;
    if !WrittenLast(entries, dest, i) {
      var k: nat :| i < k < |entries| && entries[k].kind.Regular? && Join(dest, Clean(entries[k].name)) == Join(dest, Clean(entries[i].name));
      j := LastWrite(entries, dest, k);
    }
  }

  lemma {:induction false} DiskHoldsLast(entries: seq<Entry>, dest: string, i: nat)
    requires WrittenLast(entries, dest, i)
    ensures var target := Join(dest, Clean(entries[i].name));
      target in DiskOf(entries, dest) && DiskOf(entries, dest)[target] == entries[i].data
    decreases |entries|
  {
    hide Join, Clean;
    var n := |entries| - 1;
    if i < n {
      assert entries[..n][i] == entries[i];
      DiskHoldsLast(entries[..n], dest, i);
    }
  }

  /** Nothing else is on the disk. */
  lemma {:induction false} DiskHoldsEntries(entries: seq<Entry>, dest: string, path: string)
    ensures path in DiskOf(entries, dest) <==>
            exists i: nat :: i < |entries| && entries[i].kind.Regular? && Join(dest, Clean(entries[i].name)) == path
  {
    hide Join, Clean;
    if entries != [] {
      var n := |entries| - 1;
      DiskHoldsEntries(entries[..n], dest, path);
      if i: nat :| i < n && entries[i].kind.Regular? && Join(dest, Clean(entries[i].name)) == path {
        assert entries[..n][i] == entries[i];
      }
    }
  }

  lemma {:induction false} ListedFrom(entries: seq<Entry>, top: string, f: FileEntry) returns (i: nat)
    requires f in Listings(entries, top)
    ensures i < |entries| && Listing(entries[i], top) == [f]
  {
    hide RelToTop, Clean;
    var n := |entries| - 1;
    if f in Listing(entries[n], top) {
      i := n;
    } else {
      i := ListedFrom(entries[..n], top, f);
    }
  }

  /** Names with one target are one name after cleaning. */
  lemma OneTargetOneName(dest: seq<string>, a: string, b: string)
    requires dest != [] && AreNames(dest) && !Climbs(Clean(a)) && !Climbs(Clean(b))
    requires Join(Dir(dest), Clean(a)) == Join(Dir(dest), Clean(b))
    ensures Clean(a) == Clean(b)
  {
    hide Clean, Climbs, Segments, Dir, Join, JoinSegments;
    TargetInside(dest, a);
    TargetInside(dest, b);
    CleanedName(a);
    CleanedName(b);
    DirInjective(dest + Segments(a), dest + Segments(b));
    assert (dest + Segments(a))[|dest|..] == Segments(a) && (dest + Segments(b))[|dest|..] == Segments(b);
  }

  /** Under one top directory, reading a listed file yields the bytes of the entry written last under its path. */
  lemma ListedFileOnDisk(dest: seq<string>, entries: seq<Entry>, f: FileEntry) returns (j: nat)
    requires dest != [] && AreNames(dest) && Sound(entries) && HasOneTop(entries) && f in Listings(entries, TopDir(entries))
    ensures j < |entries| && WrittenLast(entries, Dir(dest), j)
    ensures Listing(entries[j], TopDir(entries)) == [FileEntry(f.path, |entries[j].data|)]
    ensures var path := Join(RootDir(Dir(dest), TopDir(entries)), f.path);
      path in DiskOf(entries, Dir(dest)) && DiskOf(entries, Dir(dest))[path] == entries[j].data
  {
    hide Clean, Join, Dir, Climbs, FirstSegment, RelToTop, RootDir;
    var i := ListedFrom(entries, TopDir(entries), f);
    OneTopDirectory(dest, entries, i);
    j := LastWrite(entries, Dir(dest), i);
    DiskHoldsLast(entries, Dir(dest), j);
    assert entries[i] in entries && entries[j] in entries;
    OneTargetOneName(dest, entries[i].name, entries[j].name);
  }

  /** An extension header in front is recorded as the top directory, and a file that is not under its name is not found. */
  lemma ExtensionHeaderMisleads(dest: seq<string>, data: string)
    requires dest != [] && AreNames(dest)
    ensures var header := Entry("pax_global_header", OtherKind, "", false);
      var file := Entry("r/f", Regular, data, false);
      var top := TopDir([header, file]);
      Listing(file, top) == [FileEntry("r/f", |data|)] &&
      Join(RootDir(Dir(dest), top), "r/f") != Join(Dir(dest), "r/f")
  {
    hide Clean, Climbs, Segments, Split, Dir, Join, RelToTop;
    var header := Entry("pax_global_header", OtherKind, "", false);
    var file := Entry("r/f", Regular, data, false);
    var names := ["r", "f"];
    JoinSegmentsOne("pax_global_header");
    PlainName("pax_global_header", ["pax_global_header"]);
    assert names[1..] == ["f"];
    JoinSegmentsOne("f");
    assert "r" + ("/" + "f") == "r/f";
    PlainName("r/f", names);
    FirstOfRow(["pax_global_header"]);
    FirstOfRow(names);
    RelOfRow(names, "pax_global_header");
    ListedWhereWritten(dest, header, file);
  }

  /** A row of names is clean. */
  lemma PlainName(p: string, names: seq<string>)
    requires names != [] && AreNames(names) && JoinSegments(names) == p
    ensures Clean(p) == p && Segments(p) == names && !Climbs(p)
  {
    SplitJoined(names);
    assert names[0] in names && names[0] != "";
    assert p[0] == names[0][0];
    NormalizeNames(false, [], names);
    assert [] + names == names;
    if "../" <= p {
      assert p == ".." + ("/" + p[3..]);
      SplitSegment("..");
      SplitConcat("..", p[3..]);
    }
    if p == ".." {
      SplitSegment("..");
    }
  }
}
