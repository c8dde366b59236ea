/** Choosing the files a story is told from. */
module SourceFiles {
  import opened Paths
  import opened Sorting
  import opened Untar

  const MAX_SELECTED_FILES := 6

  const SOURCE_EXTENSIONS := {
    ".go", ".py", ".js", ".ts", ".tsx", ".jsx", ".java", ".rb", ".rs", ".c", ".cc", ".cpp",
    ".h", ".hpp", ".cs", ".php", ".kt", ".swift", ".scala", ".sh", ".sql"}

  const ENTRY_POINT_BASES := {"main", "index", "app", "server", "cmd"}

  const EXCLUDED_DIRS := {
    ".git", "node_modules", "vendor", "dist", "build", ".next", "target", "__pycache__", ".venv", "venv"}

  function ToLower(s: string): string {
    seq(|s|, i requires 0 <= i < |s| => if 'A' <= s[i] <= 'Z' then s[i] - 'A' + 'a' else s[i])
  }

  function TrimTrailing(p: string): string {
    if p != "" && p[|p| - 1] == '/' then TrimTrailing(p[..|p| - 1]) else p
  }

  /** `filepath.Base`. */
  function Base(p: string): string {
    if p == "" then "."
    else
      var trimmed := TrimTrailing(p);
      if trimmed == "" then "/" else Split(trimmed)[|Split(trimmed)| - 1]
  }

  /** `filepath.Ext`: from the last dot of the last segment. */
  function Ext(p: string): string {
    if p == "" || p[|p| - 1] == '/' then ""
    else if p[|p| - 1] == '.' then "."
    else
      var front := Ext(p[..|p| - 1]);
      if front == "" then "" else front + [p[|p| - 1]]
  }

  function TrimSuffix(s: string, suffix: string): string {
    if |suffix| <= |s| && s[|s| - |suffix|..] == suffix then s[..|s| - |suffix|] else s
  }

  function Depth(p: string): nat {
    |Split(p)| - 1
  }

  predicate IsExcluded(p: string) {
    exists s :: s in Split(p) && s in EXCLUDED_DIRS
  }

  function ScoreFile(p: string): int {
    var ext := ToLower(Ext(p));
    if ext !in SOURCE_EXTENSIONS then -1
    else 10 + (if ToLower(TrimSuffix(Base(p), ext)) in ENTRY_POINT_BASES then 100 else 0) - Depth(p)
  }

  predicate Eligible(f: FileEntry, readme: string) {
    f.path != readme && !IsExcluded(f.path) && ScoreFile(f.path) >= 0
  }

  /** A candidate; `pos` is its place in the listing, which a stable sort respects without looking at it. */
  datatype Candidate = Candidate(entry: FileEntry, score: int, pos: nat)

  /** The comparison handed to the sort: score descending, size ascending. */
  const NotAfter: (Candidate, Candidate) -> bool :=
    (a: Candidate, b: Candidate) => a.score > b.score || (a.score == b.score && a.entry.size <= b.entry.size)

  /** The full order: score descending, size ascending, input order. */
  predicate Ahead(a: Candidate, b: Candidate) {
    a.score > b.score || (a.score == b.score &&
    (a.entry.size < b.entry.size || (a.entry.size == b.entry.size && a.pos < b.pos)))
  }

  function Candidates(files: seq<FileEntry>, readme: string, n: nat): seq<Candidate>
    requires n <= |files|
  {
    if n == 0 then []
    else Candidates(files, readme, n - 1) +
         if Eligible(files[n - 1], readme) then [Candidate(files[n - 1], ScoreFile(files[n - 1].path), n - 1)] else []
  }

  function Top(files: seq<FileEntry>, readme: string): seq<Candidate> {
    var sorted := SortStable(NotAfter, Candidates(files, readme, |files|));
    if |sorted| < MAX_SELECTED_FILES then sorted else sorted[..MAX_SELECTED_FILES]
  }

  method SelectSourceFiles(files: seq<FileEntry>, readme: string) returns (chosen: seq<FileEntry>)
    ensures |chosen| == |Top(files, readme)| && forall i: nat | i < |chosen| :: chosen[i] == Top(files, readme)[i].entry
  {
    var candidates := [];
    for i := 0 to |files|
      invariant candidates == Candidates(files, readme, i)
    {
      if files[i].path == readme || IsExcluded(files[i].path) {
        continue;
      }
      var score := ScoreFile(files[i].path);
      if score < 0 {
        continue;
      }
      candidates := candidates + [Candidate(files[i], score, i)];
    }
    candidates := SortStable(NotAfter, candidates);
    var limit := MAX_SELECTED_FILES;
    if limit > |candidates| {
      limit := |candidates|;
    }
    chosen := [];
    for i := 0 to limit
      invariant |chosen| == i && forall k: nat | k < i :: chosen[k] == candidates[k].entry
    {
      chosen := chosen + [candidates[i].entry];
    }
  }

  /** The candidates are the eligible files, each at its place, in input order. */
  lemma {:induction false} CandidatesAre(files: seq<FileEntry>, readme: string, n: nat)
    requires n <= |files|
    ensures var cs := Candidates(files, readme, n);
      (forall c | c in cs :: c.pos < n && c.entry == files[c.pos] && c.score == ScoreFile(c.entry.path) && Eligible(c.entry, readme)) &&
      (forall i: nat | i < n && Eligible(files[i], readme) :: Candidate(files[i], ScoreFile(files[i].path), i) in cs) &&
      (forall i: nat, j: nat | i < j < |cs| :: cs[i].pos < cs[j].pos)
  {
    hide ScoreFile, Eligible;
    if n > 0 {
      CandidatesAre(files, readme, n - 1);
    }
  }

  ghost predicate InOrder(cs: seq<Candidate>) {
    forall i: nat, j: nat | i < j < |cs| :: Ahead(cs[i], cs[j])
  }

  lemma {:induction false} InsertInOrder(x: Candidate, cs: seq<Candidate>)
    requires InOrder(cs) && forall c | c in cs :: x.pos < c.pos
    ensures InOrder(Insert(NotAfter, x, cs))
  {
    if cs != [] && !NotAfter(x, cs[0]) {
      InsertInOrder(x, cs[1..]);
      InsertKeeps(NotAfter, x, cs[1..]);
      var r := Insert(NotAfter, x, cs[1..]);
      forall j: nat | j < |r|
        ensures Ahead(cs[0], r[j])
      {
        assert r[j] in multiset(r);
        assert r[j] in cs[1..] || r[j] == x;
      }
    } else if cs != [] {
      forall j: nat | j < |cs|
        ensures Ahead(x, cs[j])
      {
        assert cs[j] in cs;
        assert j > 0 ==> Ahead(cs[0], cs[j]);
      }
    }
  }

  /** The stable sort on score and size is the sort on score, size and place. */
  lemma {:induction false} StableIsInOrder(cs: seq<Candidate>)
    requires forall i: nat, j: nat | i < j < |cs| :: cs[i].pos < cs[j].pos
    ensures InOrder(SortStable(NotAfter, cs))
  {
    if cs != [] {
      StableIsInOrder(cs[1..]);
      SortKeeps(NotAfter, cs[1..]);
      forall c | c in SortStable(NotAfter, cs[1..])
        ensures cs[0].pos < c.pos
      {
        SameElements(SortStable(NotAfter, cs[1..]), cs[1..], c);
      }
      InsertInOrder(cs[0], SortStable(NotAfter, cs[1..]));
    }
  }

  lemma PlacesDiffer(files: seq<FileEntry>, cs: seq<Candidate>)
    requires InOrder(cs) && forall c | c in cs :: c.pos < |files| && c.entry == files[c.pos] && c.score == ScoreFile(c.entry.path)
    ensures forall i: nat, j: nat | i < j < |cs| :: cs[i].pos != cs[j].pos
  {
    hide ScoreFile;
    forall i: nat, j: nat | i < j < |cs|
      ensures cs[i].pos != cs[j].pos
    {
      assert Ahead(cs[i], cs[j]) && cs[i] in cs && cs[j] in cs;
    }
  }

  lemma SortedCandidates(files: seq<FileEntry>, readme: string)
    ensures var sorted := SortStable(NotAfter, Candidates(files, readme, |files|));
      InOrder(sorted) && forall c :: c in sorted <==> c in Candidates(files, readme, |files|)
  {
    hide ScoreFile, Eligible, Candidates, InOrder;
    var cs := Candidates(files, readme, |files|);
    CandidatesAre(files, readme, |files|);
    StableIsInOrder(cs);
    SortKeeps(NotAfter, cs);
    forall c
      ensures c in SortStable(NotAfter, cs) <==> c in cs
    {
      SameElements(SortStable(NotAfter, cs), cs, c);
    }
  }

  /** The chosen files are the first six (or all) of the eligible ones under the full order:
      in order, each at its own place in the listing, and ahead of every eligible file left out. */
  lemma TopIsBest(files: seq<FileEntry>, readme: string)
    ensures var top := Top(files, readme);
      InOrder(top) && |top| <= MAX_SELECTED_FILES &&
      (forall c | c in top :: c.pos < |files| && c.entry == files[c.pos] && c.score == ScoreFile(c.entry.path) && Eligible(c.entry, readme)) &&
      (forall i: nat, j: nat | i < j < |top| :: top[i].pos != top[j].pos) &&
      (forall i: nat | i < |files| && Eligible(files[i], readme) ::
        var c := Candidate(files[i], ScoreFile(files[i].path), i);
        c in top || (|top| == MAX_SELECTED_FILES && forall t | t in top :: Ahead(t, c)))
  {
    hide ScoreFile, Eligible, SortStable, Candidates;
    var sorted := SortStable(NotAfter, Candidates(files, readme, |files|));
    var top := Top(files, readme);
    CandidatesAre(files, readme, |files|);
    SortedCandidates(files, readme);
    PlacesDiffer(files, top);
    forall i: nat | i < |files| && Eligible(files[i], readme)
      ensures var c := Candidate(files[i], ScoreFile(files[i].path), i);
        c in top || (|top| == MAX_SELECTED_FILES && forall t | t in top :: Ahead(t, c))
    {
      var c := Candidate(files[i], ScoreFile(files[i].path), i);
      assert c in sorted;
      var k: nat :| k < |sorted| && sorted[k] == c;
      if k < |top| {
        assert top[k] == c;
      }
    }
  }

  /** The choice, by places in the listing (`ps`) and from the files alone: neither the README nor a file in an
      excluded directory nor one that is no source; by score descending, size ascending, place ascending;
      and nothing left out that could have been chosen is before anything chosen. */
  lemma ChosenAreBest(files: seq<FileEntry>, readme: string) returns (ps: seq<nat>)
    ensures |ps| == |Top(files, readme)| <= 6
    ensures forall k: nat | k < |ps| :: ps[k] < |files| && Top(files, readme)[k].entry == files[ps[k]]
    ensures forall k: nat | k < |ps| ::
      files[ps[k]].path != readme && ScoreFile(files[ps[k]].path) >= 0 && forall s | s in Split(files[ps[k]].path) :: s !in EXCLUDED_DIRS
    ensures forall j: nat, k: nat | j < k < |ps| ::
      var x, y := ScoreFile(files[ps[j]].path), ScoreFile(files[ps[k]].path);
      x > y || (x == y && (files[ps[j]].size < files[ps[k]].size || (files[ps[j]].size == files[ps[k]].size && ps[j] < ps[k])))
    ensures forall i: nat | i < |files| && i !in ps && files[i].path != readme && ScoreFile(files[i].path) >= 0 &&
                            (forall s | s in Split(files[i].path) :: s !in EXCLUDED_DIRS) ::
      |ps| == 6 && forall k: nat | k < 6 ::
        var x, y := ScoreFile(files[ps[k]].path), ScoreFile(files[i].path);
        x > y || (x == y && (files[ps[k]].size < files[i].size || (files[ps[k]].size == files[i].size && ps[k] < i)))
  {
    hide ScoreFile, Split, Top;
    var top := Top(files, readme);
    TopIsBest(files, readme);
    ps := seq(|top|, k requires 0 <= k < |top| => top[k].pos);
    assert forall k: nat | k < |ps| :: top[k] in top && ps[k] == top[k].pos && ps[k] in ps;
  }

  /** The depth is the number of slashes. */
  lemma {:induction false} DepthCountsSlashes(p: string)
    ensures Depth(p) == multiset(p)['/']
  {
    if p != "" {
      DepthCountsSlashes(p[1..]);
      assert p == [p[0]] + p[1..];
    }
  }

  lemma LowerMeans(s: string)
    ensures |ToLower(s)| == |s|
    ensures forall i: nat | i < |s| ::
      ToLower(s)[i] as int == s[i] as int + if 'A' <= s[i] <= 'Z' then 32 else 0
  {
  }

  /** The base name is the last name. */
  lemma BaseMeans(names: seq<string>)
    requires names != [] && AreNames(names)
    ensures Base(JoinSegments(names)) == names[|names| - 1]
    ensures Split(JoinSegments(names)) == names
  {
    hide JoinSegments, Split;
    SplitJoined(names);
    LastCharacter(names);
  }

  lemma LastCharacter(names: seq<string>)
    requires names != [] && AreNames(names)
    ensures var p, last := JoinSegments(names), names[|names| - 1];
      p != "" && last != "" && p[|p| - 1] == last[|last| - 1] != '/'
  {
    hide JoinSegments;
    var front := EndsInName(names);
    var last := names[|names| - 1];
    assert last in names && IsName(last);
    assert last[|last| - 1] in last;
    assert (front + last)[|front + last| - 1] == last[|last| - 1];
  }

  /** The extension starts at the last dot, if no slash follows it. */
  lemma {:induction false} ExtMeans(front: string, rest: string)
    requires forall c | c in rest :: c != '.' && c != '/'
    ensures Ext(front + ("." + rest)) == "." + rest
    decreases |rest|
  {
    var p := front + ("." + rest);
    if rest != "" {
      var n := |rest| - 1;
      assert p[..|p| - 1] == front + ("." + rest[..n]);
      assert p[|p| - 1] == rest[n] && rest[n] in rest;
      assert forall c | c in rest[..n] :: c in rest;
      ExtMeans(front, rest[..n]);
      assert "." + rest == ("." + rest[..n]) + [rest[n]];
    }
  }

  lemma {:induction false} NoExt(front: string, rest: string)
    requires (forall c | c in rest :: c != '.' && c != '/') && (front == "" || front[|front| - 1] == '/')
    ensures Ext(front + rest) == ""
    decreases |rest|
  {
    var p := front + rest;
    if rest != "" {
      var n := |rest| - 1;
      assert p[..|p| - 1] == front + rest[..n];
      assert p[|p| - 1] == rest[n] && rest[n] in rest;
      assert forall c | c in rest[..n] :: c in rest;
      NoExt(front, rest[..n]);
    }
  }

  /** A row of names ends in its last name, after a slash if there are others. */
  lemma {:induction false} EndsInName(names: seq<string>) returns (front: string)
    requires names != []
    ensures JoinSegments(names) == front + names[|names| - 1] && (front == "" || front[|front| - 1] == '/')
  {
    front := "";
    if |names| > 1 {
      var rest := EndsInName(names[1..]);
      front := names[0] + ("/" + rest);
      assert JoinSegments(names) == front + names[|names| - 1];
    }
  }

  /** The parts of a path that matter here, by its names. */
  lemma PartsOfPath(dirs: seq<string>, stem: string, rest: string)
    requires AreNames(dirs) && IsName(stem + ("." + rest)) && forall c | c in rest :: c != '.' && c != '/'
    ensures var p := JoinSegments(dirs + [stem + ("." + rest)]);
      Ext(p) == "." + rest && Base(p) == stem + ("." + rest) && Depth(p) == |dirs|
  {
    hide Split, JoinSegments, Base, Ext;
    var names := dirs + [stem + ("." + rest)];
    BaseMeans(names);
    var front := EndsInName(names);
    assert front + (stem + ("." + rest)) == (front + stem) + ("." + rest);
    ExtMeans(front + stem, rest);
  }

  lemma EntryPointsHaveNoDot(s: string)
    requires '.' in s
    ensures s !in ENTRY_POINT_BASES
  {
  }

  lemma NotAnEntryPoint(stem: string, ext: string)
    requires "." <= ext
    ensures ToLower(stem + ext) !in ENTRY_POINT_BASES
  {
    var name := stem + ext;
    LowerMeans(name);
    assert name[|stem|] == '.' && ToLower(name)[|stem|] == '.';
    EntryPointsHaveNoDot(ToLower(name));
  }

  /** What a file scores, by its names: `stem` and `rest` are its own name before and after the last dot, `dirs` the
      directories it is in. An extension in capitals counts, but not for an entry point. */
  lemma ScoreMeans(dirs: seq<string>, stem: string, rest: string)
    requires AreNames(dirs) && IsName(stem + ("." + rest)) && forall c | c in rest :: c != '.' && c != '/'
    ensures var ext := "." + rest;
      ScoreFile(JoinSegments(dirs + [stem + ext])) ==
        if ToLower(ext) !in SOURCE_EXTENSIONS then -1
        else 10 - |dirs| + if ToLower(ext) == ext && ToLower(stem) in ENTRY_POINT_BASES then 100 else 0
  {
    hide ToLower, JoinSegments, Base, Ext, Depth, TrimSuffix, AreNames, IsName;
    var ext := "." + rest;
    PartsOfPath(dirs, stem, rest);
    LowerMeans(ext);
    TrimMeans(stem, ext, ToLower(ext));
    NotAnEntryPoint(stem, ext);
  }

  lemma TrimMeans(stem: string, ext: string, lower: string)
    requires |lower| == |ext|
    ensures TrimSuffix(stem + ext, lower) == if lower == ext then stem else stem + ext
  {
    assert (stem + ext)[|stem|..] == ext && (stem + ext)[..|stem|] == stem;
  }

  /** A file that is a source, named as an entry point or not. */
  predicate IsSource(stem: string, rest: string, entryPoint: bool) {
    IsName(stem + ("." + rest)) && (forall c | c in rest :: c != '.' && c != '/') &&
    "." + rest in SOURCE_EXTENSIONS && ToLower("." + rest) == "." + rest &&
    (ToLower(stem) in {"main", "index", "app", "server", "cmd"} <==> entryPoint)
  }

  lemma SourceScores(dirs: seq<string>, stem: string, rest: string, entryPoint: bool)
    requires AreNames(dirs) && IsSource(stem, rest, entryPoint)
    ensures ScoreFile(JoinSegments(dirs + [stem + ("." + rest)])) == (if entryPoint then 110 else 10) - |dirs|
  {
    hide ToLower, JoinSegments, ScoreFile, AreNames, IsName;
    ScoreMeans(dirs, stem, rest);
  }

  /** Entry points come first, unless they lie a hundred directories or more below the others. */
  lemma EntryPointsFirst(dirs: seq<string>, stem: string, rest: string, others: seq<string>, name: string, ending: string)
    requires AreNames(dirs) && IsSource(stem, rest, true) && AreNames(others) && IsSource(name, ending, false)
    ensures ScoreFile(JoinSegments(dirs + [stem + ("." + rest)])) > ScoreFile(JoinSegments(others + [name + ("." + ending)]))
            <==> |dirs| < |others| + 100
  {
    hide JoinSegments, ScoreFile, AreNames, IsSource;
    SourceScores(dirs, stem, rest, true);
    SourceScores(others, name, ending, false);
  }

  /** A file in an excluded directory, or with the name of one, is never chosen. */
  lemma ExcludedNeverChosen(files: seq<FileEntry>, readme: string, names: seq<string>, dir: string, i: nat)
    requires AreNames(names) && dir in names && i < |Top(files, readme)|
    requires dir in {".git", "node_modules", "vendor", "dist", "build", ".next", "target", "__pycache__", ".venv", "venv"}
    ensures Top(files, readme)[i].entry.path != JoinSegments(names)
  {
    assert dir in EXCLUDED_DIRS;
    hide Top, JoinSegments, Split, ScoreFile;
    BaseMeans(names);
    var ps := ChosenAreBest(files, readme);
    assert files[ps[i]] == Top(files, readme)[i].entry;
  }

  /** A file without an extension is not a source. */
  lemma NoExtensionNoSource(dirs: seq<string>, name: string)
    requires AreNames(dirs) && IsName(name) && '.' !in name
    ensures ScoreFile(JoinSegments(dirs + [name])) == -1
  {
    hide Split, JoinSegments;
    var front := EndsInName(dirs + [name]);
    NoExt(front, name);
  }

  /** The search starts with this depth as the one to beat. */
  const UNBEATEN_DEPTH := 0x4000_0000

  predicate IsReadme(f: FileEntry) {
    "readme" <= ToLower(Base(f.path)) && Depth(f.path) < UNBEATEN_DEPTH
  }

  /** The place of the shallowest README among the first `n` files, the first of equals; `n` if there is none. */
  function ReadmePlace(files: seq<FileEntry>, n: nat): (r: nat)
    requires n <= |files|
    ensures r <= n
  {
    if n == 0 then 0
    else
      var before := ReadmePlace(files, n - 1);
      if IsReadme(files[n - 1]) && (before == n - 1 || Depth(files[n - 1].path) < Depth(files[before].path)) then n - 1
      else if before == n - 1 then n else before
  }

  method FindReadme(files: seq<FileEntry>) returns (best: string)
    ensures best == var r := ReadmePlace(files, |files|); if r < |files| then files[r].path else ""
  {
    hide Depth, Base, ToLower;
    best := "";
    var bestDepth: nat := UNBEATEN_DEPTH;
    for i := 0 to |files|
      invariant bestDepth <= UNBEATEN_DEPTH
      invariant var r := ReadmePlace(files, i);
        if r < i then best == files[r].path && bestDepth == Depth(files[r].path) else best == "" && bestDepth == UNBEATEN_DEPTH
    {
      if "readme" <= ToLower(Base(files[i].path)) {
        var depth := Depth(files[i].path);
        if depth < bestDepth {
          best, bestDepth := files[i].path, depth;
        }
      }
    }
  }

  lemma {:induction false} ReadmeIsShallowest(files: seq<FileEntry>, n: nat)
    requires n <= |files|
    ensures var r := ReadmePlace(files, n);
      (r == n <==> forall i: nat | i < n :: !IsReadme(files[i])) &&
      (r < n ==> IsReadme(files[r]) && forall i: nat | i < n && IsReadme(files[i]) ::
        Depth(files[r].path) < Depth(files[i].path) || (Depth(files[r].path) == Depth(files[i].path) && r <= i))
  {
    hide Depth, IsReadme;
    if n > 0 {
      ReadmeIsShallowest(files, n - 1);
    }
  }

  lemma LowerOfPrefix(s: string, n: nat)
    requires n <= |s|
    ensures ToLower(s)[..n] == ToLower(s[..n])
  {
  }

  /** What is a README, by its names. */
  lemma ReadmeMeans(dirs: seq<string>, name: string, size: nat)
    requires AreNames(dirs + [name]) && |dirs| < 0x4000_0000
    ensures IsReadme(FileEntry(JoinSegments(dirs + [name]), size)) <==> |name| >= 6 && ToLower(name[..6]) == "readme"
    ensures Depth(JoinSegments(dirs + [name])) == |dirs|
  {
    hide ToLower, Split, Base, JoinSegments, AreNames;
    BaseMeans(dirs + [name]);
    LowerMeans(name);
    if |name| >= 6 {
      LowerOfPrefix(name, 6);
    }
  }
}
