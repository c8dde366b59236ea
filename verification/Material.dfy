/** What the story generator is given: four sections under one byte budget, and the digest. */
module Material {
  import opened Paths
  import opened Sorting
  import opened Text
  import opened SourceFiles
  import opened Untar
  import opened Utf8

  const DIGEST_MAX_BYTES := 300 * 1024

  datatype Commit = Commit(message: string, date: string, author: string)

  /** The sections in the order of their priority. */
  datatype Sections = Sections(directoryTree: string, readme: string, commitLog: string, selectedFiles: string)

  /** A path that is missing on the disk cannot be read. */
  function ReadFileSafe(disk: Disk, path: string): string {
    if path in disk then disk[path] else ""
  }

  function Concat(parts: seq<string>): string {
    if parts == [] then "" else parts[0] + Concat(parts[1..])
  }

  function JoinWith(separator: string, parts: seq<string>): string {
    if parts == [] then ""
    else if |parts| == 1 then parts[0]
    else parts[0] + (separator + JoinWith(separator, parts[1..]))
  }

  function Total(parts: seq<string>): nat {
    if parts == [] then 0 else |parts[0]| + Total(parts[1..])
  }

  /** What is taken of `s` when `remaining` bytes are left. */
  function Taken(s: string, remaining: int): string {
    if remaining <= 0 then "" else Truncated(s, remaining)
  }

  /** Parts are served one after the other, each with what those before it have left. */
  function Greedy(parts: seq<string>, budget: int): seq<string> {
    if parts == [] then []
    else
      var taken := Taken(parts[0], budget);
      [taken] + Greedy(parts[1..], budget - |taken|)
  }

  /** The budget the sections share. */
  class Budget {
    var remaining: int

    constructor (maxBytes: int)
      ensures remaining == maxBytes
    {
      remaining := maxBytes;
    }

    method Take(s: string) returns (r: string)
      modifies this
      ensures r == Taken(s, old(remaining)) && remaining == old(remaining) - |r|
    {
      if remaining <= 0 {
        return "";
      }
      r := TruncateUTF8(s, remaining);
      remaining := remaining - |r|;
    }
  }

  function Block(path: string, content: string): string {
    "--- " + (path + (" ---\n" + (content + "\n\n")))
  }

  function Blocks(disk: Disk, root: string, chosen: seq<FileEntry>): seq<string> {
    seq(|chosen|, i requires 0 <= i < |chosen| => Block(chosen[i].path, ReadFileSafe(disk, Join(root, chosen[i].path))))
  }

  /** The text `b` shows the file: a line with its path, all of its bytes, an empty line. */
  predicate ShowsFile(b: string, path: string, data: string) {
    var n, m := |path|, |data|;
    |b| == n + m + 11 && b[..4] == "--- " && b[4..n + 4] == path && b[n + 4..n + 9] == " ---\n" &&
    b[n + 9..n + m + 9] == data && b[n + m + 9..] == "\n\n"
  }

  lemma BlockShowsFile(path: string, data: string)
    ensures ShowsFile(Block(path, data), path, data)
  {
    var tail := data + "\n\n";
    var rest := " ---\n" + tail;
    assert rest[5..] == tail;
    assert (path + rest)[|path|..] == rest;
  }

  method BuildSelectedFiles(disk: Disk, root: string, chosen: seq<FileEntry>, budget: int) returns (r: string)
    ensures r == Concat(Greedy(Blocks(disk, root, chosen), budget))
  {
    hide Truncated, Join, Greedy, Concat, Block;
    var blocks := Blocks(disk, root, chosen);
    var left := budget;
    r := "";
    for i := 0 to |chosen|
      invariant Concat(Greedy(blocks, budget)) == r + Concat(Greedy(blocks[i..], left))
    {
      if left <= 0 {
        NothingLeft(blocks[i..], left);
        assert r + "" == r;
        return;
      }
      var content := ReadFileSafe(disk, Join(root, chosen[i].path));
      var trimmed := TruncateUTF8(Block(chosen[i].path, content), left);
      GreedyStep(blocks[i..], left);
      assert blocks[i] == Block(chosen[i].path, content) && blocks[i..][1..] == blocks[i + 1..];
      assert r + (trimmed + Concat(Greedy(blocks[i + 1..], left - |trimmed|))) == (r + trimmed) + Concat(Greedy(blocks[i + 1..], left - |trimmed|));
      r := r + trimmed;
      left := left - |trimmed|;
    }
    NothingToServe(left);
    assert r + "" == r;
  }

  lemma NothingToServe(budget: int)
    ensures Concat(Greedy([], budget)) == ""
  {
  }

  lemma GreedyStep(parts: seq<string>, budget: int)
    requires parts != [] && budget > 0
    ensures Concat(Greedy(parts, budget)) ==
            Truncated(parts[0], budget) + Concat(Greedy(parts[1..], budget - |Truncated(parts[0], budget)|))
  {
    var taken := Taken(parts[0], budget);
    assert ([taken] + Greedy(parts[1..], budget - |taken|))[1..] == Greedy(parts[1..], budget - |taken|);
  }

  lemma {:induction false} NothingLeft(parts: seq<string>, budget: int)
    requires budget <= 0
    ensures Concat(Greedy(parts, budget)) == "" && Total(Greedy(parts, budget)) == 0
  {
    if parts != [] {
      NothingLeft(parts[1..], budget);
      assert Greedy(parts, budget)[1..] == Greedy(parts[1..], budget);
      assert "" + "" == "";
    }
  }

  /** For all bytes, the budget is kept. */
  lemma {:induction false} GreedyFits(parts: seq<string>, budget: int)
    ensures |Greedy(parts, budget)| == |parts|
    ensures Total(Greedy(parts, budget)) <= if budget < 0 then 0 else budget
  {
    if parts != [] {
      TruncatedFits(parts[0], budget);
      var taken := Taken(parts[0], budget);
      GreedyFits(parts[1..], budget - |taken|);
      assert Greedy(parts, budget)[1..] == Greedy(parts[1..], budget - |taken|);
    }
  }

  ghost predicate AllValid(parts: seq<string>) {
    forall s | s in parts :: Valid(s)
  }

  ghost predicate AllSpaced(parts: seq<string>) {
    forall s | s in parts :: Spaced(s)
  }

  lemma TextsAreSpaced(parts: seq<string>)
    requires AllValid(parts)
    ensures AllSpaced(parts)
  {
    forall s | s in parts
      ensures Spaced(s)
    {
      TextIsSpaced(s);
    }
  }

  /** Without long runs of tail bytes, as in text, the budget is used: all of it but three bytes, unless everything fits. */
  lemma {:induction false} GreedyUsesBudget(parts: seq<string>, budget: int)
    requires AllSpaced(parts) && budget >= 0
    ensures Total(Greedy(parts, budget)) == Total(parts) || budget - 3 <= Total(Greedy(parts, budget))
    ensures Total(Greedy(parts, budget)) <= Total(parts)
  {
    if parts != [] {
      hide Truncated, Spaced;
      if budget < |parts[0]| {
        SpacedFillsLimit(parts[0], budget);
      }
      TruncatedFits(parts[0], budget);
      GreedyUnfold(parts, budget);
      hide Greedy;
      var left := budget - |Taken(parts[0], budget)|;
      GreedyUsesBudget(parts[1..], left);
      GreedyFits(parts[1..], left);
    }
  }

  /** Likewise priority is kept: once a part is cut short, all later parts together get at most three bytes. */
  lemma {:induction false} GreedyKeepsPriority(parts: seq<string>, budget: int, i: nat)
    requires AllSpaced(parts) && budget >= 0 && i < |parts|
    requires |Greedy(parts, budget)| == |parts| && Greedy(parts, budget)[i] != parts[i]
    ensures Total(Greedy(parts, budget)[i + 1..]) <= 3
  {
    hide Truncated, Spaced;
    var taken := Taken(parts[0], budget);
    var rest := Greedy(parts[1..], budget - |taken|);
    if budget < |parts[0]| {
      SpacedFillsLimit(parts[0], budget);
    }
    TruncatedFits(parts[0], budget);
    GreedyFits(parts[1..], budget - |taken|);
    assert Greedy(parts, budget)[1..] == rest;
    if i > 0 {
      GreedyKeepsPriority(parts[1..], budget - |taken|, i - 1);
      assert Greedy(parts, budget)[i + 1..] == rest[i..];
    }
  }

  /** Every part of the result is text if the parts are. */
  lemma {:induction false} GreedyValid(parts: seq<string>, budget: int)
    requires AllValid(parts)
    ensures AllValid(Greedy(parts, budget))
  {
    if parts != [] {
      hide Truncated;
      var taken := Taken(parts[0], budget);
      if budget > 0 {
        TruncatedIsLongest(parts[0], budget);
      }
      GreedyValid(parts[1..], budget - |taken|);
    }
  }

  lemma {:induction false} TotalIsLength(parts: seq<string>)
    ensures |Concat(parts)| == Total(parts)
  {
    if parts != [] {
      TotalIsLength(parts[1..]);
    }
  }

  lemma {:induction false} ConcatValid(parts: seq<string>)
    requires AllValid(parts)
    ensures Valid(Concat(parts))
  {
    if parts != [] {
      ConcatValid(parts[1..]);
      ValidConcat(parts[0], Concat(parts[1..]));
    }
  }

  lemma GreedyUnfold(parts: seq<string>, budget: int)
    requires parts != []
    ensures var taken := Taken(parts[0], budget);
      var rest := Greedy(parts[1..], budget - |taken|);
      Greedy(parts, budget) == [taken] + rest && Total(Greedy(parts, budget)) == |taken| + Total(rest)
  {
    hide Taken;
    var taken := Taken(parts[0], budget);
    assert Greedy(parts, budget)[1..] == Greedy(parts[1..], budget - |taken|);
  }

  /** `buildTree`: the paths in byte order, one a line. */
  method BuildTree(files: seq<FileEntry>) returns (tree: string)
    ensures tree == Tree(files)
  {
    var paths: seq<string> := [];
    for i := 0 to |files|
      invariant paths == seq(i, k requires 0 <= k < i => files[k].path)
    {
      paths := paths + [files[i].path];
    }
    StringLePreorder();
    SortKeeps(StringLe, PathsOf(files));
    SortSorts(StringLe, PathsOf(files));
    var sorted := SortSlice(StringLe, paths);
    SortedIsUnique(StringLe, SortStable(StringLe, PathsOf(files)), sorted);
    tree := JoinWith("\n", sorted);
  }

  function PathsOf(files: seq<FileEntry>): seq<string> {
    seq(|files|, k requires 0 <= k < |files| => files[k].path)
  }

  function Tree(files: seq<FileEntry>): string {
    JoinWith("\n", SortStable(StringLe, PathsOf(files)))
  }

  /** The part of a message before its first line break. */
  function FirstLine(message: string): (r: string)
    ensures r <= message && '\n' !in r
    ensures |r| < |message| ==> message[|r|] == '\n'
  {
    if message == "" || message[0] == '\n' then "" else [message[0]] + FirstLine(message[1..])
  }

  function CommitLine(c: Commit): string {
    "- " + (c.date + (" " + (c.author + (": " + (FirstLine(c.message) + "\n")))))
  }

  function CommitLines(commits: seq<Commit>): seq<string> {
    seq(|commits|, i requires 0 <= i < |commits| => CommitLine(commits[i]))
  }

  function FormatCommits(commits: seq<Commit>): string {
    Concat(CommitLines(commits))
  }

  function Digest(tree: string, chosen: seq<FileEntry>): string {
    Truncated("# Directory tree\n" + (tree + ("\n\n# Selected files\n" + JoinWith("\n", PathsOf(chosen)))), DIGEST_MAX_BYTES)
  }

  /** All that could be said of the repository, most important first: tree, README, commit log, chosen files. */
  function Wishes(repo: ExtractedRepo, commits: seq<Commit>, disk: Disk, chosen: seq<FileEntry>): seq<string> {
    [Tree(repo.files), ReadmeText(repo, disk), FormatCommits(commits)] + Blocks(disk, repo.rootDir, chosen)
  }

  function ReadmePath(repo: ExtractedRepo): string {
    var r := ReadmePlace(repo.files, |repo.files|);
    if r < |repo.files| then repo.files[r].path else ""
  }

  function ReadmeText(repo: ExtractedRepo, disk: Disk): string {
    if ReadmePath(repo) == "" then "" else ReadFileSafe(disk, Join(repo.rootDir, ReadmePath(repo)))
  }

  method SelectMaterial(repo: ExtractedRepo, commits: seq<Commit>, disk: Disk, maxBytes: int)
    returns (material: Sections, digest: string, chosen: seq<FileEntry>)
    ensures var given := Greedy(Wishes(repo, commits, disk, chosen), maxBytes);
      |given| == 3 + |chosen| && material == Sections(given[0], given[1], given[2], Concat(given[3..]))
    ensures material.directoryTree == Truncated(Tree(repo.files), maxBytes)
    ensures material.readme == Truncated(ReadmeText(repo, disk), maxBytes - |material.directoryTree|)
    ensures material.commitLog == Truncated(FormatCommits(commits), maxBytes - |material.directoryTree| - |material.readme|)
    ensures material.selectedFiles == Concat(Greedy(Blocks(disk, repo.rootDir, chosen),
      maxBytes - |material.directoryTree| - |material.readme| - |material.commitLog|))
    ensures digest == Digest(Tree(repo.files), chosen)
    ensures |chosen| == |Top(repo.files, ReadmePath(repo))|
    ensures forall i: nat | i < |chosen| :: chosen[i] == Top(repo.files, ReadmePath(repo))[i].entry
  {
    hide Truncated, Taken, Greedy, Concat, Top, ReadmePlace, Join, Tree, FormatCommits, Blocks, Digest;
    var tree := BuildTree(repo.files);
    var readmePath := FindReadme(repo.files);
    chosen := SelectSourceFiles(repo.files, readmePath);
    var budget := new Budget(maxBytes);
    var directoryTree := budget.Take(tree);
    var readme := "";
    if readmePath != "" {
      readme := budget.Take(ReadFileSafe(disk, Join(repo.rootDir, readmePath)));
    }
    var commitLog := budget.Take(FormatCommits(commits));
    var left := budget.remaining;
    var built := BuildSelectedFiles(disk, repo.rootDir, chosen, left);
    OuterTakeIsIdle(Blocks(disk, repo.rootDir, chosen), left);
    var selectedFiles := budget.Take(built);
    material := Sections(directoryTree, readme, commitLog, selectedFiles);
    digest := Digest(tree, chosen);
    TakenOfNothing(maxBytes - |directoryTree|);
    TruncatedNothing(tree, maxBytes);
    TruncatedNothing(ReadmeText(repo, disk), maxBytes - |directoryTree|);
    TruncatedNothing(FormatCommits(commits), maxBytes - |directoryTree| - |readme|);
    ThreeSections(tree, ReadmeText(repo, disk), FormatCommits(commits), Blocks(disk, repo.rootDir, chosen), maxBytes);
    BlocksLength(disk, repo.rootDir, chosen);
    GreedyFits(Blocks(disk, repo.rootDir, chosen), left);
    assert Greedy(Wishes(repo, commits, disk, chosen), maxBytes)[3..] == Greedy(Blocks(disk, repo.rootDir, chosen), left);
  }

  /** From archive to material: under one top directory, every chosen block shows, under its path in the listing,
      the bytes of the entry written last under that path. */
  lemma ChosenBlocksHoldEntries(dest: seq<string>, entries: seq<Entry>, readme: string, chosen: seq<FileEntry>, i: nat)
    returns (j: nat)
    requires dest != [] && AreNames(dest) && Sound(entries) && HasOneTop(entries)
    requires var files := Listings(entries, TopDir(entries));
      |chosen| == |Top(files, readme)| && forall k: nat | k < |chosen| :: chosen[k] == Top(files, readme)[k].entry
    requires i < |chosen|
    ensures WrittenLast(entries, Dir(dest), j)
    ensures Listing(entries[j], TopDir(entries)) == [FileEntry(chosen[i].path, |entries[j].data|)]
    ensures var blocks := Blocks(DiskOf(entries, Dir(dest)), RootDir(Dir(dest), TopDir(entries)), chosen);
      |blocks| == |chosen| && ShowsFile(blocks[i], chosen[i].path, entries[j].data)
  {
    hide Clean, Join, Dir, Block, RootDir, Top, Listings, DiskOf, TopDir, Sound, HasOneTop, WrittenLast, ShowsFile;
    var files := Listings(entries, TopDir(entries));
    TopIsBest(files, readme);
    assert Top(files, readme)[i] in Top(files, readme);
    j := ListedFileOnDisk(dest, entries, chosen[i]);
    BlockShowsFile(chosen[i].path, entries[j].data);
  }

  lemma BlocksLength(disk: Disk, root: string, chosen: seq<FileEntry>)
    ensures |Blocks(disk, root, chosen)| == |chosen|
  {
  }

  /** The outer cut around the file blocks never cuts: the inner one has seen to it. */
  lemma OuterTakeIsIdle(blocks: seq<string>, left: int)
    ensures Taken(Concat(Greedy(blocks, left)), left) == Concat(Greedy(blocks, left))
  {
    GreedyFits(blocks, left);
    TotalIsLength(Greedy(blocks, left));
    if left <= 0 {
      NothingLeft(blocks, left);
    }
  }

  lemma GreedyCons(x: string, rest: seq<string>, budget: int)
    ensures Greedy([x] + rest, budget) == [Taken(x, budget)] + Greedy(rest, budget - |Taken(x, budget)|)
  {
    hide Taken;
    assert ([x] + rest)[1..] == rest;
  }

  lemma TakenOfNothing(budget: int)
    ensures Taken("", budget) == ""
  {
    TruncatedFits("", budget);
  }

  lemma ThreeSections(tree: string, readme: string, log: string, blocks: seq<string>, maxBytes: int)
    ensures var a := Taken(tree, maxBytes);
      var b := Taken(readme, maxBytes - |a|);
      var c := Taken(log, maxBytes - |a| - |b|);
      Greedy([tree, readme, log] + blocks, maxBytes) == [a, b, c] + Greedy(blocks, maxBytes - |a| - |b| - |c|)
  {
    hide Taken, Greedy;
    var a := Taken(tree, maxBytes);
    var b := Taken(readme, maxBytes - |a|);
    assert [tree, readme, log] + blocks == [tree] + ([readme] + ([log] + blocks));
    GreedyCons(tree, [readme] + ([log] + blocks), maxBytes);
    GreedyCons(readme, [log] + blocks, maxBytes - |a|);
    GreedyCons(log, blocks, maxBytes - |a| - |b|);
  }

  /** The bytes of the four sections together. */
  function Size(m: Sections): nat {
    |m.directoryTree| + |m.readme| + |m.commitLog| + |m.selectedFiles|
  }

  lemma SizeOfSections(given: seq<string>)
    requires |given| >= 3
    ensures Size(Sections(given[0], given[1], given[2], Concat(given[3..]))) == Total(given)
  {
    hide Concat;
    TotalIsLength(given[3..]);
    assert given[1..][1..] == given[2..] && given[2..][1..] == given[3..];
    assert Total(given[2..]) == |given[2]| + Total(given[3..]);
    assert Total(given[1..]) == |given[1]| + Total(given[2..]);
  }

  /** The budget is tight on both sides. */
  lemma BudgetIsTight(wishes: seq<string>, maxBytes: int)
    requires |wishes| >= 3
    ensures var given := Greedy(wishes, maxBytes);
      |given| == |wishes| &&
      var size := Size(Sections(given[0], given[1], given[2], Concat(given[3..])));
      size <= (if maxBytes < 0 then 0 else maxBytes) &&
      (AllSpaced(wishes) && maxBytes >= 0 ==> (if Total(wishes) < maxBytes - 3 then Total(wishes) else maxBytes - 3) <= size <= Total(wishes))
  {
    hide Taken;
    GreedyFits(wishes, maxBytes);
    SizeOfSections(Greedy(wishes, maxBytes));
    if AllSpaced(wishes) && maxBytes >= 0 {
      GreedyUsesBudget(wishes, maxBytes);
    }
  }

  /** Everything the material is made of is text. */
  ghost predicate IsText(repo: ExtractedRepo, commits: seq<Commit>, disk: Disk) {
    (forall f | f in repo.files :: Valid(f.path)) &&
    (forall path | path in disk :: Valid(disk[path])) &&
    (forall c | c in commits :: Valid(c.message) && Valid(c.date) && Valid(c.author))
  }

  lemma {:induction false} AsciiValid(s: string)
    requires forall c | c in s :: c as int < 0x80
    ensures Valid(s)
  {
    if s != [] {
      assert s[0] in s && CharLength(s) == 1;
      assert forall c | c in s[1..] :: c in s;
      AsciiValid(s[1..]);
    }
  }

  lemma {:induction false} JoinWithValid(parts: seq<string>)
    requires AllValid(parts)
    ensures Valid(JoinWith("\n", parts))
  {
    if |parts| > 1 {
      JoinWithValid(parts[1..]);
      AsciiValid("\n");
      ValidConcat("\n", JoinWith("\n", parts[1..]));
      ValidConcat(parts[0], "\n" + JoinWith("\n", parts[1..]));
    } else if |parts| == 1 {
      assert parts[0] in parts;
    }
  }

  lemma TreeValid(files: seq<FileEntry>)
    requires forall f | f in files :: Valid(f.path)
    ensures Valid(Tree(files))
  {
    var paths := PathsOf(files);
    SortKeeps(StringLe, paths);
    forall p | p in SortStable(StringLe, paths)
      ensures Valid(p)
    {
      SameElements(SortStable(StringLe, paths), paths, p);
      var i: nat :| i < |paths| && paths[i] == p;
      assert files[i] in files;
    }
    JoinWithValid(SortStable(StringLe, paths));
  }

  /** Cutting a message at its first line break cuts between characters. */
  lemma FirstLineValid(message: string)
    requires Valid(message)
    ensures Valid(FirstLine(message))
  {
    var r := FirstLine(message);
    CutBetweenCharacters(message, |r|);
    assert r == message[..|r|];
  }

  lemma CommitLineValid(c: Commit)
    requires Valid(c.message) && Valid(c.date) && Valid(c.author)
    ensures Valid(CommitLine(c))
  {
    hide Valid, FirstLine;
    FirstLineValid(c.message);
    AsciiValid("- ");
    AsciiValid(" ");
    AsciiValid(": ");
    AsciiValid("\n");
    var line := FirstLine(c.message) + "\n";
    ValidConcat(FirstLine(c.message), "\n");
    ValidConcat(": ", line);
    ValidConcat(c.author, ": " + line);
    ValidConcat(" ", c.author + (": " + line));
    ValidConcat(c.date, " " + (c.author + (": " + line)));
    ValidConcat("- ", c.date + (" " + (c.author + (": " + line))));
  }

  lemma BlockValid(path: string, content: string)
    requires Valid(path) && Valid(content)
    ensures Valid(Block(path, content))
  {
    hide Valid;
    AsciiValid("--- ");
    AsciiValid(" ---\n");
    AsciiValid("\n\n");
    ValidConcat(content, "\n\n");
    ValidConcat(" ---\n", content + "\n\n");
    ValidConcat(path, " ---\n" + (content + "\n\n"));
    ValidConcat("--- ", path + (" ---\n" + (content + "\n\n")));
  }

  lemma BlocksValid(disk: Disk, root: string, chosen: seq<FileEntry>)
    requires (forall f | f in chosen :: Valid(f.path)) && (forall path | path in disk :: Valid(disk[path]))
    ensures AllValid(Blocks(disk, root, chosen))
  {
    hide Join, Block;
    forall i: nat | i < |chosen|
      ensures Valid(Block(chosen[i].path, ReadFileSafe(disk, Join(root, chosen[i].path))))
    {
      assert chosen[i] in chosen;
      BlockValid(chosen[i].path, ReadFileSafe(disk, Join(root, chosen[i].path)));
    }
  }

  /** Made of text, all that is offered to the budget is text. */
  lemma WishesValid(repo: ExtractedRepo, commits: seq<Commit>, disk: Disk, chosen: seq<FileEntry>)
    requires IsText(repo, commits, disk) && forall f | f in chosen :: f in repo.files
    ensures AllValid(Wishes(repo, commits, disk, chosen))
  {
    hide Tree, CommitLine, Join, Blocks, ReadmePath;
    TreeValid(repo.files);
    forall i: nat | i < |commits|
      ensures Valid(CommitLine(commits[i]))
    {
      assert commits[i] in commits;
      CommitLineValid(commits[i]);
    }
    assert AllValid(CommitLines(commits));
    ConcatValid(CommitLines(commits));
    BlocksValid(disk, repo.rootDir, chosen);
  }

  /** The sections stay text, whatever the budget. */
  lemma SectionsValid(wishes: seq<string>, maxBytes: int)
    requires |wishes| >= 3 && AllValid(wishes)
    ensures var given := Greedy(wishes, maxBytes);
      |given| == |wishes| && Valid(given[0]) && Valid(given[1]) && Valid(given[2]) && Valid(Concat(given[3..]))
  {
    hide Valid;
    GreedyFits(wishes, maxBytes);
    GreedyValid(wishes, maxBytes);
    var given := Greedy(wishes, maxBytes);
    assert AllValid(given[3..]);
    ConcatValid(given[3..]);
  }

  /** From repository to material: for text, the sections are text and fill the budget up to three bytes,
      unless everything there is to say fits. */
  lemma MaterialOfText(repo: ExtractedRepo, commits: seq<Commit>, disk: Disk, chosen: seq<FileEntry>, maxBytes: nat)
    requires IsText(repo, commits, disk) && forall f | f in chosen :: f in repo.files
    ensures var wishes := Wishes(repo, commits, disk, chosen);
      var given := Greedy(wishes, maxBytes);
      |given| == |wishes| &&
      var m := Sections(given[0], given[1], given[2], Concat(given[3..]));
      Valid(m.directoryTree) && Valid(m.readme) && Valid(m.commitLog) && Valid(m.selectedFiles) &&
      (if Total(wishes) < maxBytes - 3 then Total(wishes) else maxBytes - 3) <= Size(m) <= maxBytes
  {
    var wishes := Wishes(repo, commits, disk, chosen);
    WishesValid(repo, commits, disk, chosen);
    hide Wishes, Greedy, Valid, Size;
    SectionsValid(wishes, maxBytes);
    TextsAreSpaced(wishes);
    BudgetIsTight(wishes, maxBytes);
  }

  /** The digest is at most its limit, and text if the paths are. */
  lemma DigestIsText(files: seq<FileEntry>, chosen: seq<FileEntry>)
    requires (forall f | f in files :: Valid(f.path)) && (forall f | f in chosen :: Valid(f.path))
    ensures Valid(Digest(Tree(files), chosen)) && |Digest(Tree(files), chosen)| <= DIGEST_MAX_BYTES
  {
    hide Valid, Tree, Truncated;
    TreeValid(files);
    AsciiValid("# Directory tree\n");
    AsciiValid("\n\n# Selected files\n");
    forall p | p in PathsOf(chosen)
      ensures Valid(p)
    {
      var i: nat :| i < |chosen| && PathsOf(chosen)[i] == p;
      assert chosen[i] in chosen;
    }
    JoinWithValid(PathsOf(chosen));
    var names := JoinWith("\n", PathsOf(chosen));
    hide JoinWith;
    ValidConcat("\n\n# Selected files\n", names);
    ValidConcat(Tree(files), "\n\n# Selected files\n" + names);
    ValidConcat("# Directory tree\n", Tree(files) + ("\n\n# Selected files\n" + names));
    TruncatedIsLongest("# Directory tree\n" + (Tree(files) + ("\n\n# Selected files\n" + names)), DIGEST_MAX_BYTES);
  }

  /** Concatenation keeps every part whole and in its place. */
  lemma {:induction false} ConcatSplits(a: seq<string>, b: seq<string>)
    ensures Concat(a + b) == Concat(a) + Concat(b)
    ensures |a| == 1 ==> Concat(a) == a[0]
  {
    if a == [] {
      assert a + b == b;
    } else {
      assert (a + b)[1..] == a[1..] + b;
      ConcatSplits(a[1..], b);
    }
  }

  lemma {:induction false} JoinWithSplits(separator: string, a: seq<string>, b: seq<string>)
    requires a != [] && b != []
    ensures JoinWith(separator, a + b) == JoinWith(separator, a) + separator + JoinWith(separator, b)
    ensures |a| == 1 ==> JoinWith(separator, a) == a[0]
  {
    assert (a + b)[1..] == a[1..] + b;
    if |a| > 1 {
      JoinWithSplits(separator, a[1..], b);
    } else {
      assert a[1..] + b == b;
    }
  }

  /** Every part gets the longest prefix that fits into what the parts before it have left. */
  lemma {:induction false} GreedyMeans(parts: seq<string>, budget: int, i: nat)
    requires i < |parts|
    ensures |Greedy(parts, budget)| == |parts|
    ensures Greedy(parts, budget)[i] == Truncated(parts[i], budget - |Concat(Greedy(parts, budget)[..i])|)
    ensures Greedy(parts, budget)[i] <= parts[i]
  {
    hide Truncated;
    GreedyFits(parts, budget);
    TruncatedNothing(parts[0], budget);
    var given := Greedy(parts, budget);
    var taken := Taken(parts[0], budget);
    assert given[1..] == Greedy(parts[1..], budget - |taken|);
    if i == 0 {
      TruncatedFits(parts[0], budget);
    } else {
      GreedyMeans(parts[1..], budget - |taken|, i - 1);
      assert given[..i][1..] == given[1..][..i - 1];
    }
  }

  lemma TruncatedNothing(s: string, budget: int)
    ensures Taken(s, budget) == Truncated(s, budget)
  {
  }

  /** The tree lists every path once per file, in byte order, a line each. */
  lemma TreeMeans(files: seq<FileEntry>) returns (lines: seq<string>)
    ensures Tree(files) == JoinWith("\n", lines)
    ensures multiset(lines) == multiset(seq(|files|, i requires 0 <= i < |files| => files[i].path))
    ensures forall i: nat, j: nat | i < j < |lines| :: !StrLess(lines[j], lines[i])
  {
    lines := SortStable(StringLe, PathsOf(files));
    StringLePreorder();
    SortKeeps(StringLe, PathsOf(files));
    SortSorts(StringLe, PathsOf(files));
    assert forall i: nat, j: nat | i < j < |lines| :: StringLe(lines[i], lines[j]);
  }

  /** A commit is one line: date, author and the message up to its first line break. */
  lemma CommitLineMeans(c: Commit) returns (m: nat)
    ensures m <= |c.message| && '\n' !in c.message[..m] && (m < |c.message| ==> c.message[m] == '\n')
    ensures var l, d, a := CommitLine(c), |c.date|, |c.author|;
      |l| == d + a + m + 6 && l[..2] == "- " && l[2..d + 2] == c.date && l[d + 2] == ' ' &&
      l[d + 3..d + a + 3] == c.author && l[d + a + 3..d + a + 5] == ": " &&
      l[d + a + 5..d + a + m + 5] == c.message[..m] && l[d + a + m + 5] == '\n'
  {
    var first := FirstLine(c.message);
    m := |first|;
    assert first == c.message[..m];
    hide FirstLine;
    CommitTail(c.author, first);
    var head, tail := "- " + (c.date + " "), c.author + (": " + (first + "\n"));
    var d, a := |c.date|, |c.author|;
    CommitHead(c.date);
    assert CommitLine(c) == head + tail;
    hide CommitLine;
    Cut(head, tail, 0, a);
    Cut(head, tail, a, a + 2);
    Cut(head, tail, a + 2, a + m + 2);
    Cut(head, tail, a + m + 2, a + m + 3);
    assert (head + tail)[..2] == head[..2] && (head + tail)[2..d + 2] == head[2..d + 2];
  }

  /** A slice of the second part. */
  lemma Cut(a: string, b: string, i: nat, j: nat)
    requires i <= j <= |b|
    ensures (a + b)[|a| + i..|a| + j] == b[i..j]
  {
  }

  lemma CommitHead(date: string)
    ensures var h, d := "- " + (date + " "), |date|; |h| == d + 3 && h[..2] == "- " && h[2..d + 2] == date && h[d + 2] == ' '
  {
  }

  lemma CommitTail(author: string, first: string)
    ensures var t, a, m := author + (": " + (first + "\n")), |author|, |first|;
      |t| == a + m + 3 && t[..a] == author && t[a..a + 2] == ": " && t[a + 2..a + m + 2] == first && t[a + m + 2] == '\n'
  {
    var rest := first + "\n";
    assert (author + (": " + rest))[|author|..] == ": " + rest;
    assert (": " + rest)[2..] == rest;
  }

  /** The commits follow one another. */
  lemma FormatCommitsSplits(a: seq<Commit>, b: seq<Commit>)
    ensures FormatCommits(a + b) == FormatCommits(a) + FormatCommits(b)
    ensures |a| == 1 ==> FormatCommits(a) == CommitLine(a[0])
  {
    hide CommitLine;
    assert CommitLines(a + b) == CommitLines(a) + CommitLines(b);
    ConcatSplits(CommitLines(a), CommitLines(b));
  }

  /** The digest shows the tree and the paths of the chosen files, all of it if that is at most 300 KiB. */
  lemma DigestMeans(tree: string, chosen: seq<FileEntry>) returns (full: string)
    ensures var names := JoinWith("\n", seq(|chosen|, i requires 0 <= i < |chosen| => chosen[i].path));
      |full| == |tree| + |names| + 36 && full[..17] == "# Directory tree\n" && full[17..|tree| + 17] == tree &&
      full[|tree| + 17..|tree| + 36] == "\n\n# Selected files\n" && full[|tree| + 36..] == names
    ensures Digest(tree, chosen) <= full
    ensures |full| <= 307200 ==> Digest(tree, chosen) == full
  {
    hide JoinWith, Truncated;
    var names := JoinWith("\n", PathsOf(chosen));
    var head, tail := "# Directory tree\n" + tree, "\n\n# Selected files\n" + names;
    full := head + tail;
    assert full == "# Directory tree\n" + (tree + tail);
    assert full[..17] == head[..17] && full[17..|tree| + 17] == head[17..];
    Cut(head, tail, 0, 19);
    Cut(head, tail, 19, |tail|);
    TruncatedFits(full, DIGEST_MAX_BYTES);
  }

  /** The README section is about the shallowest README, the first of equals; without one, or if it cannot be read, it is empty. */
  lemma ReadmeTextMeans(repo: ExtractedRepo, disk: Disk) returns (r: nat)
    ensures r <= |repo.files|
    ensures r == |repo.files| <==> forall i: nat | i < |repo.files| :: !IsReadme(repo.files[i])
    ensures r < |repo.files| ==>
      IsReadme(repo.files[r]) && forall i: nat | i < |repo.files| && IsReadme(repo.files[i]) ::
        Depth(repo.files[r].path) < Depth(repo.files[i].path) || (Depth(repo.files[r].path) == Depth(repo.files[i].path) && r <= i)
    ensures ReadmeText(repo, disk) ==
      if r < |repo.files| && Join(repo.rootDir, repo.files[r].path) in disk then disk[Join(repo.rootDir, repo.files[r].path)] else ""
  {
    r := ReadmePlace(repo.files, |repo.files|);
    ReadmeIsShallowest(repo.files, |repo.files|);
    if r < |repo.files| {
      ReadmeHasName(repo.files[r]);
    }
  }

  lemma ReadmeHasName(f: FileEntry)
    requires IsReadme(f)
    ensures f.path != ""
  {
    if f.path == "" {
      LowerMeans(".");
      assert false;
    }
  }

  /** From archive to material: under one top directory, the README section starts with the bytes of a README. */
  lemma ReadmeHoldsEntry(dest: seq<string>, entries: seq<Entry>) returns (r: nat, j: nat)
    requires dest != [] && AreNames(dest) && Sound(entries) && HasOneTop(entries)
    requires exists f :: f in Listings(entries, TopDir(entries)) && IsReadme(f)
    ensures var files := Listings(entries, TopDir(entries));
      r < |files| && IsReadme(files[r]) && WrittenLast(entries, Dir(dest), j) &&
      Listing(entries[j], TopDir(entries)) == [FileEntry(files[r].path, |entries[j].data|)]
    ensures ReadmeText(ExtractedRepo(RootDir(Dir(dest), TopDir(entries)), Listings(entries, TopDir(entries))), DiskOf(entries, Dir(dest)))
      == entries[j].data
  {
    hide Clean, Join, Dir, RootDir, Listings, DiskOf, TopDir, Sound, HasOneTop, WrittenLast, IsReadme, ReadmeText, Listing;
    var files := Listings(entries, TopDir(entries));
    r := ReadmeTextMeans(ExtractedRepo(RootDir(Dir(dest), TopDir(entries)), files), DiskOf(entries, Dir(dest)));
    var f :| f in files && IsReadme(f);
    var i: nat :| i < |files| && files[i] == f;
    j := ListedFileOnDisk(dest, entries, files[r]);
  }
}
