/** Lexical paths, as `filepath` of a Unix system treats them: `Clean`, `Join`, `Base`, `Ext`. */
module Paths {

  /** The segments between the slashes; there is always at least one. */
  function Split(p: string): (segments: seq<string>)
    ensures |segments| > 0
  {
    if p == "" then [""]
    else
      var rest := Split(p[1..]);
      if p[0] == '/' then [""] + rest else [[p[0]] + rest[0]] + rest[1..]
  }

  function JoinSegments(segments: seq<string>): string {
    if segments == [] then ""
    else if |segments| == 1 then segments[0]
    else segments[0] + ("/" + JoinSegments(segments[1..]))
  }

  /** Adds one segment to those settled: empty segments and `.` vanish, `..` takes back one segment,
      or stays if there is none and the path is relative. */
  function Settle(rooted: bool, done: seq<string>, head: string): seq<string> {
    if head == "" || head == "." then done
    else if head != ".." then done + [head]
    else if done != [] && done[|done| - 1] != ".." then done[..|done| - 1]
    else if rooted then done
    else done + [".."]
  }

  function Normalize(rooted: bool, done: seq<string>, todo: seq<string>): seq<string>
    decreases |todo|
  {
    if todo == [] then done
    else Normalize(rooted, Settle(rooted, done, todo[0]), todo[1..])
  }

  predicate IsAbs(p: string) {
    p != "" && p[0] == '/'
  }

  function Segments(p: string): seq<string> {
    Normalize(IsAbs(p), [], Split(p))
  }

  function Clean(p: string): string {
    var segments := Segments(p);
    if IsAbs(p) then "/" + JoinSegments(segments)
    else if segments == [] then "."
    else JoinSegments(segments)
  }

  /** `filepath.Join` of two elements, of which the first is not empty. */
  function Join(dir: string, name: string): string {
    Clean(if name == "" then dir else dir + ("/" + name))
  }

  /** What is left between slashes after cleaning: a proper file or directory name. */
  predicate IsName(segment: string) {
    segment != "" && segment != "." && segment != ".." && '/' !in segment
  }

  ghost predicate AreNames(segments: seq<string>) {
    forall s | s in segments :: IsName(s)
  }

  lemma {:induction false} SplitHasNoSlash(p: string)
    ensures forall s | s in Split(p) :: '/' !in s
  {
    if p != "" {
      SplitHasNoSlash(p[1..]);
    }
  }

  lemma {:induction false} SplitConcat(p: string, q: string)
    ensures Split(p + ("/" + q)) == Split(p) + Split(q)
  {
    if p == "" {
      assert p + ("/" + q) == "/" + q;
      assert ("/" + q)[1..] == q;
    } else {
      assert (p + ("/" + q))[1..] == p[1..] + ("/" + q);
      SplitConcat(p[1..], q);
    }
  }

  lemma {:induction false} SplitSegment(s: string)
    requires '/' !in s
    ensures Split(s) == [s]
  {
    if s != "" {
      SplitSegment(s[1..]);
      assert s == [s[0]] + s[1..];
    }
  }

  lemma {:induction false} SplitJoined(segments: seq<string>)
    requires segments != [] && forall s | s in segments :: '/' !in s
    ensures Split(JoinSegments(segments)) == segments
  {
    SplitSegment(segments[0]);
    if |segments| > 1 {
      SplitJoined(segments[1..]);
      SplitConcat(segments[0], JoinSegments(segments[1..]));
    } else {
      assert segments == [segments[0]];
    }
  }

  lemma {:induction false} NormalizeConcat(rooted: bool, done: seq<string>, a: seq<string>, b: seq<string>)
    ensures Normalize(rooted, done, a + b) == Normalize(rooted, Normalize(rooted, done, a), b)
    decreases |a|
  {
    if a == [] {
      assert a + b == b;
    } else {
      assert (a + b)[1..] == a[1..] + b;
      assert (a + b)[0] == a[0];
      NormalizeConcat(rooted, Settle(rooted, done, a[0]), a[1..], b);
    }
  }

  /** Names are appended as they are, whatever is settled before them. */
  lemma {:induction false} NormalizeNames(rooted: bool, done: seq<string>, names: seq<string>)
    requires AreNames(names)
    ensures Normalize(rooted, done, names) == done + names
    decreases |names|
  {
    if names == [] {
      assert done + names == done;
    } else {
      assert names[0] in names;
      assert Settle(rooted, done, names[0]) == done + [names[0]];
      NormalizeNames(rooted, done + [names[0]], names[1..]);
      assert done + names == done + [names[0]] + names[1..];
    }
  }

  /** A relative path that does not climb has only names left after cleaning. */
  ghost predicate Settled(segments: seq<string>) {
    exists k: nat :: k <= |segments| && (forall i: nat | i < k :: segments[i] == "..") && AreNames(segments[k..])
  }

  lemma LastIsName(done: seq<string>, k: nat)
    requires k < |done| && AreNames(done[k..])
    ensures IsName(done[|done| - 1])
  {
    assert done[|done| - 1] == done[k..][|done| - 1 - k];
  }

  lemma SettleSettles(done: seq<string>, head: string)
    requires Settled(done) && '/' !in head
    ensures Settled(Settle(false, done, head))
  {
    var k: nat :| k <= |done| && (forall i: nat | i < k :: done[i] == "..") && AreNames(done[k..]);
    var settled := Settle(false, done, head);
    if head == "" || head == "." {
    } else if head != ".." {
      assert settled[k..] == done[k..] + [head];
    } else if done != [] && done[|done| - 1] != ".." {
      assert k < |done|;
      assert settled[k..] == done[k..][..|done| - 1 - k];
      assert forall s | s in settled[k..] :: s in done[k..];
    } else {
      if k < |done| {
        LastIsName(done, k);
      }
      ClimbSettled(done);
    }
  }

  lemma ClimbSettled(done: seq<string>)
    requires forall i: nat | i < |done| :: done[i] == ".."
    ensures Settled(done + [".."])
  {
    assert AreNames((done + [".."])[|done| + 1..]);
  }

  lemma {:induction false} NormalizeSettles(done: seq<string>, todo: seq<string>)
    requires Settled(done) && forall s | s in todo :: '/' !in s
    ensures Settled(Normalize(false, done, todo))
    decreases |todo|
  {
    if todo != [] {
      SettleSettles(done, todo[0]);
      NormalizeSettles(Settle(false, done, todo[0]), todo[1..]);
    }
  }

  /** The guard of the unpacker on the cleaned entry name. */
  predicate Climbs(name: string) {
    "../" <= name || name == ".." || IsAbs(name)
  }

  lemma ClimbingSegments(segments: seq<string>)
    requires segments != [] && segments[0] == ".."
    ensures Climbs(JoinSegments(segments))
  {
    if |segments| > 1 {
      var rest := JoinSegments(segments[1..]);
      assert ".." + ("/" + rest) == "../" + rest;
    }
  }

  /** A cleaned name that passes the guard is `.` or a row of names. */
  lemma CleanedName(name: string)
    requires !Climbs(Clean(name))
    ensures !IsAbs(name) && AreNames(Segments(name))
    ensures Clean(name) == if Segments(name) == [] then "." else JoinSegments(Segments(name))
  {
    var segments := Segments(name);
    SplitHasNoSlash(name);
    var none: seq<string> := [];
    assert AreNames(none[0..]);
    assert Settled(none);
    NormalizeSettles([], Split(name));
    var k: nat :| k <= |segments| && (forall i: nat | i < k :: segments[i] == "..") && AreNames(segments[k..]);
    if k > 0 {
      ClimbingSegments(segments);
    }
    assert segments[0..] == segments;
  }

  /** Following one segment from the directory `at`: an empty one and `.` stay, `..` goes to the parent
      (the root is its own parent), a name goes down. */
  function Follow(at: seq<string>, segment: string): seq<string> {
    if segment == "" || segment == "." then at
    else if segment != ".." then at + [segment]
    else if at == [] then [] else at[..|at| - 1]
  }

  /** Where one arrives by following the segments of a path from the directory `at`. */
  function Walk(at: seq<string>, segments: seq<string>): seq<string>
    decreases |segments|
  {
    if segments == [] then at else Walk(Follow(at, segments[0]), segments[1..])
  }

  lemma {:induction false} WalkConcat(at: seq<string>, a: seq<string>, b: seq<string>)
    ensures Walk(at, a + b) == Walk(Walk(at, a), b)
    decreases |a|
  {
    if a == [] {
      assert a + b == b;
    } else {
      assert (a + b)[1..] == a[1..] + b && (a + b)[0] == a[0];
      WalkConcat(Follow(at, a[0]), a[1..], b);
    }
  }

  lemma {:induction false} WalkNames(at: seq<string>, names: seq<string>)
    requires AreNames(names)
    ensures Walk(at, names) == at + names
    decreases |names|
  {
    if names == [] {
      assert at + names == at;
    } else {
      assert names[0] in names;
      WalkNames(at + [names[0]], names[1..]);
      assert at + names == at + [names[0]] + names[1..];
    }
  }

  /** Settled so far: no segment that does nothing, and below the root no `..` either. */
  ghost predicate Tidy(rooted: bool, done: seq<string>) {
    forall s | s in done :: s != "" && s != "." && (rooted ==> s != "..")
  }

  /** Settling one segment and following it are the same. */
  lemma SettleWalks(rooted: bool, at: seq<string>, done: seq<string>, head: string)
    requires Tidy(rooted, done) && (rooted ==> at == [])
    ensures Tidy(rooted, Settle(rooted, done, head))
    ensures Walk(at, Settle(rooted, done, head)) == Walk(Walk(at, done), [head])
  {
    assert [head][1..] == [];
    assert done != [] ==> done[|done| - 1] in done;
    if head == "" || head == "." {
    } else if head == ".." && done != [] && done[|done| - 1] != ".." {
      var front, last := done[..|done| - 1], done[|done| - 1];
      assert done == front + [last] && last in done && forall s | s in front :: s in done;
      assert [last][1..] == [];
      WalkConcat(at, front, [last]);
      assert Walk(at, done) == Walk(at, front) + [last];
    } else if head != ".." || !rooted {
      WalkConcat(at, done, [head]);
    }
  }

  lemma {:induction false} NormalizeWalks(rooted: bool, at: seq<string>, done: seq<string>, todo: seq<string>)
    requires Tidy(rooted, done) && (rooted ==> at == [])
    ensures Tidy(rooted, Normalize(rooted, done, todo))
    ensures Walk(at, Normalize(rooted, done, todo)) == Walk(Walk(at, done), todo)
    decreases |todo|
  {
    if todo != [] {
      SettleWalks(rooted, at, done, todo[0]);
      NormalizeWalks(rooted, at, Settle(rooted, done, todo[0]), todo[1..]);
      WalkConcat(Walk(at, done), [todo[0]], todo[1..]);
      assert [todo[0]] + todo[1..] == todo;
    }
  }

  lemma {:induction false} NormalizeHasNoSlash(rooted: bool, done: seq<string>, todo: seq<string>)
    requires (forall s | s in done :: '/' !in s) && forall s | s in todo :: '/' !in s
    ensures forall s | s in Normalize(rooted, done, todo) :: '/' !in s
    decreases |todo|
  {
    if todo != [] {
      NormalizeHasNoSlash(rooted, Settle(rooted, done, todo[0]), todo[1..]);
    }
  }

  /** Cleaning changes the spelling of a path, not where it leads. */
  lemma CleanLeadsThere(p: string, at: seq<string>)
    requires IsAbs(p) ==> at == []
    ensures IsAbs(Clean(p)) <==> IsAbs(p)
    ensures Walk(at, Split(Clean(p))) == Walk(at, Split(p)) == Walk(at, Segments(p))
  {
    var rooted, segments := IsAbs(p), Segments(p);
    NormalizeWalks(rooted, at, [], Split(p));
    SplitHasNoSlash(p);
    NormalizeHasNoSlash(rooted, [], Split(p));
    if segments == [] {
      SplitSegment(".");
      SplitSegment("");
      SplitConcat("", "");
      assert "" + ("/" + "") == "/" && "/" + JoinSegments(segments) == "/";
      assert [""] + [""] == ["", ""];
      assert ["", ""][1..] == [""] && [""][1..] == [] && ["."][1..] == [];
    } else {
      SplitJoined(segments);
      assert segments[0] in segments && segments[0] != "";
      assert JoinSegments(segments)[0] == segments[0][0] && segments[0][0] in segments[0];
      if rooted {
        SplitConcat("", JoinSegments(segments));
        assert "" + ("/" + JoinSegments(segments)) == "/" + JoinSegments(segments);
        WalkConcat(at, [""], segments);
        assert [""][1..] == [];
      }
    }
  }

  /** The guard on entry names, without spelling: a name passes exactly if it is relative and leads,
      from wherever one starts, to one place below. */
  lemma ClimbsMeans(name: string)
    ensures !Climbs(Clean(name)) <==>
            !IsAbs(name) && exists names :: AreNames(names) && forall at :: Walk(at, Split(name)) == at + names
  {
    if !Climbs(Clean(name)) {
      CleanedName(name);
      forall at
        ensures Walk(at, Split(name)) == at + Segments(name)
      {
        CleanLeadsThere(name, at);
        WalkNames(at, Segments(name));
      }
    } else if !IsAbs(name) {
      ClimbingGoesUp(name);
      forall names | AreNames(names)
        ensures exists at :: Walk(at, Split(name)) != at + names
      {
        if Walk([], Split(name)) == [] + names {
          assert |Walk(["a"], Split(name))| != |["a"] + names|;
        }
      }
    }
  }

  /** A relative name that does not pass leads to one place from the root and from a directory in the root. */
  lemma ClimbingGoesUp(name: string)
    requires Climbs(Clean(name)) && !IsAbs(name)
    ensures Walk(["a"], Split(name)) == Walk([], Split(name))
  {
    var segments := Segments(name);
    CleanLeadsThere(name, []);
    CleanLeadsThere(name, ["a"]);
    SplitHasNoSlash(name);
    NormalizeHasNoSlash(false, [], Split(name));
    if segments != [] {
      SplitJoined(segments);
      var s := Clean(name);
      if "../" <= s {
        assert s == ".." + ("/" + s[3..]);
        SplitConcat("..", s[3..]);
      }
      SplitSegment("..");
      assert segments[0] == "..";
      assert Walk(["a"], segments) == Walk([], segments[1..]) == Walk([], segments);
    }
  }

  /** An absolute, clean directory below the root, given by its names. */
  function Dir(names: seq<string>): string {
    "/" + JoinSegments(names)
  }

  lemma SplitDir(names: seq<string>)
    requires names != [] && AreNames(names)
    ensures Split(Dir(names)) == [""] + names
  {
    SplitJoined(names);
    SplitConcat("", JoinSegments(names));
    assert Dir(names) == "" + ("/" + JoinSegments(names));
  }

  /** Cleaning such a directory changes nothing. */
  lemma CleanDir(names: seq<string>)
    requires names != [] && AreNames(names)
    ensures Clean(Dir(names)) == Dir(names)
  {
    SplitDir(names);
    NormalizeConcat(true, [], [""], names);
    assert Normalize(true, [], [""]) == [] by {
      assert [""][1..] == [];
    }
    NormalizeNames(true, [], names);
    assert [] + names == names;
  }

  /** Joining a directory with a row of names, or with `.`, appends the names. */
  lemma JoinNames(dir: seq<string>, name: string, names: seq<string>)
    requires dir != [] && AreNames(dir) && AreNames(names)
    requires name == if names == [] then "." else JoinSegments(names)
    requires name != ""
    ensures Join(Dir(dir), name) == Dir(dir + names)
  {
    var todo := if names == [] then ["."] else names;
    assert Split(name) == todo by {
      if names == [] {
        SplitSegment(".");
      } else {
        SplitJoined(names);
      }
    }
    SplitDir(dir);
    SplitConcat(Dir(dir), name);
    var all := Dir(dir) + ("/" + name);
    assert IsAbs(all);
    assert Split(all) == [""] + dir + todo;
    NormalizeConcat(true, [], [""] + dir, todo);
    NormalizeConcat(true, [], [""], dir);
    assert Normalize(true, [], [""]) == [] by {
      assert [""][1..] == [];
    }
    NormalizeNames(true, [], dir);
    assert [] + dir == dir;
    if names == [] {
      assert ["."][1..] == [];
      assert dir + names == dir;
    } else {
      NormalizeNames(true, dir, names);
    }
  }

  lemma JoinSegmentsNonEmpty(names: seq<string>)
    requires names != [] && AreNames(names)
    ensures JoinSegments(names) != ""
  {
    assert names[0] in names;
  }

  /** Two rows of names that read alike are one row. */
  lemma JoinSegmentsInjective(a: seq<string>, b: seq<string>)
    requires a != [] && b != [] && AreNames(a) && AreNames(b) && JoinSegments(a) == JoinSegments(b)
    ensures a == b
  {
    SplitJoined(a);
    SplitJoined(b);
  }
}
