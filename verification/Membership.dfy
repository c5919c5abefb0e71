/** Which linked documents are architecture-set members: detail directories, exclusions, and their construction. */
module Membership {
  import opened Common

  // --- Paths and their components --------------------------------------------------------------

  predicate NoSlash(s: string) { forall i :: 0 <= i < |s| ==> s[i] != '/' }

  /** A path's components; any string has at least one. */
  function Split(path: string): (parts: seq<string>)
    ensures parts != [] && forall p :: p in parts ==> NoSlash(p)
  {
    if path == "" then [""]
    else
      var rest := Split(path[1..]);
      assert NoSlash(rest[0]);
      if path[0] == '/' then [""] + rest else [[path[0]] + rest[0]] + rest[1..]
  }

  /** Each component behind a slash of its own. */
  function Slashed(parts: seq<string>): string {
    if parts == [] then "" else "/" + parts[0] + Slashed(parts[1..])
  }

  lemma Regroup(word: string, rest: string)
    ensures "/" + word + rest == "/" + (word + rest)
    ensures "/" + word + rest + "/" == "/" + (word + (rest + "/"))
  {
  }

  lemma SlashedFirst(parts: seq<string>)
    requires parts != []
    ensures Slashed(parts) == "/" + (parts[0] + Slashed(parts[1..]))
    ensures Slashed(parts) + "/" == "/" + (parts[0] + (Slashed(parts[1..]) + "/"))
  {
    SlashedUnfold(parts);
    hide Slashed;
    Regroup(parts[0], Slashed(parts[1..]));
  }

  lemma SlashedUnfold(parts: seq<string>)
    requires parts != []
    ensures Slashed(parts) == "/" + parts[0] + Slashed(parts[1..])
  {
  }

  lemma PushFirst(rest: seq<string>, c: char, text: string)
    requires rest != [] && Slashed(rest) == "/" + text
    ensures Slashed([[c] + rest[0]] + rest[1..]) == "/" + ([c] + text)
  {
    SlashedFirst(rest);
    var parts := [[c] + rest[0]] + rest[1..];
    SlashedFirst(parts);
    assert parts[1..] == rest[1..];
    hide Slashed;
    BehindFirst(text, rest[0] + Slashed(rest[1..]), '/');
    BehindFirst(rest[0] + Slashed(rest[1..]), text, '/');
    assert [c] + rest[0] + Slashed(rest[1..]) == [c] + text;
  }

  /** What follows a common first character. */
  lemma BehindFirst(x: string, y: string, c: char)
    ensures [c] + x <= [c] + y <==> x <= y
  {
    assert ([c] + x)[1..] == x && ([c] + y)[1..] == y;
    if [c] + x <= [c] + y { assert x == ([c] + y)[1..][..|x|]; }
  }

  lemma {:induction false} SlashedSplit(path: string)
    ensures Slashed(Split(path)) == "/" + path
  {
    hide Slashed;
    if path == "" {
      SlashedFirst([""]);
      SlashedNothing();
    } else {
      SlashedSplit(path[1..]);
      var rest := Split(path[1..]);
      assert path == [path[0]] + path[1..];
      if path[0] == '/' {
        SlashedFirst([""] + rest);
        assert ([""] + rest)[1..] == rest && "" + Slashed(rest) == Slashed(rest);
      } else {
        PushFirst(rest, path[0], path[1..]);
      }
    }
  }

  lemma SlashedNothing()
    ensures Slashed([]) == "" && [""][1..] == []
  {
  }

  // --- The substring test is a component test ----------------------------------------------------

  predicate Occurs(needle: string, hay: string) {
    exists i :: 0 <= i <= |hay| && needle <= hay[i..]
  }

  /** The components of the directory start at position `i` of the path and something follows them. */
  predicate LiesAt(dir: seq<string>, path: seq<string>, i: nat) {
    i + |dir| < |path| && path[i..i + |dir|] == dir
  }

  predicate Components(parts: seq<string>) {
    parts != [] && forall p :: p in parts ==> p != "" && NoSlash(p) && p != "*"
  }

  lemma WordEnds(a: string, rest: string)
    requires NoSlash(a) && (rest == "" || rest[0] == '/')
    ensures forall i :: 0 <= i < |a| ==> (a + rest)[i] != '/'
    ensures rest != "" ==> (a + rest)[|a|] == '/'
  {
  }

  /** Two slash-free words before a slash, or before the end of one of the texts, are equal. */
  lemma WordsAgree(a: string, restA: string, b: string, restB: string)
    requires NoSlash(a) && NoSlash(b) && restA != "" && restA[0] == '/' && (restB == "" || restB[0] == '/')
    requires a + restA <= b + restB
    ensures a == b && restA <= restB
  {
    var x, y := a + restA, b + restB;
    WordEnds(a, restA);
    WordEnds(b, restB);
    assert forall i :: 0 <= i <= |a| ==> x[i] == y[i];
    assert |a| == |b|;
    assert a == x[..|a|] && b == y[..|b|];
    assert restA == x[|a|..] && restB == y[|b|..];
  }

  lemma SlashedStarts(parts: seq<string>)
    ensures parts != [] ==> Slashed(parts) != "" && Slashed(parts)[0] == '/'
  {
  }

  /** `/a/b/` begins a slashed path exactly when `a`, `b` are its first components and another follows. */
  lemma {:induction false} BeginsExact(dir: seq<string>, path: seq<string>)
    requires (forall p :: p in dir ==> NoSlash(p)) && forall p :: p in path ==> NoSlash(p)
    ensures Slashed(dir) + "/" <= Slashed(path) <==> LiesAt(dir, path, 0)
    decreases |dir|
  {
    hide NoSlash, Slashed;
    if dir == [] || path == [] {
      EmptyBegins(dir, path);
    } else {
      BeginsExact(dir[1..], path[1..]);
      FirstBegins(dir, path);
      LiesStep(dir, path);
    }
  }

  lemma LiesStep(dir: seq<string>, path: seq<string>)
    requires dir != [] && path != []
    ensures LiesAt(dir, path, 0) <==> dir[0] == path[0] && LiesAt(dir[1..], path[1..], 0)
  {
    if |dir| < |path| {
      assert path[0..|dir|] == [path[0]] + path[1..][0..|dir| - 1];
      assert dir == [dir[0]] + dir[1..];
    }
  }

  lemma EmptyBegins(dir: seq<string>, path: seq<string>)
    requires dir == [] || path == []
    ensures Slashed(dir) + "/" <= Slashed(path) <==> LiesAt(dir, path, 0)
  {
    SlashedStarts(path);
    if dir == [] { assert path[..0] == []; }
  }

  lemma FirstBegins(dir: seq<string>, path: seq<string>)
    requires (forall p :: p in dir ==> NoSlash(p)) && forall p :: p in path ==> NoSlash(p)
    requires dir != [] && path != []
    ensures Slashed(dir) + "/" <= Slashed(path)
            <==> dir[0] == path[0] && Slashed(dir[1..]) + "/" <= Slashed(path[1..])
  {
    var a, b := Slashed(dir[1..]) + "/", Slashed(path[1..]);
    SlashedStarts(dir[1..]);
    SlashedStarts(path[1..]);
    hide Slashed, NoSlash;
    assert a[0] == '/';
    SlashedFirst(dir);
    SlashedFirst(path);
    BehindFirst(dir[0] + a, path[0] + b, '/');
    WordsBegin(dir[0], a, path[0], b);
  }

  lemma WordsBegin(a: string, restA: string, b: string, restB: string)
    requires NoSlash(a) && NoSlash(b) && restA != "" && restA[0] == '/' && (restB == "" || restB[0] == '/')
    ensures a + restA <= b + restB <==> a == b && restA <= restB
  {
    if a + restA <= b + restB { WordsAgree(a, restA, b, restB); }
    if a == b && restA <= restB { SameWord(a, restA, restB); }
  }

  lemma SameWord(w: string, a: string, b: string)
    requires a <= b
    ensures w + a <= w + b
  {
    assert b == a + b[|a|..];
    assert w + b == w + a + b[|a|..];
  }

  lemma SkipsFirst(parts: seq<string>, at: nat)
    requires parts != [] && NoSlash(parts[0]) && 0 < at < |Slashed(parts)| && Slashed(parts)[at] == '/'
    ensures at >= 1 + |parts[0]| && Slashed(parts)[1 + |parts[0]|..] == Slashed(parts[1..])
  {
    assert Slashed(parts) == "/" + (parts[0] + Slashed(parts[1..]));
    assert forall k :: 1 <= k < 1 + |parts[0]| ==> Slashed(parts)[k] == parts[0][k - 1];
  }

  /** A slash in a slashed path starts one of its components. */
  lemma {:induction false} SlashStartsComponent(parts: seq<string>, at: nat) returns (i: nat)
    requires (forall p :: p in parts ==> NoSlash(p)) && at < |Slashed(parts)| && Slashed(parts)[at] == '/'
    ensures i < |parts| && Slashed(parts)[at..] == Slashed(parts[i..])
    decreases |parts|
  {
    if at == 0 {
      i := 0;
    } else {
      var skip := 1 + |parts[0]|;
      SkipsFirst(parts, at);
      assert forall p :: p in parts[1..] ==> NoSlash(p) by { hide Slashed, NoSlash; }
      hide Slashed, NoSlash;
      i := SlashStartsComponent(parts[1..], at - skip);
      assert Slashed(parts)[at..] == Slashed(parts[1..])[at - skip..];
      assert parts[1..][i..] == parts[i + 1..];
      i := i + 1;
    }
  }

  lemma {:induction false} ComponentStarts(parts: seq<string>, i: nat) returns (at: nat)
    requires i <= |parts|
    ensures at <= |Slashed(parts)| && Slashed(parts)[at..] == Slashed(parts[i..])
  {
    if i == 0 {
      at := 0;
    } else {
      at := ComponentStarts(parts[1..], i - 1);
      assert Slashed(parts)[1 + |parts[0]|..] == Slashed(parts[1..]);
      assert parts[1..][i - 1..] == parts[i..];
      at := at + 1 + |parts[0]|;
    }
  }

  lemma OccursLies(dir: seq<string>, path: seq<string>)
    requires (forall p :: p in dir ==> NoSlash(p)) && forall p :: p in path ==> NoSlash(p)
    requires Occurs(Slashed(dir) + "/", Slashed(path))
    ensures exists i: nat :: LiesAt(dir, path, i)
  {
    hide Slashed, NoSlash;
    var needle, hay := Slashed(dir) + "/", Slashed(path);
    var at :| 0 <= at <= |hay| && needle <= hay[at..];
    FirstIsSlash(dir);
    assert hay[at] == needle[0];
    var i := SlashStartsComponent(path, at);
    BeginsExact(dir, path[i..]);
    LiesShifted(dir, path, i);
    assert LiesAt(dir, path, i);
  }

  lemma LiesOccurs(dir: seq<string>, path: seq<string>, i: nat)
    requires (forall p :: p in dir ==> NoSlash(p)) && forall p :: p in path ==> NoSlash(p)
    requires LiesAt(dir, path, i)
    ensures Occurs(Slashed(dir) + "/", Slashed(path))
  {
    hide Slashed, NoSlash;
    var at := ComponentStarts(path, i);
    LiesShifted(dir, path, i);
    BeginsExact(dir, path[i..]);
  }

  lemma LiesShifted(dir: seq<string>, path: seq<string>, i: nat)
    requires i <= |path|
    ensures LiesAt(dir, path, i) <==> LiesAt(dir, path[i..], 0)
  {
    if i + |dir| < |path| { assert path[i..][0..|dir|] == path[i..i + |dir|]; }
  }

  lemma OccursExact(dir: seq<string>, path: seq<string>)
    requires (forall p :: p in dir ==> NoSlash(p)) && forall p :: p in path ==> NoSlash(p)
    ensures Occurs(Slashed(dir) + "/", Slashed(path)) <==> exists i: nat :: LiesAt(dir, path, i)
  {
    hide Slashed, NoSlash, Occurs, LiesAt;
    if Occurs(Slashed(dir) + "/", Slashed(path)) { OccursLies(dir, path); }
    if exists i: nat :: LiesAt(dir, path, i) {
      var i: nat :| LiesAt(dir, path, i);
      LiesOccurs(dir, path, i);
    }
  }

  lemma FirstIsSlash(dir: seq<string>)
    ensures (Slashed(dir) + "/")[0] == '/'
  {
  }

  // --- Exclusions ------------------------------------------------------------------------------

  /** A normalized directory, `a/b/`. */
  function Directory(dir: seq<string>): string { Slashed(dir)[if dir == [] then 0 else 1..] + "/" }

  /** A normalized `--architecture-exclude` value: a directory, at any depth when it began with a star. */
  datatype Exclusion = Exclusion(anywhere: bool, dir: seq<string>) {
    function Text(): string { (if anywhere then "*/" else "") + Directory(dir) }
  }

  /** The test on the texts, as written: a substring behind a slash, or a prefix. */
  predicate ExclusionMatches(exclusion: string, path: string) {
    if "*/" <= exclusion then Occurs("/" + exclusion[2..], "/" + path) else exclusion <= path
  }

  lemma DirectoryText(dir: seq<string>)
    requires Components(dir)
    ensures "/" + Directory(dir) == Slashed(dir) + "/" && !("*/" <= Directory(dir))
  {
    SlashedFirst(dir);
    hide Slashed, NoSlash;
    var rest := Slashed(dir[1..]) + "/";
    assert Slashed(dir)[1..] == dir[0] + Slashed(dir[1..]);
    assert Directory(dir) == dir[0] + rest;
    assert dir[0] in dir;
    NotStar(dir[0], rest);
  }

  lemma NotStar(d: string, rest: string)
    requires d != "" && d != "*" && NoSlash(d)
    ensures !("*/" <= d + rest)
  {
    assert (d + rest)[..|d|] == d;
    assert |d| == 1 ==> d == [d[0]];
    assert |d| > 1 ==> (d + rest)[1] == d[1];
  }

  /** The test agrees with matching component by component. */
  lemma MatchesByComponents(e: Exclusion, path: string)
    requires Components(e.dir)
    ensures ExclusionMatches(e.Text(), path)
            <==> if e.anywhere then exists i: nat :: LiesAt(e.dir, Split(path), i) else LiesAt(e.dir, Split(path), 0)
  {
    hide Slashed, Directory, Occurs;
    DirectoryText(e.dir);
    SlashedSplit(path);
    var text := Directory(e.dir);
    if e.anywhere {
      assert ("*/" + text)[2..] == text;
      OccursExact(e.dir, Split(path));
    } else {
      assert "" + text == text;
      BeginsExact(e.dir, Split(path));
      BehindFirst(text, path, '/');
    }
  }

  // --- The policy ------------------------------------------------------------------------------

  const DETAIL_DIR_CAP := 16
  const EXCLUDE_CAP := 32

  datatype Policy = Policy(detailDirs: seq<string>, excludes: seq<string>) {
    predicate IsExcluded(path: string) { exists e :: e in excludes && ExclusionMatches(e, path) }

    predicate IsMember(path: string, root: string) {
      && path != root && |path| >= 3 && path[|path| - 3..] == ".md"
      && (exists d :: d in detailDirs && d <= path)
      && !IsExcluded(path)
    }
  }

  /** Construction from already normalized values. */
  function Construct(dirs: seq<string>, excludes: seq<string>): Outcome<Policy> {
    var p := Policy(Dedup(dirs), Dedup(excludes));
    if |p.detailDirs| > DETAIL_DIR_CAP || p.detailDirs == [] || |p.excludes| > EXCLUDE_CAP then Refused
    else if exists d :: d in p.detailDirs && p.IsExcluded(d) then Refused
    else Accepted(p)
  }

  lemma OccursGrows(needle: string, hay: string, more: string)
    requires Occurs(needle, hay)
    ensures Occurs(needle, hay + more)
  {
    var i :| 0 <= i <= |hay| && needle <= hay[i..];
    assert (hay + more)[i..] == hay[i..] + more;
  }

  /** An excluded path stays excluded under any extension. */
  lemma ExtensionExcluded(exclusion: string, path: string, more: string)
    requires ExclusionMatches(exclusion, path)
    ensures ExclusionMatches(exclusion, path + more)
  {
    if "*/" <= exclusion {
      OccursGrows("/" + exclusion[2..], "/" + path, more);
      assert "/" + path + more == "/" + (path + more);
    }
  }

  /** A file directly in a directory is excluded only with the directory. */
  lemma FileExcludedWithDirectory(exclusion: string, dir: string, file: string)
    requires NoSlash(file) && exclusion != "" && exclusion[|exclusion| - 1] == '/'
    requires ExclusionMatches(exclusion, dir + file)
    ensures ExclusionMatches(exclusion, dir)
  {
    if "*/" <= exclusion {
      var needle := "/" + exclusion[2..];
      assert needle[|needle| - 1] == '/';
      assert "/" + (dir + file) == "/" + dir + file;
      OccursBeforeFile(needle, "/" + dir, file);
    } else {
      PrefixBeforeFile(exclusion, dir, file);
    }
  }

  /** A text that ends in a slash ends before a slash-free file name. */
  lemma PrefixBeforeFile(needle: string, hay: string, file: string)
    requires NoSlash(file) && needle != "" && needle[|needle| - 1] == '/' && needle <= hay + file
    ensures needle <= hay
  {
    var all := hay + file;
    assert all[|needle| - 1] == '/';
    assert forall k :: |hay| <= k < |all| ==> all[k] == file[k - |hay|];
    assert needle == all[..|needle|] == hay[..|needle|];
  }

  lemma OccursBeforeFile(needle: string, hay: string, file: string)
    requires NoSlash(file) && needle != "" && needle[|needle| - 1] == '/' && Occurs(needle, hay + file)
    ensures Occurs(needle, hay)
  {
    var all := hay + file;
    var i :| 0 <= i <= |all| && needle <= all[i..];
    assert all[i + |needle| - 1] == all[i..][|needle| - 1] == '/';
    assert forall k :: |hay| <= k < |all| ==> all[k] == file[k - |hay|];
    assert all[i..] == hay[i..] + file;
    PrefixBeforeFile(needle, hay[i..], file);
  }

  ghost predicate Normalized(dirs: seq<string>) {
    forall d :: d in dirs ==> d != "" && d[|d| - 1] == '/'
  }

  /** Some member lies in the directory. */
  ghost predicate CanContribute(p: Policy, d: string, root: string) {
    exists path :: d <= path && p.IsMember(path, root)
  }

  /** The construction check is exact: a detail directory is refused exactly when no member could lie in it. */
  lemma RefusedExactlyWhenBarren(dirs: seq<string>, excludes: seq<string>, d: string, root: string)
    requires d in dirs && Normalized(dirs) && Normalized(excludes)
    ensures var p := Policy(Dedup(dirs), Dedup(excludes));
            p.IsExcluded(d) <==> !CanContribute(p, d, root)
  {
    hide ExclusionMatches, Dedup;
    var p := Policy(Dedup(dirs), Dedup(excludes));
    InDedup(dirs, d);
    if p.IsExcluded(d) {
      forall path | d <= path ensures !p.IsMember(path, root) { NothingInside(p, d, path); }
    } else {
      forall e | e in p.excludes ensures e != "" && e[|e| - 1] == '/' { InDedup(excludes, e); }
      var path := SomethingInside(p, d, root);
    }
  }

  lemma NothingInside(p: Policy, d: string, path: string)
    requires p.IsExcluded(d) && d <= path
    ensures p.IsExcluded(path)
  {
    hide ExclusionMatches;
    var e :| e in p.excludes && ExclusionMatches(e, d);
    assert path == d + path[|d|..];
    ExtensionExcluded(e, d, path[|d|..]);
  }

  lemma SomethingInside(p: Policy, d: string, root: string) returns (path: string)
    requires d in p.detailDirs && !p.IsExcluded(d) && Normalized(p.excludes)
    ensures d <= path && p.IsMember(path, root)
  {
    hide ExclusionMatches;
    var file := if d + "a.md" == root then "b.md" else "a.md";
    path := d + file;
    assert path[|path| - 3..] == ".md";
    assert (d + "a.md")[|d|] == 'a' && (d + "b.md")[|d|] == 'b';
    forall e | e in p.excludes ensures !ExclusionMatches(e, path) {
      if ExclusionMatches(e, path) { FileExcludedWithDirectory(e, d, file); }
    }
  }

  /** A policy is accepted exactly when its lists are within their caps and every detail directory can
      contribute a member, whatever the root document is. */
  lemma ConstructExact(dirs: seq<string>, excludes: seq<string>, root: string)
    requires Normalized(dirs) && Normalized(excludes)
    ensures var p := Policy(Dedup(dirs), Dedup(excludes));
            Construct(dirs, excludes)
            == if 1 <= |p.detailDirs| <= 16 && |p.excludes| <= 32
                  && forall d :: d in dirs ==> CanContribute(p, d, root)
               then Accepted(p) else Refused
  {
    hide CanContribute, Normalized, ExclusionMatches, Dedup;
    var p := Policy(Dedup(dirs), Dedup(excludes));
    forall d | d in dirs
      ensures p.IsExcluded(d) <==> !CanContribute(p, d, root)
    {
      RefusedExactlyWhenBarren(dirs, excludes, d, root);
    }
    forall d ensures d in p.detailDirs <==> d in dirs { InDedup(dirs, d); }
    assert p.detailDirs == [] || p.detailDirs[0] in p.detailDirs;
  }

  lemma InDedup(names: seq<string>, x: string)
    ensures x in Dedup(names) <==> x in names
  {
    assert x in Elems(Dedup(names)) <==> x in Elems(names);
  }

  /** A member is a Markdown file other than the root, inside a detail directory and outside every exclusion. */
  lemma MemberExact(p: Policy, path: string, root: string)
    ensures p.IsMember(path, root)
            <==> && path != root && (exists stem :: path == stem + ".md")
                 && (exists d, rest :: d in p.detailDirs && path == d + rest)
                 && forall e :: e in p.excludes ==> !ExclusionMatches(e, path)
  {
    hide ExclusionMatches;
    if p.IsMember(path, root) {
      assert path == path[..|path| - 3] + ".md";
      var d :| d in p.detailDirs && d <= path;
      assert path == d + path[|d|..];
    }
    if exists stem :: path == stem + ".md" {
      var stem :| path == stem + ".md";
      assert path[|path| - 3..] == ".md";
    }
  }
}
