/** What paths mean as text (`eio__realpath` in libeio/eio.c): where a relative
    path starts, and what may be rewritten in a path without changing where it
    leads. */
module PathText {
  import opened Basics
  import opened PathSpec
  import opened RealPath

  /** A directory as a resolution leaves it: canonical, free of links, and with
      room behind it. */
  ghost predicate Resolved(fs: FileSystem, dir: seq<string>) {
    Canonical(dir) && LinkFree(fs, dir) && Fits(dir)
  }

  /** The working directory is `dir`; a stored root has no stale character behind
      it. */
  predicate WorksIn(dir: seq<string>, wd: WorkDir, cwd: CurrentDir, stale: bool) {
    (wd.Current? && cwd == At(dir)) || (wd == Stored(dir) && (dir == [] ==> !stale))
  }

  /** What comes next starts with a slash or is the end. */
  predicate Follows(rest: string) {
    rest == "" || rest[0] == '/'
  }

  lemma StartsIn(fs: FileSystem, path: string, dir: seq<string>, wd: WorkDir, cwd: CurrentDir, stale: bool)
    requires path != "" && path[0] != '/' && Canonical(dir) && WorksIn(dir, wd, cwd, stale)
    ensures Resolution(fs, Some(path), wd, cwd, stale) == Walk(fs, dir, path, SYMLINKS)
  {
    if dir != [] {
      RenderFirst(dir);
      assert ProperComponent(dir[0]);
      assert |Render(dir)| > 1;
    }
    hide Walk, Render;
  }

  /** A relative path leads where the text of its directory, a slash and the path
      lead, whatever the working directory is then; the error is the same too.
      Without a directory it leads nowhere. */
  lemma RelativeIsAbsolute(fs: FileSystem, path: string, dir: seq<string>, wd: WorkDir, cwd: CurrentDir, stale: bool,
          wd': WorkDir, cwd': CurrentDir, stale': bool)
    requires path != "" && path[0] != '/'
    ensures Resolved(fs, dir) && WorksIn(dir, wd, cwd, stale) ==>
      Resolution(fs, Some(path), wd, cwd, stale) == Resolution(fs, Some(Show(dir) + "/" + path), wd', cwd', stale')
    ensures wd.Invalid? ==> Resolution(fs, Some(path), wd, cwd, stale) == Fail(ENOENT)
    ensures wd.Current? && cwd.NoDir? ==> Resolution(fs, Some(path), wd, cwd, stale) == Fail(cwd.errno)
  {
    if Resolved(fs, dir) && WorksIn(dir, wd, cwd, stale) {
      hide Walk, Render, Show;
      StartsIn(fs, path, dir, wd, cwd, stale);
      ShowStartsWithSlash(dir);
      InsideDirectory(fs, dir, path);
    }
    hide Walk, Resolved, WorksIn;
  }

  lemma InsideDirectory(fs: FileSystem, dir: seq<string>, path: string)
    requires Resolved(fs, dir)
    ensures Walk(fs, [], Show(dir) + "/" + path, SYMLINKS) == Walk(fs, dir, path, SYMLINKS)
  {
    hide Walk, Resolved;
    FromRoot(fs, dir, "/" + path, SYMLINKS);
    SkipsSlash(fs, dir, path, SYMLINKS);
    SkipsSlash(fs, [], "/" + path, SYMLINKS);
    assert Show(dir) + "/" + path == Show(dir) + ("/" + path);
  }

  lemma ShowStartsWithSlash(dir: seq<string>)
    ensures Show(dir) != "" && Show(dir)[0] == '/'
    ensures Show(dir) == if dir == [] then "/" else Render(dir)
  {
    if dir != [] {
      RenderFirst(dir);
    }
  }

  lemma SkipsSlash(fs: FileSystem, dir: seq<string>, rest: string, budget: nat)
    ensures Walk(fs, dir, "/" + rest, budget) == Walk(fs, dir, rest, budget)
  {
    ComponentLengthUnique("/" + rest, 0);
    assert ("/" + rest)[1..] == rest;
  }

  /** From the root the text of a resolved directory leads into it. */
  lemma FromRoot(fs: FileSystem, dir: seq<string>, rest: string, budget: nat)
    requires Resolved(fs, dir) && Follows(rest)
    ensures Walk(fs, [], Render(dir) + rest, budget) == Walk(fs, dir, rest, budget)
  {
    assert [] + dir == dir;
    WalkDown(fs, [], dir, rest, budget);
  }

  // ----- Rewriting ------------------------------------------------------------------

  /** One step from `dir` down the component `c`. */
  lemma TakesComponent(fs: FileSystem, dir: seq<string>, c: string, rest: string, budget: nat)
    requires c != "" && '/' !in c && Follows(rest)
    ensures Walk(fs, dir, "/" + c + rest, budget) ==
      if c == "." then Walk(fs, dir, rest, budget)
      else if c == ".." then Walk(fs, Pop(dir), rest, budget)
      else if |Render(dir)| + 1 + |c| + 1 >= PATH_MAX then Fail(ENAMETOOLONG)
      else
        match fs(Render(dir + [c]))
        case Error(e) => if e != EINVAL then Fail(e) else Walk(fs, dir + [c], rest, budget)
        case Target(t) =>
          if |Joined(t, rest)| >= PATH_MAX then Fail(ENAMETOOLONG)
          else if budget <= 1 then Fail(ELOOP)
          else Walk(fs, if t != "" && t[0] == '/' then [] else dir, Joined(t, rest), budget - 1)
  {
    var s := c + rest;
    assert "/" + c + rest == "/" + s;
    SkipsSlash(fs, dir, s, budget);
    ComponentLengthUnique(s, |c|);
    assert s[..|c|] == c && s[|c|..] == rest;
    hide Render, ComponentLength;
  }

  /** A component "." may be left out. */
  lemma DotIsNothing(fs: FileSystem, dir: seq<string>, rest: string, budget: nat)
    requires Resolved(fs, dir) && Follows(rest)
    ensures Walk(fs, [], Render(dir) + ("/." + rest), budget) == Walk(fs, [], Render(dir) + rest, budget)
  {
    FromRoot(fs, dir, "/." + rest, budget);
    FromRoot(fs, dir, rest, budget);
    TakesComponent(fs, dir, ".", rest, budget);
    assert "/" + "." + rest == "/." + rest;
    hide Walk;
  }

  /** So may a component together with ".." behind it, when it is there and no
      link, and ".." at the root. */
  lemma DotDotGoesBack(fs: FileSystem, dir: seq<string>, c: string, rest: string, budget: nat)
    requires Resolved(fs, dir) && Follows(rest)
    ensures Resolved(fs, dir + [c]) ==>
      Walk(fs, [], Render(dir + [c]) + ("/.." + rest), budget) == Walk(fs, [], Render(dir) + rest, budget)
    ensures Walk(fs, [], "/.." + rest, budget) == Walk(fs, [], rest, budget)
  {
    assert "/" + ".." + rest == "/.." + rest;
    TakesComponent(fs, [], "..", rest, budget);
    if Resolved(fs, dir + [c]) {
      FromRoot(fs, dir + [c], "/.." + rest, budget);
      FromRoot(fs, dir, rest, budget);
      TakesComponent(fs, dir + [c], "..", rest, budget);
      assert Pop(dir + [c]) == dir;
    }
    hide Walk;
  }

  /** A link in a directory. */
  ghost predicate IsLink(fs: FileSystem, dir: seq<string>, c: string, t: string) {
    Resolved(fs, dir) && ProperComponent(c) && fs(Render(dir + [c])) == Target(t) && Fits(dir + [c])
  }

  /** A link may be replaced by its text, put behind its own directory unless the
      text starts with a slash; that costs one of the links that may be
      followed, and the text with the rest of the path has to fit. */
  lemma LinkIsItsText(fs: FileSystem, dir: seq<string>, c: string, t: string, rest: string, budget: nat)
    requires IsLink(fs, dir, c, t) && t != "" && Follows(rest)
    ensures var instead := (if t[0] == '/' then "" else Render(dir) + "/") + t + "/" + rest;
      Walk(fs, [], Render(dir + [c]) + rest, budget) ==
        if |t| + 1 + |rest| >= PATH_MAX then Fail(ENAMETOOLONG)
        else if budget <= 1 then Fail(ELOOP)
        else Walk(fs, [], instead, budget - 1)
  {
    hide Walk, Render, Resolved, Fits;
    FromRootDown(fs, dir, c, rest, budget);
    RoomFor(dir, c);
    TakesComponent(fs, dir, c, rest, budget);
    if |t| + 1 + |rest| < PATH_MAX && budget > 1 && t[0] != '/' {
      FromLink(fs, dir, t, rest, budget - 1);
    }
    assert "" + t + "/" + rest == Joined(t, rest);
  }

  /** The text of a link seen from its directory. */
  lemma FromLink(fs: FileSystem, dir: seq<string>, t: string, rest: string, budget: nat)
    requires Resolved(fs, dir)
    ensures Walk(fs, [], Render(dir) + "/" + t + "/" + rest, budget) == Walk(fs, dir, Joined(t, rest), budget)
  {
    hide Walk, Render, Resolved;
    var next := Joined(t, rest);
    FromRoot(fs, dir, "/" + next, budget);
    SkipsSlash(fs, dir, next, budget);
    assert Render(dir) + ("/" + next) == Render(dir) + "/" + t + "/" + rest;
  }

  lemma FromRootDown(fs: FileSystem, dir: seq<string>, c: string, rest: string, budget: nat)
    requires Resolved(fs, dir)
    ensures Walk(fs, [], Render(dir + [c]) + rest, budget) == Walk(fs, dir, "/" + c + rest, budget)
  {
    RenderPush(dir, c);
    hide Walk, Render, Resolved;
    assert Render(dir + [c]) + rest == Render(dir) + ("/" + c + rest);
    FromRoot(fs, dir, "/" + c + rest, budget);
  }

  lemma RoomFor(dir: seq<string>, c: string)
    ensures Fits(dir + [c]) <==> |Render(dir)| + 1 + |c| + 1 < PATH_MAX
  {
    RenderPush(dir, c);
  }

  /** A name that `readlink` fails on ends the resolution, and so does one without
      room for it. */
  lemma MissingNameEnds(fs: FileSystem, dir: seq<string>, c: string, rest: string, budget: nat)
    requires Resolved(fs, dir) && ProperComponent(c) && Follows(rest)
    ensures !Fits(dir + [c]) ==> Walk(fs, [], Render(dir + [c]) + rest, budget) == Fail(ENAMETOOLONG)
    ensures Fits(dir + [c]) && fs(Render(dir + [c])).Error? && fs(Render(dir + [c])).errno != EINVAL ==>
      Walk(fs, [], Render(dir + [c]) + rest, budget) == Fail(fs(Render(dir + [c])).errno)
  {
    hide Walk, Render, Resolved, Fits;
    FromRootDown(fs, dir, c, rest, budget);
    RoomFor(dir, c);
    TakesComponent(fs, dir, c, rest, budget);
  }

  // ----- The limits in numbers --------------------------------------------------------

  function Letters(n: nat): string {
    seq(n, _ => 'a')
  }

  function Slashes(n: nat): string {
    seq(n, _ => '/')
  }

  /** Files "/a", "/aa" and so on, each a link to the one before. */
  function Chain(p: string): Link {
    if |p| < 2 || p != "/" + Letters(|p| - 1) then Error(ENOENT)
    else if |p| == 2 then Error(EINVAL)
    else Target(Letters(|p| - 2))
  }

  lemma {:induction false} SlashesLeadNowhere(fs: FileSystem, dir: seq<string>, k: nat, budget: nat)
    ensures Walk(fs, dir, Slashes(k), budget) == Ok(dir)
  {
    if k > 0 {
      assert Slashes(k) == "/" + Slashes(k - 1);
      SkipsSlash(fs, dir, Slashes(k - 1), budget);
      SlashesLeadNowhere(fs, dir, k - 1, budget);
    }
  }

  lemma RenderOne(c: string)
    ensures Render([]) == "" && [] + [c] == [c] && Render([c]) == "/" + c
  {
    RenderPush([], c);
    assert [] + [c] == [c];
  }

  lemma LettersAreProper(n: nat)
    requires n > 0
    ensures ProperComponent(Letters(n)) && |Letters(n)| == n
  {
    assert Letters(n)[0] == 'a';
  }

  /** Down a chain of `n - 1` links. */
  lemma {:induction false} ChainLeads(n: nat, k: nat, budget: nat)
    requires 0 < n && n + k < PATH_MAX - 2
    ensures Walk(Chain, [], "/" + Letters(n) + Slashes(k), budget) ==
      if n == 1 || n <= budget then Ok([Letters(1)]) else Fail(ELOOP)
    decreases n
  {
    var c, rest := Letters(n), Slashes(k);
    RenderOne(c);
    LettersAreProper(n);
    TakesComponent(Chain, [], c, rest, budget);
    SlashesLeadNowhere(Chain, [c], k, budget);
    if n > 1 && budget > 1 {
      var t := Letters(n - 1);
      assert Joined(t, rest) == t + Slashes(k + 1);
      SkipsSlash(Chain, [], t + Slashes(k + 1), budget - 1);
      assert "/" + (t + Slashes(k + 1)) == "/" + t + Slashes(k + 1);
      LettersAreProper(n - 1);
      ChainLeads(n - 1, k + 1, budget - 1);
    }
    hide Walk, Render;
  }

  /** One resolution follows up to 31 links. */
  lemma ThirtyOneLinks(n: nat, wd: WorkDir, cwd: CurrentDir, stale: bool)
    requires 0 < n < 4000
    ensures Resolution(Chain, Some("/" + Letters(n)), wd, cwd, stale) ==
      if n - 1 <= 31 then Ok([Letters(1)]) else Fail(ELOOP)
  {
    ChainLeads(n, 0, SYMLINKS);
    assert "/" + Letters(n) + Slashes(0) == "/" + Letters(n);
    hide Walk;
  }

  /** One name in the root may have up to 4093 letters. */
  lemma LongestName(n: nat, wd: WorkDir, cwd: CurrentDir, stale: bool)
    requires 0 < n
    ensures Resolution(NoLinks, Some("/" + Letters(n)), wd, cwd, stale) ==
      if n <= 4093 then Ok([Letters(n)]) else Fail(ENAMETOOLONG)
  {
    var c := Letters(n);
    RenderOne(c);
    LettersAreProper(n);
    TakesComponent(NoLinks, [], c, "", SYMLINKS);
    assert "/" + c + "" == "/" + c;
    assert Walk(NoLinks, [c], "", SYMLINKS) == Ok([c]);
    hide Walk, Render;
  }
}
