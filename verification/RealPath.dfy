/** `eio__realpath` (libeio/eio.c): in-place resolution in one buffer of three
    regions of `PATH_MAX` characters. The result grows in the first, `readlink`
    writes to the second, and the unread path is rebuilt in the third. */
module RealPath {
  import opened Basics
  import opened PathSpec

  const TMP1 := PATH_MAX
  const TMP2 := 2 * PATH_MAX

  /** The working directory that a relative path starts from. A stored one is
      the result of an earlier resolution. */
  datatype WorkDir = Current | Stored(stack: seq<string>) | Invalid

  /** The answer of `getcwd`. */
  datatype CurrentDir = At(stack: seq<string>) | NoDir(errno: int)

  /** Components that can be told apart in a rendered path. */
  ghost predicate Splittable(stack: seq<string>) {
    forall i :: 0 <= i < |stack| ==> '/' !in stack[i] && CString(stack[i])
  }

  // ----- Reading the unread path ---------------------------------------------

  /** The C string `rest` starts at `rel`: in the third region once a link has
      been followed, in the caller's path before. */
  ghost predicate PointsAt(buf: seq<char>, path: string, inTmp: bool, rel: nat, rest: string)
    requires |buf| == 3 * PATH_MAX
  {
    CString(rest) &&
    if inTmp then
      && rel + |rest| < PATH_MAX
      && buf[TMP2 + rel..TMP2 + rel + |rest|] == rest
      && buf[TMP2 + rel + |rest|] == '\0'
    else rel + |rest| == |path| && path[rel..] == rest
  }

  method CharAt(buf: array<char>, path: string, inTmp: bool, rel: nat, ghost rest: string) returns (c: char)
    requires buf.Length == 3 * PATH_MAX && PointsAt(buf[..], path, inTmp, rel, rest)
    ensures c == if rest == "" then '\0' else rest[0]
  {
    if inTmp {
      c := buf[TMP2 + rel];
      if rest != "" {
        assert buf[TMP2 + rel..TMP2 + rel + |rest|][0] == rest[0];
      }
    } else {
      c := if rel < |path| then path[rel] else '\0';
      if rest != "" {
        assert path[rel..][0] == rest[0];
      }
    }
  }

  lemma Advance(buf: seq<char>, path: string, inTmp: bool, rel: nat, rest: string, n: nat)
    requires |buf| == 3 * PATH_MAX && PointsAt(buf, path, inTmp, rel, rest) && n <= |rest|
    ensures PointsAt(buf, path, inTmp, rel + n, rest[n..])
  {
    if inTmp {
      assert buf[TMP2 + rel + n..TMP2 + rel + |rest|] == buf[TMP2 + rel..TMP2 + rel + |rest|][n..];
    } else {
      assert path[rel + n..] == path[rel..][n..];
    }
  }

  /** The scan for the end of a component. */
  method ScanComponent(buf: array<char>, path: string, inTmp: bool, beg: nat, ghost rest: string) returns (len: nat)
    requires buf.Length == 3 * PATH_MAX && PointsAt(buf[..], path, inTmp, beg, rest)
    ensures len == ComponentLength(rest)
  {
    len := 0;
    while true
      invariant len <= |rest| && '/' !in rest[..len]
      invariant PointsAt(buf[..], path, inTmp, beg, rest)
      decreases |rest| - len
    {
      Advance(buf[..], path, inTmp, beg, rest, len);
      var c := CharAt(buf, path, inTmp, beg + len, rest[len..]);
      if c == '\0' || c == '/' {
        if len < |rest| {
          assert rest[len..][0] == rest[len];
        }
        ComponentLengthUnique(rest, len);
        return;
      }
      assert rest[..len + 1] == rest[..len] + [rest[len]];
      len := len + 1;
    }
  }

  // ----- Writing -----------------------------------------------------------------

  /** `memmove`: as if through a copy of the source. */
  method Move(buf: array<char>, dst: nat, src: nat, n: nat)
    requires dst + n <= buf.Length && src + n <= buf.Length
    modifies buf
    ensures buf[dst..dst + n] == old(buf[src..src + n])
    ensures forall k :: 0 <= k < buf.Length && !(dst <= k < dst + n) ==> buf[k] == old(buf[k])
  {
    forall k | 0 <= k < n {
      buf[dst + k] := buf[src + k];
    }
  }

  /** `readlink`: looks at the C string at the
      start of the buffer and writes at most `PATH_MAX` characters of the answer
      to the second region. */
  method ReadLink(buf: array<char>, fs: FileSystem, ghost name: string) returns (linklen: int, errno: int)
    requires buf.Length == 3 * PATH_MAX
    requires CString(name) && |name| < PATH_MAX && buf[..|name|] == name && buf[|name|] == '\0'
    modifies buf
    ensures fs(name).Error? ==> linklen < 0 && errno == fs(name).errno
    ensures fs(name).Target? ==>
      && linklen == (if |fs(name).text| < PATH_MAX then |fs(name).text| else PATH_MAX)
      && buf[TMP1..TMP1 + linklen] == fs(name).text[..linklen]
    ensures forall k :: 0 <= k < buf.Length && !(TMP1 <= k < TMP2) ==> buf[k] == old(buf[k])
  {
    forall k | 0 <= k < |name|
      ensures buf[k] != '\0'
    {
      assert buf[..|name|][k] == name[k] && name[k] in name;
    }
    var n := 0;
    while buf[n] != '\0'
      invariant 0 <= n <= |name|
      decreases |name| - n
    {
      n := n + 1;
    }
    match fs(buf[..n])
    case Error(e) =>
      linklen, errno := -1, e;
    case Target(t) =>
      linklen, errno := if |t| < PATH_MAX then |t| else PATH_MAX, 0;
      CopyIn(buf, TMP1, t[..linklen]);
  }

  /** `strlen (rel)` */
  method RestLength(buf: array<char>, path: string, inTmp: bool, rel: nat, ghost rest: string) returns (n: nat)
    requires buf.Length == 3 * PATH_MAX && PointsAt(buf[..], path, inTmp, rel, rest)
    ensures n == |rest|
  {
    n := 0;
    assert forall k :: 0 <= k < |rest| ==> rest[k] != '\0';
    while true
      invariant n <= |rest|
      decreases |rest| - n
    {
      Advance(buf[..], path, inTmp, rel, rest, n);
      var c := CharAt(buf, path, inTmp, rel + n, rest[n..]);
      if c == '\0' {
        return;
      }
      n := n + 1;
    }
  }

  // ----- The steps of the walk ------------------------------------------------

  /** `..`: back up one component, if possible. */
  method BackUp(buf: array<char>, res0: nat, ghost stack: seq<string>) returns (res: nat)
    requires res0 <= buf.Length && buf[..res0] == Render(stack) && Splittable(stack)
    ensures res <= res0 && buf[..res] == Render(Pop(stack))
  {
    res := res0;
    ghost var text := buf[..res0];
    ghost var keep := |Render(Pop(stack))|;
    while res != 0
      invariant res <= res0
      invariant stack != [] ==> keep < res
      decreases res
    {
      res := res - 1;
      assert buf[res] == text[res];
      if stack != [] {
        var last := stack[|stack| - 1];
        assert text == Render(Pop(stack)) + "/" + last;
        if res > keep {
          assert text[res] == last[res - keep - 1];
        } else {
          assert text[keep] == '/';
        }
      }
      if buf[res] == '/' {
        break;
      }
    }
    assert buf[..res] == text[..res];
  }

  /** Writes stay in the first region, so the unread path is not disturbed. */
  lemma StillPointsAt(b: seq<char>, b': seq<char>, path: string, inTmp: bool, rel: nat, rest: string)
    requires |b| == |b'| == 3 * PATH_MAX && PointsAt(b, path, inTmp, rel, rest)
    requires forall k :: TMP2 <= k < |b| ==> b'[k] == b[k]
    ensures PointsAt(b', path, inTmp, rel, rest)
  {
    if inTmp {
      assert b'[TMP2 + rel..TMP2 + rel + |rest|] == b[TMP2 + rel..TMP2 + rel + |rest|];
    }
  }

  /** `memcpy` of a component, from wherever the unread path is. */
  method CopyComponent(buf: array<char>, path: string, inTmp: bool, beg: nat, len: nat, dst: nat, ghost rest: string)
    requires buf.Length == 3 * PATH_MAX && PointsAt(buf[..], path, inTmp, beg, rest)
    requires len <= |rest| && dst + len < PATH_MAX
    modifies buf
    ensures buf[dst..dst + len] == rest[..len]
    ensures forall k :: 0 <= k < buf.Length && !(dst <= k < dst + len) ==> buf[k] == old(buf[k])
  {
    if inTmp {
      assert buf[TMP2 + beg..TMP2 + beg + len] == buf[TMP2 + beg..TMP2 + beg + |rest|][..len];
      Move(buf, dst, TMP2 + beg, len);
    } else {
      assert path[beg..beg + len] == path[beg..][..len];
      CopyIn(buf, dst, path[beg..beg + len]);
    }
  }

  /** Append one component behind a slash and terminate it for `readlink`. */
  method AppendComponent(buf: array<char>, path: string, inTmp: bool, beg: nat, len: nat, res: nat, ghost rest: string)
    requires buf.Length == 3 * PATH_MAX && PointsAt(buf[..], path, inTmp, beg, rest)
    requires len <= |rest| && res + 1 + len + 1 < PATH_MAX
    modifies buf
    ensures buf[..res + 1 + len] == old(buf[..res]) + "/" + rest[..len] && buf[res + 1 + len] == '\0'
    ensures forall k :: TMP1 <= k < buf.Length ==> buf[k] == old(buf[k])
  {
    ghost var b := buf[..];
    buf[res] := '/';
    StillPointsAt(b, buf[..], path, inTmp, beg, rest);
    CopyComponent(buf, path, inTmp, beg, len, res + 1, rest);
    buf[res + 1 + len] := '\0';
    Appended(b, buf[..], res, rest[..len]);
  }

  lemma Appended(b: seq<char>, b': seq<char>, res: nat, c: string)
    requires res + 1 + |c| < |b| == |b'|
    requires forall k :: 0 <= k < res ==> b'[k] == b[k]
    requires b'[res] == '/' && b'[res + 1..res + 1 + |c|] == c
    ensures b'[..res + 1 + |c|] == b[..res] + "/" + c
  {
    assert b'[..res] == b[..res];
    assert b'[..res + 1 + |c|] == b'[..res] + [b'[res]] + b'[res + 1..res + 1 + |c|];
  }

  /** A link was found: its text, a slash and the unread path become the new
      unread path, even where the old one lies in the same region. */
  method SpliceLink(buf: array<char>, path: string, inTmp: bool, rel: nat, ghost rest: string, linklen: nat,
          rellen: nat)
    requires buf.Length == 3 * PATH_MAX && PointsAt(buf[..], path, inTmp, rel, rest)
    requires rellen == |rest| && linklen + 1 + rellen < PATH_MAX
    requires CString(buf[TMP1..TMP1 + linklen])
    modifies buf
    ensures PointsAt(buf[..], path, true, 0, old(buf[TMP1..TMP1 + linklen]) + "/" + rest)
    ensures forall k :: 0 <= k < TMP2 ==> buf[k] == old(buf[k])
  {
    ghost var link := buf[TMP1..TMP1 + linklen];
    MoveRest(buf, path, inTmp, rel, rest, linklen, rellen);
    ghost var moved := buf[..];
    buf[TMP2 + linklen] := '/';
    assert buf[TMP1..TMP1 + linklen] == link;
    Move(buf, TMP2, TMP1, linklen);
    Spliced(moved, buf[..], link, rest);
  }

  /** The unread path moves to where it leaves room for the link's text and a
      slash, even within its region. */
  method MoveRest(buf: array<char>, path: string, inTmp: bool, rel: nat, ghost rest: string, linklen: nat, rellen: nat)
    requires buf.Length == 3 * PATH_MAX && PointsAt(buf[..], path, inTmp, rel, rest)
    requires rellen == |rest| && linklen + 1 + rellen < PATH_MAX
    modifies buf
    ensures buf[TMP2 + linklen + 1..TMP2 + linklen + 1 + rellen + 1] == rest + ['\0']
    ensures forall k :: 0 <= k < TMP2 ==> buf[k] == old(buf[k])
  {
    if inTmp {
      assert buf[TMP2 + rel..TMP2 + rel + rellen + 1] == rest + ['\0'];
      Move(buf, TMP2 + linklen + 1, TMP2 + rel, rellen + 1);
    } else {
      CopyIn(buf, TMP2 + linklen + 1, path[rel..] + ['\0']);
    }
  }

  lemma Spliced(moved: seq<char>, b: seq<char>, link: string, rest: string)
    requires |moved| == |b| == 3 * PATH_MAX && |link| + 1 + |rest| < PATH_MAX
    requires CString(link) && CString(rest)
    requires moved[TMP2 + |link| + 1..TMP2 + |link| + 1 + |rest| + 1] == rest + ['\0']
    requires b[TMP2..TMP2 + |link|] == link && b[TMP2 + |link|] == '/'
    requires forall k :: TMP2 + |link| < k < |b| ==> b[k] == moved[k]
    ensures PointsAt(b, "", true, 0, link + "/" + rest)
  {
    var all := link + "/" + rest;
    assert b[TMP2 + |link| + 1..TMP2 + |link| + 1 + |rest| + 1] == rest + ['\0'];
    assert b[TMP2 + |all|] == (rest + ['\0'])[|rest|];
    assert b[TMP2 + |link| + 1..TMP2 + |all|] == (rest + ['\0'])[..|rest|];
    assert b[TMP2..TMP2 + |all|] == b[TMP2..TMP2 + |link|] + [b[TMP2 + |link|]] + b[TMP2 + |link| + 1..TMP2 + |all|];
  }

  // ----- The whole resolution ---------------------------------------------------

  /** Where the walk starts. A stored "/" is copied without a terminator before
      its second character is looked at, so a stale character makes the walk
      start from an empty component. */
  function Start(path: string, wd: WorkDir, cwd: CurrentDir, stale: bool): Outcome
    requires path != ""
  {
    if path[0] == '/' then Ok([])
    else
      match wd
      case Invalid => Fail(ENOENT)
      case Current =>
        (match cwd
         case NoDir(e) => Fail(e)
         case At(stack) => Ok(if Show(stack) == "/" then [] else stack))
      case Stored(stack) => Ok(if Show(stack) != "/" then stack else if stale then [""] else [])
  }

  function Resolution(fs: FileSystem, path: Option<string>, wd: WorkDir, cwd: CurrentDir, stale: bool): Outcome {
    if path.None? then Fail(EINVAL)
    else if path.value == "" then Fail(ENOENT)
    else
      match Start(path.value, wd, cwd, stale)
      case Fail(e) => Fail(e)
      case Ok(stack) => Walk(fs, stack, path.value, SYMLINKS)
  }

  /** Any C string that starts with a slash and fits in a region, cut at its
      slashes. */
  ghost predicate Nameable(stack: seq<string>) {
    Splittable(stack) && |Show(stack)| < PATH_MAX
  }

  /** With a stale character the result can begin with two slashes. */
  lemma StaleStartDoublesSlash(fs: FileSystem, root: seq<string>, cwd: CurrentDir)
    requires fs("//x") == Error(EINVAL) && Show(root) == "/"
    ensures Resolution(fs, Some("x"), Stored(root), cwd, true) == Ok(["", "x"])
    ensures Show(["", "x"]) == "//x"
  {
    RenderPush([], "");
    RenderPush([""], "x");
    RenderEmpty();
    hide Render, Walk;
    assert [] + [""] == [""] && [""] + ["x"] == ["", "x"];
    assert Render([""]) == "/" && Render(["", "x"]) == "//x";
    WalkOneComponent(fs, [""], "x", SYMLINKS);
  }

  /** The text is that of a canonical path: "/", or a chain of proper components. */
  ghost predicate CanonicalText(text: string) {
    exists stack :: Canonical(stack) && Show(stack) == text
  }

  /** What a caller can look at beforehand: a stored "/" has no stale character
      behind it, and other directories are canonical. */
  ghost predicate ProperStart(wd: WorkDir, cwd: CurrentDir, stale: bool) {
    match wd
    case Invalid => true
    case Current => cwd.At? ==> Show(cwd.stack) == "/" || Canonical(cwd.stack)
    case Stored(stack) => if Show(stack) == "/" then !stale else Canonical(stack)
  }

  /** A resolution of a relative path that succeeds. */
  ghost predicate Succeeds(fs: FileSystem, path: string, wd: WorkDir, cwd: CurrentDir, stale: bool) {
    && Sane(fs) && CString(path) && path != "" && path[0] != '/'
    && Resolution(fs, Some(path), wd, cwd, stale).Ok?
  }

  ghost predicate AlwaysCanonical(wd: WorkDir, cwd: CurrentDir, stale: bool) {
    forall fs: FileSystem, path: string :: Succeeds(fs, path, wd, cwd, stale) ==>
      CanonicalText(Show(Resolution(fs, Some(path), wd, cwd, stale).stack))
  }

  /** From given directories every relative path resolves to a canonical path, on
      every file system, if and only if the start is proper. */
  lemma CanonicalIffProperStart(wd: WorkDir, cwd: CurrentDir, stale: bool)
    requires wd.Stored? ==> Nameable(wd.stack)
    requires cwd.At? ==> Nameable(cwd.stack)
    ensures AlwaysCanonical(wd, cwd, stale) <==> ProperStart(wd, cwd, stale)
  {
    if ProperStart(wd, cwd, stale) {
      forall fs: FileSystem, path: string | Succeeds(fs, path, wd, cwd, stale)
        ensures CanonicalText(Show(Resolution(fs, Some(path), wd, cwd, stale).stack))
      {
        WalkKeepsCanonical(fs, Start(path, wd, cwd, stale).stack, path, SYMLINKS);
        assert Canonical(Resolution(fs, Some(path), wd, cwd, stale).stack);
      }
    } else if wd.Stored? && Show(wd.stack) == "/" {
      StaleStartDoublesSlash(NoLinks, wd.stack, cwd);
      DoubleSlashIsImproper();
      assert Succeeds(NoLinks, "x", wd, cwd, stale);
    } else {
      var start := if wd.Stored? then wd.stack else cwd.stack;
      DotResolves(start);
      assert Succeeds(NoLinks, ".", wd, cwd, stale);
      ImproperText(start);
    }
  }

  /** A file system without symbolic links. */
  function NoLinks(p: string): Link {
    Error(EINVAL)
  }

  lemma DotResolves(stack: seq<string>)
    ensures Walk(NoLinks, stack, ".", SYMLINKS) == Ok(stack)
  {
    ComponentLengthUnique(".", 1);
    assert "."[..1] == "." && "."[1..] == "";
    assert Walk(NoLinks, stack, "", SYMLINKS) == Ok(stack);
  }

  lemma DoubleSlashIsImproper()
    ensures !CanonicalText("//x")
  {
    RenderPush([""], "x");
    RenderPush([], "");
    assert [""] + ["x"] == ["", "x"] && [] + [""] == [""];
    assert !ProperComponent(["", "x"][0]);
    ImproperText(["", "x"]);
  }

  /** Components can be read off the text. */
  lemma ImproperText(stack: seq<string>)
    requires Splittable(stack) && !Canonical(stack) && Show(stack) != "/"
    ensures !CanonicalText(Show(stack))
  {
    ShowLength(stack);
    forall other | Canonical(other) && Show(other) == Show(stack)
      ensures false
    {
      ShowLength(other);
      assert Splittable(other) by {
        assert forall i :: 0 <= i < |other| ==> ProperComponent(other[i]);
      }
      RenderInjective(stack, other);
    }
  }

  lemma {:induction false} RenderInjective(a: seq<string>, b: seq<string>)
    requires Splittable(a) && Splittable(b) && Render(a) == Render(b)
    ensures a == b
  {
    ShowLength(a);
    ShowLength(b);
    if a != [] {
      var a', x, b', y := a[..|a| - 1], a[|a| - 1], b[..|b| - 1], b[|b| - 1];
      LastComponent(Render(a'), x, Render(b'), y);
      RenderInjective(a', b');
      assert a == a' + [x] && b == b' + [y];
    }
  }

  lemma LastComponent(a: string, x: string, b: string, y: string)
    requires a + "/" + x == b + "/" + y && '/' !in x && '/' !in y
    ensures a == b && x == y
  {
    var t := a + "/" + x;
    assert t[|a|] == '/' && t[|b|] == '/';
    assert |a| == |b|;
    assert t[..|a|] == a && t[..|b|] == b;
    assert t[|a| + 1..] == x && t[|b| + 1..] == y;
  }

  /** Every success from a proper start, itself free of links, is a canonical path
      free of links; for an absolute path no condition is needed, and resolving
      the result again gives it again. */
  lemma ResolutionIsCanonical(fs: FileSystem, path: string, wd: WorkDir, cwd: CurrentDir, stale: bool)
    requires Sane(fs) && CString(path) && Resolution(fs, Some(path), wd, cwd, stale).Ok?
    requires path[0] != '/' ==> ProperStart(wd, cwd, stale) && LinkFree(fs, Start(path, wd, cwd, stale).stack)
    ensures var r := Resolution(fs, Some(path), wd, cwd, stale).stack;
      && Canonical(r) && LinkFree(fs, r)
      && (path[0] == '/' ==> Fits(r) && Resolution(fs, Some(Show(r)), wd, cwd, stale) == Ok(r))
  {
    WalkEndsCanonical(fs, Start(path, wd, cwd, stale).stack, path, SYMLINKS);
    if path[0] == '/' {
      ResolutionIsIdempotent(fs, path, SYMLINKS, SYMLINKS);
      var r := Walk(fs, [], path, SYMLINKS).stack;
      if r != [] {
        RenderFirst(r);
      }
    }
  }

  /** Put the working directory at the start of the buffer. */
  method CopyWorkDir(buf: array<char>, wd: WorkDir, cwd: CurrentDir, path: string, ghost stale: bool)
    returns (res: int, errno: int, ghost stack: seq<string>)
    requires buf.Length == 3 * PATH_MAX && path != "" && path[0] != '/'
    requires wd.Stored? ==> Nameable(wd.stack)
    requires cwd.At? ==> Nameable(cwd.stack)
    requires stale == (buf[1] != '\0')
    modifies buf
    ensures match Start(path, wd, cwd, stale)
      case Fail(e) => res < 0 && errno == e
      case Ok(s) => s == stack && 0 <= res < PATH_MAX && buf[..res] == Render(stack) && Splittable(stack)
  {
    res, errno, stack := -1, ENOENT, [];
    var text: string;
    if wd.Invalid? {
      return;
    } else if wd.Current? {
      if cwd.NoDir? {
        errno := cwd.errno;
        return;
      }
      stack, text := cwd.stack, Show(cwd.stack);
      CopyIn(buf, 0, text + ['\0']);
      assert buf[..|text|] == (text + ['\0'])[..|text|];
      assert buf[|text|] == (text + ['\0'])[|text|];
    } else {
      stack, text := wd.stack, Show(wd.stack);
      CopyIn(buf, 0, text);
    }
    ShowBytes(stack, buf[..], text);
    if buf[1] != '\0' {
      res := |text|;
      if text == "/" {
        stack := [""];
      }
    } else {
      res := 0;
      stack := [];
    }
  }

  /** The second character tells "/" from all other directories, provided that
      "/" is terminated. */
  lemma ShowBytes(stack: seq<string>, b: seq<char>, text: string)
    requires Nameable(stack) && text == Show(stack) && |b| > PATH_MAX && b[..|text|] == text
    ensures text != "/" ==> Render(stack) == text && b[1] != '\0'
    ensures |text| > 0 && Render([""]) == "/"
  {
    assert [""][..0] == [];
    ShowLength(stack);
    if text != "/" {
      RenderIsCString(stack);
      RenderFirst(stack);
      assert text[0] == '/';
      assert |text| > 1 && b[..|text|][1] == text[1] && text[1] in text;
    }
  }

  lemma {:induction false} RenderIsCString(stack: seq<string>)
    requires Splittable(stack)
    ensures CString(Render(stack))
  {
    if stack != [] {
      RenderIsCString(stack[..|stack| - 1]);
    }
  }

  /** The state of the main loop stands for the rest of a walk. */
  ghost predicate Walking(buf: seq<char>, path: string, inTmp: bool, rel: nat, res: nat, stack: seq<string>,
          rest: string) {
    && |buf| == 3 * PATH_MAX
    && PointsAt(buf, path, inTmp, rel, rest)
    && res < PATH_MAX && buf[..res] == Render(stack) && Splittable(stack)
  }

  /** A component that is no link stays in the result. */
  lemma KeepComponent(b: seq<char>, b': seq<char>, path: string, inTmp: bool, beg: nat, res: nat,
          stack: seq<string>, rest: string, len: nat)
    requires Walking(b, path, inTmp, beg, res, stack, rest)
    requires len == ComponentLength(rest) && res + 1 + len + 1 < PATH_MAX && |b'| == |b|
    requires b'[..res + 1 + len] == b[..res] + "/" + rest[..len]
    requires forall k :: TMP2 <= k < |b| ==> b'[k] == b[k]
    ensures Walking(b', path, inTmp, beg + len, res + 1 + len, stack + [rest[..len]], rest[len..])
  {
    StillPointsAt(b, b', path, inTmp, beg, rest);
    Advance(b', path, inTmp, beg, rest, len);
    RenderPush(stack, rest[..len]);
  }

  /** What the resolver does with a component that is neither empty nor a dot. */
  lemma WalkEnters(fs: FileSystem, stack: seq<string>, rest: string, budget: nat, len: nat, c: string, tail: string)
    requires 0 < len == ComponentLength(rest) && c == rest[..len] && tail == rest[len..]
    requires c != "." && c != ".."
    ensures |Render(stack)| + 1 + len + 1 >= PATH_MAX ==> Walk(fs, stack, rest, budget) == Fail(ENAMETOOLONG)
    ensures |Render(stack)| + 1 + len + 1 < PATH_MAX ==>
      var link := fs(Render(stack) + "/" + c);
      && (link.Error? && link.errno != EINVAL ==> Walk(fs, stack, rest, budget) == Fail(link.errno))
      && (link.Error? && link.errno == EINVAL ==> Walk(fs, stack, rest, budget) == Walk(fs, stack + [c], tail, budget))
      && (link.Target? ==> Walk(fs, stack, rest, budget) == Followed(fs, stack, link.text, tail, budget))
  {
    RenderPush(stack, c);
  }

  /** The walk after a link with text `t`. */
  ghost function Followed(fs: FileSystem, stack: seq<string>, t: string, tail: string, budget: nat): Outcome {
    if |t| + 1 + |tail| >= PATH_MAX then Fail(ENAMETOOLONG)
    else if budget <= 1 then Fail(ELOOP)
    else Walk(fs, if t != "" && t[0] == '/' then [] else stack, Joined(t, tail), budget - 1)
  }

  /** The link branch of the main loop. */
  method Follow(buf: array<char>, fs: FileSystem, path: string, inTmp: bool, rel: nat, res0: nat,
          symlinks0: nat, linklen: nat, ghost t: string, ghost stack0: seq<string>, ghost tail: string)
    returns (failed: bool, errno: int, res: nat, symlinks: nat, ghost stack: seq<string>)
    requires buf.Length == 3 * PATH_MAX && symlinks0 >= 1
    requires Walking(buf[..], path, inTmp, rel, res0, stack0, tail)
    requires t != "" && CString(t) && linklen == (if |t| < PATH_MAX then |t| else PATH_MAX)
    requires buf[TMP1..TMP1 + linklen] == t[..linklen]
    modifies buf
    ensures failed ==> Followed(fs, stack0, t, tail, symlinks0) == Fail(errno)
    ensures !failed ==>
      && Walk(fs, stack, Joined(t, tail), symlinks) == Followed(fs, stack0, t, tail, symlinks0)
      && 1 <= symlinks < symlinks0
      && Walking(buf[..], path, true, 0, res, stack, Joined(t, tail))
  {
    hide Walk, Render;
    res, symlinks, stack := res0, symlinks0, stack0;
    var rellen := RestLength(buf, path, inTmp, rel, tail);
    if linklen + 1 + rellen >= PATH_MAX {
      return true, ENAMETOOLONG, res, symlinks, stack;
    }
    assert t[..linklen] == t;
    symlinks := symlinks - 1;
    if symlinks == 0 {
      return true, ELOOP, res, symlinks, stack;
    }
    assert buf[TMP1] == buf[TMP1..TMP1 + linklen][0];
    if buf[TMP1] == '/' {
      res, stack := 0, [];
      ShowLength([]);
    }
    assert buf[..res] == Render(stack);
    SpliceLink(buf, path, inTmp, rel, tail, linklen, rellen);
    assert buf[..res] == Render(stack);
    failed, errno := false, 0;
  }

  /** One turn of the main loop on a component that is neither empty nor a dot:
      append it and, when it is a link, put the link's text before the unread
      path. */
  method Enter(buf: array<char>, fs: FileSystem, path: string, inTmp0: bool, beg: nat, len: nat, res0: nat,
          symlinks0: nat, ghost stack0: seq<string>, ghost rest0: string)
    returns (failed: bool, errno: int, res: nat, inTmp: bool, rel: nat, symlinks: nat,
          ghost stack: seq<string>, ghost rest: string)
    requires buf.Length == 3 * PATH_MAX && Sane(fs) && symlinks0 >= 1
    requires Walking(buf[..], path, inTmp0, beg, res0, stack0, rest0)
    requires 0 < len == ComponentLength(rest0) && rest0[..len] != "." && rest0[..len] != ".."
    modifies buf
    ensures failed ==> Walk(fs, stack0, rest0, symlinks0) == Fail(errno)
    ensures !failed ==>
      && Walk(fs, stack, rest, symlinks) == Walk(fs, stack0, rest0, symlinks0)
      && 1 <= symlinks <= symlinks0 && (symlinks == symlinks0 ==> |rest| < |rest0|)
      && Walking(buf[..], path, inTmp, rel, res, stack, rest)
  {
    hide Walk, Render;
    ghost var c, tail := rest0[..len], rest0[len..];
    failed, errno := true, ENAMETOOLONG;
    res, inTmp, rel, symlinks, stack, rest := res0, inTmp0, beg + len, symlinks0, stack0, tail;
    WalkEnters(fs, stack0, rest0, symlinks0, len, c, tail);
    if res + 1 + len + 1 >= TMP1 {
      return;
    }
    ghost var b := buf[..];
    AppendComponent(buf, path, inTmp, beg, len, res, rest0);
    ghost var name := Render(stack0) + "/" + c;
    NameIsCString(stack0, rest0, len);
    assert buf[..|name|] == name;
    var linklen, e := ReadLink(buf, fs, name);
    assert buf[..|name|] == name;
    KeepComponent(b, buf[..], path, inTmp, beg, res, stack0, rest0, len);
    if linklen < 0 {
      if e != EINVAL {
        errno := e;
        return;
      }
      failed, stack, res := false, stack0 + [c], res + 1 + len;
    } else {
      LinkComponent(buf[..], path, inTmp, rel, res, stack0, tail, name, c);
      failed, errno, res, symlinks, stack :=
        Follow(buf, fs, path, inTmp, rel, res, symlinks, linklen, fs(name).text, stack0, tail);
      inTmp, rel, rest := true, 0, Joined(fs(name).text, tail);
    }
  }

  lemma NameIsCString(stack: seq<string>, rest: string, len: nat)
    requires Splittable(stack) && CString(rest) && len <= |rest|
    ensures CString(Render(stack) + "/" + rest[..len])
  {
    RenderIsCString(stack);
  }

  /** A component that is a link is dropped again. */
  lemma LinkComponent(b: seq<char>, path: string, inTmp: bool, rel: nat, res: nat, stack: seq<string>,
          tail: string, name: string, c: string)
    requires |b| == 3 * PATH_MAX && name == Render(stack) + "/" + c && res == |Render(stack)| && |name| <= |b|
    requires b[..|name|] == name && Walking(b, path, inTmp, rel, |name|, stack + [c], tail)
    ensures Walking(b, path, inTmp, rel, res, stack, tail)
  {
    assert b[..res] == b[..|name|][..res];
    assert forall i :: 0 <= i < |stack| ==> stack[i] == (stack + [c])[i];
  }

  /** `eio__realpath`: the length of the resolved path at the start of the
      buffer, or -1 and an error. */
  method RealPath(buf: array<char>, fs: FileSystem, path: Option<string>, wd: WorkDir, cwd: CurrentDir)
    returns (r: int, errno: int)
    requires buf.Length == 3 * PATH_MAX && Sane(fs)
    requires path.Some? ==> CString(path.value)
    requires wd.Stored? ==> Nameable(wd.stack)
    requires cwd.At? ==> Nameable(cwd.stack)
    modifies buf
    ensures match Resolution(fs, path, wd, cwd, old(buf[1]) != '\0')
      case Fail(e) => r == -1 && errno == e
      case Ok(stack) => 0 < r <= PATH_MAX && buf[..r] == Show(stack)
  {
    r, errno := -1, EINVAL;
    if path.None? {
      return;
    }
    errno := ENOENT;
    if path.value == "" {
      return;
    }
    var res: int := 0;
    ghost var stack: seq<string> := [];
    if path.value[0] != '/' {
      var e;
      res, e, stack := CopyWorkDir(buf, wd, cwd, path.value, buf[1] != '\0');
      if res < 0 {
        errno := e;
        return;
      }
    }
    r, errno := Loop(buf, fs, path.value, res, stack);
  }

  /** What the resolver does with the end of the path, a slash, "." and "..". */
  lemma WalkStep(fs: FileSystem, stack: seq<string>, rest: string, budget: nat)
    ensures rest == "" ==> Walk(fs, stack, rest, budget) == Ok(stack)
    ensures rest != "" ==>
      var len := ComponentLength(rest);
      && (len == 0 ==> Walk(fs, stack, rest, budget) == Walk(fs, stack, rest[1..], budget))
      && (rest[..len] == "." ==> Walk(fs, stack, rest, budget) == Walk(fs, stack, rest[len..], budget))
      && (rest[..len] == ".." ==> Walk(fs, stack, rest, budget) == Walk(fs, Pop(stack), rest[len..], budget))
  {
  }

  lemma WalkOn(buf: seq<char>, path: string, inTmp: bool, rel: nat, res: nat, stack: seq<string>, rest: string, n: nat)
    requires Walking(buf, path, inTmp, rel, res, stack, rest) && n <= |rest|
    ensures Walking(buf, path, inTmp, rel + n, res, stack, rest[n..])
  {
    Advance(buf, path, inTmp, rel, rest, n);
  }

  /** How the loop reads its component: by its first two characters and its
      length. */
  method IsDots(buf: array<char>, path: string, inTmp: bool, beg: nat, len: nat, ghost rest: string)
    returns (dots: nat)
    requires buf.Length == 3 * PATH_MAX && PointsAt(buf[..], path, inTmp, beg, rest)
    requires 0 < len <= |rest|
    ensures dots == if rest[..len] == "." then 1 else if rest[..len] == ".." then 2 else 0
  {
    dots := 0;
    var c := CharAt(buf, path, inTmp, beg, rest);
    if c == '.' {
      if len == 1 {
        dots := 1;
      } else {
        Advance(buf[..], path, inTmp, beg, rest, 1);
        var c' := CharAt(buf, path, inTmp, beg + 1, rest[1..]);
        if c' == '.' && len == 2 {
          dots := 2;
        }
      }
    }
  }

  /** The main loop over the components of the unread path. */
  method Loop(buf: array<char>, fs: FileSystem, path: string, res0: nat, ghost stack0: seq<string>)
    returns (r: int, errno: int)
    requires buf.Length == 3 * PATH_MAX && Sane(fs) && CString(path)
    requires res0 < PATH_MAX && buf[..res0] == Render(stack0) && Splittable(stack0)
    modifies buf
    ensures match Walk(fs, stack0, path, SYMLINKS)
      case Fail(e) => r == -1 && errno == e
      case Ok(stack) => 0 < r <= PATH_MAX && buf[..r] == Show(stack)
  {
    hide Walk, Render, Sane;
    var res, inTmp, rel, symlinks := res0, false, 0, SYMLINKS;
    ghost var stack, rest := stack0, path;
    while true
      invariant symlinks >= 1
      invariant Walking(buf[..], path, inTmp, rel, res, stack, rest)
      invariant Walk(fs, stack, rest, symlinks) == Walk(fs, stack0, path, SYMLINKS)
      decreases symlinks, |rest|
    {
      WalkStep(fs, stack, rest, symlinks);
      var ch := CharAt(buf, path, inTmp, rel, rest);
      if ch == '\0' {
        break;
      }
      var len := ScanComponent(buf, path, inTmp, rel, rest);
      if len == 0 {
        WalkOn(buf[..], path, inTmp, rel, res, stack, rest, 1);
        rel, rest := rel + 1, rest[1..];
        continue;
      }
      var dots := IsDots(buf, path, inTmp, rel, len, rest);
      if dots == 0 {
        var failed, e;
        failed, e, res, inTmp, rel, symlinks, stack, rest :=
          Enter(buf, fs, path, inTmp, rel, len, res, symlinks, stack, rest);
        if failed {
          return -1, e;
        }
      } else {
        WalkOn(buf[..], path, inTmp, rel, res, stack, rest, len);
        rel, rest := rel + len, rest[len..];
        if dots == 2 {
          res := BackUp(buf, res, stack);
          stack := Pop(stack);
        }
      }
    }
    ShowLength(stack);
    if res == 0 {
      buf[0] := '/';
      res := 1;
    }
    r, errno := res, 0;
  }

  lemma ShowLength(stack: seq<string>)
    ensures stack == [] <==> Render(stack) == ""
    ensures stack != [] ==> Show(stack) == Render(stack)
  {
  }
}
