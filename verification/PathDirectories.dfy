/** What pathname resolution asks of components that are not directories (section
    4.13 of IEEE Std 1003.1-2017), and where `eio__realpath`, which asks only
    `readlink`, lets one pass. */
module PathDirectories {
  import opened PathSpec

  const ENOTDIR := 20

  /** Whether a path that is no link is a directory. */
  type DirectoryTest = string -> bool

  /** `readlink` looks up nothing below what is not a directory. */
  ghost predicate Consistent(fs: FileSystem, dir: DirectoryTest) {
    forall p: string, c: string :: fs(p) == Error(EINVAL) && !dir(p) && ProperComponent(c) ==>
      fs(p + "/" + c) == Error(ENOTDIR)
  }

  predicate EndsInSlash(path: string) {
    path != "" && path[|path| - 1] == '/'
  }

  /** The resolver of the standard: what stays in the result has to be a directory
      if another component follows it, "." and ".." included, or a slash at the
      very end, which a link in last place may bring in. */
  function ResolveDirs(fs: FileSystem, dir: DirectoryTest, stack: seq<string>, todo: seq<string>, slash: bool,
          budget: nat): Outcome
    decreases budget, |todo|
  {
    if todo == [] then Ok(stack)
    else
      var c, tail := todo[0], todo[1..];
      if c == "." then ResolveDirs(fs, dir, stack, tail, slash, budget)
      else if c == ".." then ResolveDirs(fs, dir, Pop(stack), tail, slash, budget)
      else
        match fs(Render(stack + [c]))
        case Error(e) =>
          if e != EINVAL then Fail(e)
          else if !dir(Render(stack + [c])) && (tail != [] || slash) then Fail(ENOTDIR)
          else ResolveDirs(fs, dir, stack + [c], tail, slash, budget)
        case Target(t) =>
          if budget <= 1 then Fail(ELOOP)
          else
            ResolveDirs(fs, dir, if t != "" && t[0] == '/' then [] else stack, Components(t) + tail,
                        slash || (tail == [] && EndsInSlash(t)), budget - 1)
  }

  function DropDots(todo: seq<string>): (r: seq<string>)
    ensures |r| <= |todo| && (r != [] ==> r[0] != ".")
  {
    if todo != [] && todo[0] == "." then DropDots(todo[1..]) else todo
  }

  /** Where resolution first goes on from a component that is not a directory
      without `readlink` being asked about what is below it. */
  datatype Misstep =
    | Nowhere
    | AtEnd                                                    // only "." or a slash is behind it
    | BackUp(stack: seq<string>, todo: seq<string>, budget: nat) // ".." is: where that leads, and what follows

  ghost function FirstMisstep(fs: FileSystem, dir: DirectoryTest, stack: seq<string>, todo: seq<string>, slash: bool,
          budget: nat): Misstep
    decreases budget, |todo|
  {
    if todo == [] then Nowhere
    else
      var c, tail := todo[0], todo[1..];
      if c == "." then FirstMisstep(fs, dir, stack, tail, slash, budget)
      else if c == ".." then FirstMisstep(fs, dir, Pop(stack), tail, slash, budget)
      else
        match fs(Render(stack + [c]))
        case Error(e) =>
          if e != EINVAL then Nowhere
          else if !dir(Render(stack + [c])) && (tail != [] || slash) then
            var behind := DropDots(tail);
            if behind == [] then AtEnd else if behind[0] == ".." then BackUp(stack, behind[1..], budget) else Nowhere
          else FirstMisstep(fs, dir, stack + [c], tail, slash, budget)
        case Target(t) =>
          if budget <= 1 then Nowhere
          else
            FirstMisstep(fs, dir, if t != "" && t[0] == '/' then [] else stack, Components(t) + tail,
                         slash || (tail == [] && EndsInSlash(t)), budget - 1)
  }

  ghost predicate Proper(todo: seq<string>) {
    forall i :: 0 <= i < |todo| ==> todo[i] == "." || todo[i] == ".." || ProperComponent(todo[i])
  }

  lemma {:induction false} ComponentsAreProper(s: string)
    requires CString(s)
    ensures Proper(Components(s))
    decreases |s|
  {
    if s != "" {
      var len := ComponentLength(s);
      if len == 0 {
        ComponentsAreProper(s[1..]);
      } else {
        ComponentsAreProper(s[len..]);
        assert '\0' !in s[..len];
      }
    }
  }

  lemma {:induction false} ResolveDropsDots(fs: FileSystem, stack: seq<string>, todo: seq<string>, budget: nat)
    ensures Resolve(fs, stack, todo, budget) == Resolve(fs, stack, DropDots(todo), budget)
    ensures forall x :: x in DropDots(todo) ==> x in todo
  {
    if todo != [] && todo[0] == "." {
      ResolveDropsDots(fs, stack, todo[1..], budget);
    }
  }

  /** Where something else follows what is not a directory, `readlink` notices. */
  lemma NextIsRefused(fs: FileSystem, dir: DirectoryTest, stack: seq<string>, todo: seq<string>, budget: nat)
    requires Consistent(fs, dir) && Proper(todo)
    requires fs(Render(stack)) == Error(EINVAL) && !dir(Render(stack))
    requires DropDots(todo) != [] && DropDots(todo)[0] != ".."
    ensures Resolve(fs, stack, todo, budget) == Fail(ENOTDIR)
  {
    ResolveDropsDots(fs, stack, todo, budget);
    var c := DropDots(todo)[0];
    assert c in todo;
    RenderPush(stack, c);
    assert fs(Render(stack) + "/" + c) == Error(ENOTDIR);
  }

  /** Without a misstep resolution is that of the standard. */
  lemma {:induction false} NoMisstep(fs: FileSystem, dir: DirectoryTest, stack: seq<string>, todo: seq<string>,
          slash: bool, budget: nat)
    requires Sane(fs) && Consistent(fs, dir) && Proper(todo)
    requires FirstMisstep(fs, dir, stack, todo, slash, budget) == Nowhere
    ensures Resolve(fs, stack, todo, budget) == ResolveDirs(fs, dir, stack, todo, slash, budget)
    decreases budget, |todo|
  {
    if todo != [] {
      var c, tail := todo[0], todo[1..];
      if c == "." {
        NoMisstep(fs, dir, stack, tail, slash, budget);
      } else if c == ".." {
        NoMisstep(fs, dir, Pop(stack), tail, slash, budget);
      } else {
        var link := fs(Render(stack + [c]));
        if link.Error? {
          if link.errno == EINVAL {
            if !dir(Render(stack + [c])) && (tail != [] || slash) {
              NextIsRefused(fs, dir, stack + [c], tail, budget);
            } else {
              NoMisstep(fs, dir, stack + [c], tail, slash, budget);
            }
          }
        } else if budget > 1 {
          ComponentsAreProper(link.text);
          NoMisstep(fs, dir, if link.text != "" && link.text[0] == '/' then [] else stack, Components(link.text) + tail,
                    slash || (tail == [] && EndsInSlash(link.text)), budget - 1);
        }
      }
    }
  }

  /** With one, the standard demands an error. */
  lemma {:induction false} MisstepIsRefused(fs: FileSystem, dir: DirectoryTest, stack: seq<string>, todo: seq<string>,
          slash: bool, budget: nat)
    requires FirstMisstep(fs, dir, stack, todo, slash, budget) != Nowhere
    ensures ResolveDirs(fs, dir, stack, todo, slash, budget) == Fail(ENOTDIR)
    decreases budget, |todo|
  {
    var c, tail := todo[0], todo[1..];
    if c == "." {
      MisstepIsRefused(fs, dir, stack, tail, slash, budget);
    } else if c == ".." {
      MisstepIsRefused(fs, dir, Pop(stack), tail, slash, budget);
    } else {
      var link := fs(Render(stack + [c]));
      if link.Target? {
        MisstepIsRefused(fs, dir, if link.text != "" && link.text[0] == '/' then [] else stack,
                         Components(link.text) + tail, slash || (tail == [] && EndsInSlash(link.text)), budget - 1);
      } else if dir(Render(stack + [c])) || (tail == [] && !slash) {
        MisstepIsRefused(fs, dir, stack + [c], tail, slash, budget);
      }
    }
  }

  /** With one the implementation succeeds at the end of the path, and otherwise
      goes on behind "..", as if the component had been a directory. */
  lemma {:induction false} MisstepPasses(fs: FileSystem, dir: DirectoryTest, stack: seq<string>, todo: seq<string>,
          slash: bool, budget: nat)
    ensures match FirstMisstep(fs, dir, stack, todo, slash, budget)
            case Nowhere => true
            case AtEnd => Resolve(fs, stack, todo, budget).Ok?
            case BackUp(st, td, b) => Resolve(fs, stack, todo, budget) == Resolve(fs, st, td, b)
    decreases budget, |todo|
  {
    if todo != [] {
      var c, tail := todo[0], todo[1..];
      if c == "." {
        MisstepPasses(fs, dir, stack, tail, slash, budget);
      } else if c == ".." {
        MisstepPasses(fs, dir, Pop(stack), tail, slash, budget);
      } else {
        var link := fs(Render(stack + [c]));
        if link.Target? {
          if budget > 1 {
            MisstepPasses(fs, dir, if link.text != "" && link.text[0] == '/' then [] else stack,
                          Components(link.text) + tail, slash || (tail == [] && EndsInSlash(link.text)), budget - 1);
          }
        } else if link.errno == EINVAL {
          if !dir(Render(stack + [c])) && (tail != [] || slash) {
            ResolveDropsDots(fs, stack + [c], tail, budget);
            assert Pop(stack + [c]) == stack;
          } else {
            MisstepPasses(fs, dir, stack + [c], tail, slash, budget);
          }
        }
      }
    }
  }

  /** As long as all lengths fit, the implementation agrees with the standard if
      and only if it makes no misstep, or one by ".." with a path behind it that
      leads to the same error. After a misstep at the end it never agrees. */
  lemma WalkIsStandardIff(fs: FileSystem, dir: DirectoryTest, stack: seq<string>, path: string, budget: nat)
    requires Sane(fs) && Consistent(fs, dir) && CString(path) && LengthsFit(fs, stack, path, budget)
    ensures var code, standard := Walk(fs, stack, path, budget),
          ResolveDirs(fs, dir, stack, Components(path), EndsInSlash(path), budget);
      match FirstMisstep(fs, dir, stack, Components(path), EndsInSlash(path), budget)
      case Nowhere => code == standard
      case AtEnd => code.Ok? && standard == Fail(ENOTDIR)
      case BackUp(st, td, b) =>
        standard == Fail(ENOTDIR) && (code == standard <==> Resolve(fs, st, td, b) == Fail(ENOTDIR))
  {
    WalkIsResolve(fs, stack, path, budget);
    var todo, slash := Components(path), EndsInSlash(path);
    if FirstMisstep(fs, dir, stack, todo, slash, budget) == Nowhere {
      ComponentsAreProper(path);
      NoMisstep(fs, dir, stack, todo, slash, budget);
    } else {
      MisstepIsRefused(fs, dir, stack, todo, slash, budget);
      MisstepPasses(fs, dir, stack, todo, slash, budget);
    }
  }

  /** A file system that holds one regular file, "/f". */
  function OneFile(p: string): Link {
    Error(if p == "/f" then EINVAL else if |p| > 3 && p[..3] == "/f/" then ENOTDIR else ENOENT)
  }

  function NoDirectory(p: string): bool {
    false
  }

  lemma OneFileIsConsistent()
    ensures Sane(OneFile) && Consistent(OneFile, NoDirectory)
  {
    forall p: string, c: string | OneFile(p) == Error(EINVAL) && ProperComponent(c)
      ensures OneFile(p + "/" + c) == Error(ENOTDIR)
    {
      assert (p + "/" + c)[..3] == "/f/";
    }
  }

  lemma BelowFile(s: string)
    requires s != "" && s[0] == '/'
    ensures Components("/f" + s) == ["f"] + Components(s[1..])
  {
    var a := "f" + s;
    assert ("/f" + s)[0] == '/' && ("/f" + s)[1..] == a;
    assert a[1..] == s && a[..1] == "f";
    ComponentLengthUnique("/f" + s, 0);
    SkipSlash("/f" + s);
    ComponentLengthUnique(a, 1);
    SplitComponent(a, 1);
    ComponentLengthUnique(s, 0);
    SkipSlash(s);
  }

  lemma SingleComponent(c: string)
    requires c != "" && '/' !in c
    ensures Components(c) == [c]
  {
    ComponentLengthUnique(c, |c|);
    assert c[..|c|] == c && c[|c|..] == "";
    EmptyComponents();
    SplitComponent(c, |c|);
  }

  lemma AtFile(tail: seq<string>, slash: bool, budget: nat)
    requires tail != [] || slash
    ensures Resolve(OneFile, [], ["f"] + tail, budget) == Resolve(OneFile, ["f"], tail, budget)
    ensures ResolveDirs(OneFile, NoDirectory, [], ["f"] + tail, slash, budget) == Fail(ENOTDIR)
  {
    RenderPush([], "f");
    assert [] + ["f"] == ["f"] && (["f"] + tail)[1..] == tail;
  }

  lemma ShortPathFits(budget: nat)
    ensures LengthsFit(OneFile, [], "/f" + "/.", budget)
  {
    hide Render;
    RenderPush([], "f");
    RenderEmpty();
    assert [] + ["f"] == ["f"];
    ComponentLengthUnique("/f/.", 0);
    ComponentLengthUnique("f/.", 1);
    ComponentLengthUnique("/.", 0);
    ComponentLengthUnique(".", 1);
    assert "/f/."[1..] == "f/." && "f/."[..1] == "f" && "f/."[1..] == "/.";
    assert "/."[1..] == "." && "."[..1] == "." && "."[1..] == "";
    assert LengthsFit(OneFile, ["f"], ".", budget);
    assert LengthsFit(OneFile, ["f"], "/.", budget);
    assert LengthsFit(OneFile, [], "f/.", budget);
    assert "/f" + "/." == "/f/.";
    assert LengthsFit(OneFile, [], "/f/.", budget);
  }

  /** "/f/.", "/f/" and "/f/.." resolve, although "/f" is a regular file. */
  lemma FilePassesForDirectory(budget: nat)
    ensures Walk(OneFile, [], "/f" + "/.", budget) == Ok(["f"])
    ensures Resolve(OneFile, [], Components("/f" + "/."), budget) == Ok(["f"])
    ensures Resolve(OneFile, [], Components("/f" + "/"), budget) == Ok(["f"])
    ensures Resolve(OneFile, [], Components("/f" + "/.."), budget) == Ok([])
    ensures ResolveDirs(OneFile, NoDirectory, [], Components("/f" + "/."), false, budget) == Fail(ENOTDIR)
    ensures ResolveDirs(OneFile, NoDirectory, [], Components("/f" + "/"), true, budget) == Fail(ENOTDIR)
    ensures ResolveDirs(OneFile, NoDirectory, [], Components("/f" + "/.."), false, budget) == Fail(ENOTDIR)
  {
    hide Components, ResolveDirs, Render, Walk, LengthsFit;
    ShortPathFits(budget);
    WalkIsResolve(OneFile, [], "/f" + "/.", budget);
    BelowFile("/.");
    BelowFile("/");
    BelowFile("/..");
    SingleComponent(".");
    SingleComponent("..");
    EmptyComponents();
    assert "/."[1..] == "." && "/"[1..] == "" && "/.."[1..] == "..";
    AtFile(["."], false, budget);
    AtFile([], true, budget);
    AtFile([".."], false, budget);
  }
}
