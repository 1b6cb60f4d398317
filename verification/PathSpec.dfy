/** Pathname resolution as `eio__realpath` performs it (libeio/eio.c), on
    strings and a stack of components. Section 4.13 of IEEE Std 1003.1-2017 asks
    for more, as `PathDirectories` shows. */
module PathSpec {

  const PATH_MAX := 4096
  /** How many symbolic links one resolution may follow, plus one. */
  const SYMLINKS := 32

  const ENOENT := 2
  const EINVAL := 22
  const ENAMETOOLONG := 36
  const ELOOP := 40

  /** What `readlink` says about a path; `Error(EINVAL)` means that the path is
      there but not a symbolic link. */
  datatype Link = Target(text: string) | Error(errno: int)

  type FileSystem = string -> Link

  predicate CString(s: string) {
    '\0' !in s
  }

  /** Link texts are non-empty C strings. */
  ghost predicate Sane(fs: FileSystem) {
    forall p: string :: fs(p).Target? ==> fs(p).text != "" && CString(fs(p).text)
  }

  datatype Outcome = Ok(stack: seq<string>) | Fail(errno: int)

  /** The absolute path of a component stack, empty for the root. */
  function Render(stack: seq<string>): string {
    if stack == [] then "" else Render(stack[..|stack| - 1]) + "/" + stack[|stack| - 1]
  }

  /** The path as reported to the caller. */
  function Show(stack: seq<string>): string {
    if stack == [] then "/" else Render(stack)
  }

  function Pop(stack: seq<string>): seq<string> {
    if stack == [] then [] else stack[..|stack| - 1]
  }

  /** The length of what comes before the first slash. */
  function ComponentLength(s: string): (n: nat)
    ensures n <= |s|
    ensures '/' !in s[..n]
    ensures n < |s| ==> s[n] == '/'
  {
    if s == "" || s[0] == '/' then 0 else 1 + ComponentLength(s[1..])
  }

  /** A link's text in front of the path that is still unread. */
  function Joined(a: string, b: string): string {
    a + "/" + b
  }

  /** Resolution of the unread path `rest` from the directory `stack`, with all
      the limits of the implementation. */
  function Walk(fs: FileSystem, stack: seq<string>, rest: string, budget: nat): Outcome
    decreases budget, |rest|
  {
    if rest == "" then Ok(stack)
    else
      var len := ComponentLength(rest);
      var c, tail := rest[..len], rest[len..];
      if len == 0 then Walk(fs, stack, rest[1..], budget)
      else if c == "." then Walk(fs, stack, tail, budget)
      else if c == ".." then Walk(fs, Pop(stack), tail, budget)
      else if |Render(stack)| + 1 + len + 1 >= PATH_MAX then Fail(ENAMETOOLONG)
      else
        match fs(Render(stack + [c]))
        case Error(e) => if e != EINVAL then Fail(e) else Walk(fs, stack + [c], tail, budget)
        case Target(t) =>
          if |Joined(t, tail)| >= PATH_MAX then Fail(ENAMETOOLONG)
          else if budget <= 1 then Fail(ELOOP)
          else Walk(fs, if t != "" && t[0] == '/' then [] else stack, Joined(t, tail), budget - 1)
  }

  // ----- The ideal resolver --------------------------------------------------

  /** The components of a path, empty ones dropped. */
  function Components(s: string): seq<string>
    decreases |s|
  {
    if s == "" then []
    else
      var len := ComponentLength(s);
      if len == 0 then Components(s[1..]) else [s[..len]] + Components(s[len..])
  }

  /** Resolution without limits on lengths. */
  function Resolve(fs: FileSystem, stack: seq<string>, todo: seq<string>, budget: nat): Outcome
    decreases budget, |todo|
  {
    if todo == [] then Ok(stack)
    else
      var c, tail := todo[0], todo[1..];
      if c == "." then Resolve(fs, stack, tail, budget)
      else if c == ".." then Resolve(fs, Pop(stack), tail, budget)
      else
        match fs(Render(stack + [c]))
        case Error(e) => if e != EINVAL then Fail(e) else Resolve(fs, stack + [c], tail, budget)
        case Target(t) =>
          if budget <= 1 then Fail(ELOOP)
          else Resolve(fs, if t != "" && t[0] == '/' then [] else stack, Components(t) + tail, budget - 1)
  }

  lemma {:induction false} ComponentLengthUnique(s: string, n: nat)
    requires n <= |s| && '/' !in s[..n] && (n < |s| ==> s[n] == '/')
    ensures ComponentLength(s) == n
  {
    if n > 0 {
      assert s[0] == s[..n][0];
      assert s[1..][..n - 1] == s[..n][1..];
      ComponentLengthUnique(s[1..], n - 1);
    }
  }

  /** What is before the first slash does not depend on what is behind it. */
  lemma LengthBeforeSlash(a: string, b: string)
    ensures ComponentLength(Joined(a, b)) == ComponentLength(a)
  {
    var s, len := Joined(a, b), ComponentLength(a);
    assert s[..len] == a[..len];
    ComponentLengthUnique(s, len);
  }

  lemma SkipSlash(s: string)
    requires s != "" && ComponentLength(s) == 0
    ensures Components(s) == Components(s[1..])
  {
  }

  lemma SplitComponent(s: string, len: nat)
    requires 0 < len <= |s| && ComponentLength(s) == len
    ensures Components(s) == [s[..len]] + Components(s[len..])
  {
  }

  lemma JoinedDrop(a: string, b: string, n: nat)
    requires n <= |a|
    ensures |Joined(a, b)| > n && Joined(a, b)[..n] == a[..n] && Joined(a, b)[n..] == Joined(a[n..], b)
  {
  }

  lemma JoinedEmpty(b: string)
    ensures Joined("", b) == "/" + b && Joined("", b)[1..] == b
  {
  }

  lemma EmptyComponents()
    ensures ComponentLength("") == 0 && Components("") == []
  {
  }

  /** A slash between two paths separates their components. */
  lemma {:induction false} ComponentsJoin(a: string, b: string)
    ensures Components(Joined(a, b)) == Components(a) + Components(b)
    decreases |a|
  {
    hide ComponentLength, Components, Joined;
    var s, len := Joined(a, b), ComponentLength(a);
    LengthBeforeSlash(a, b);
    EmptyComponents();
    JoinedDrop(a, b, len);
    if a == "" {
      JoinedEmpty(b);
      SkipSlash(s);
    } else if len == 0 {
      JoinedDrop(a, b, 1);
      ComponentsJoin(a[1..], b);
      SkipSlash(a);
      SkipSlash(s);
    } else {
      ComponentsJoin(a[len..], b);
      SplitComponent(a, len);
      SplitComponent(s, len);
    }
  }

  /** Every name that is looked up fits in the first region with two characters to
      spare, and every path with a link's text before it fits in the third. */
  ghost predicate LengthsFit(fs: FileSystem, stack: seq<string>, rest: string, budget: nat)
    decreases budget, |rest|
  {
    if rest == "" then true
    else
      var len := ComponentLength(rest);
      var c, tail := rest[..len], rest[len..];
      if len == 0 then LengthsFit(fs, stack, rest[1..], budget)
      else if c == "." then LengthsFit(fs, stack, tail, budget)
      else if c == ".." then LengthsFit(fs, Pop(stack), tail, budget)
      else
        && |Render(stack + [c])| + 1 < PATH_MAX
        && var link := fs(Render(stack + [c]));
        if link.Error? then link.errno == EINVAL ==> LengthsFit(fs, stack + [c], tail, budget)
        else
          && |Joined(link.text, tail)| < PATH_MAX
          && (budget > 1 ==>
                LengthsFit(fs, if link.text != "" && link.text[0] == '/' then [] else stack, Joined(link.text, tail),
                           budget - 1))
  }

  lemma RenderEmpty()
    ensures Render([]) == ""
  {
  }

  lemma RenderPush(stack: seq<string>, c: string)
    ensures Render(stack + [c]) == Render(stack) + "/" + c
  {
    assert (stack + [c])[..|stack|] == stack;
  }

  /** The implementation's resolver is the ideal one as long as all lengths fit;
      otherwise it reports a name that is too long. */
  lemma {:induction false} WalkIsResolve(fs: FileSystem, stack: seq<string>, rest: string, budget: nat)
    ensures Walk(fs, stack, rest, budget) ==
      if LengthsFit(fs, stack, rest, budget) then Resolve(fs, stack, Components(rest), budget) else Fail(ENAMETOOLONG)
    decreases budget, |rest|
  {
    if rest != "" {
      var len := ComponentLength(rest);
      var c, tail := rest[..len], rest[len..];
      if len == 0 {
        WalkIsResolve(fs, stack, rest[1..], budget);
      } else {
        var todo := Components(rest);
        assert todo[0] == c && todo[1..] == Components(tail);
        if c == "." {
          WalkIsResolve(fs, stack, tail, budget);
        } else if c == ".." {
          WalkIsResolve(fs, Pop(stack), tail, budget);
        } else {
          RenderPush(stack, c);
          var link := fs(Render(stack + [c]));
          if link.Error? {
            WalkIsResolve(fs, stack + [c], tail, budget);
          } else if budget > 1 {
            var t := link.text;
            ComponentsJoin(t, tail);
            WalkIsResolve(fs, if t != "" && t[0] == '/' then [] else stack, Joined(t, tail), budget - 1);
          }
        }
      }
    }
  }

  /** A larger symlink budget changes nothing but the loop error. */
  lemma {:induction false} BudgetOnlyBoundsLoops(fs: FileSystem, stack: seq<string>, todo: seq<string>,
          budget: nat, more: nat)
    requires budget <= more
    ensures Resolve(fs, stack, todo, budget) == Fail(ELOOP)
         || Resolve(fs, stack, todo, budget) == Resolve(fs, stack, todo, more)
    decreases budget, |todo|
  {
    if todo != [] {
      var c, tail := todo[0], todo[1..];
      if c == "." {
        BudgetOnlyBoundsLoops(fs, stack, tail, budget, more);
      } else if c == ".." {
        BudgetOnlyBoundsLoops(fs, Pop(stack), tail, budget, more);
      } else {
        var link := fs(Render(stack + [c]));
        if link.Error? {
          BudgetOnlyBoundsLoops(fs, stack + [c], tail, budget, more);
        } else if budget > 1 {
          var t := link.text;
          BudgetOnlyBoundsLoops(fs, if t != "" && t[0] == '/' then [] else stack, Components(t) + tail, budget - 1,
                                more - 1);
        }
      }
    }
  }

  // ----- What a success looks like -------------------------------------------

  predicate ProperComponent(c: string) {
    c != "" && '/' !in c && CString(c) && c != "." && c != ".."
  }

  ghost predicate Canonical(stack: seq<string>) {
    forall i :: 0 <= i < |stack| ==> ProperComponent(stack[i])
  }

  /** No prefix of the path is a symbolic link. */
  ghost predicate LinkFree(fs: FileSystem, stack: seq<string>) {
    forall k :: 1 <= k <= |stack| ==> fs(Render(stack[..k])) == Error(EINVAL)
  }

  /** The path leaves room for a terminator and one more byte. */
  predicate Fits(stack: seq<string>) {
    |Render(stack)| + 1 < PATH_MAX
  }

  lemma PushLinkFree(fs: FileSystem, stack: seq<string>, c: string)
    requires LinkFree(fs, stack) && fs(Render(stack + [c])) == Error(EINVAL)
    ensures LinkFree(fs, stack + [c])
  {
    forall k | 1 <= k <= |stack| + 1
      ensures fs(Render((stack + [c])[..k])) == Error(EINVAL)
    {
      assert (stack + [c])[..k] == if k <= |stack| then stack[..k] else stack + [c];
    }
  }

  lemma PopLinkFree(fs: FileSystem, stack: seq<string>)
    requires LinkFree(fs, stack)
    ensures LinkFree(fs, Pop(stack))
  {
    forall k | 1 <= k <= |Pop(stack)|
      ensures fs(Render(Pop(stack)[..k])) == Error(EINVAL)
    {
      assert Pop(stack)[..k] == stack[..k];
    }
  }

  /** Proper components stay so. */
  lemma {:induction false} WalkKeepsCanonical(fs: FileSystem, stack: seq<string>, rest: string, budget: nat)
    requires Sane(fs) && CString(rest) && Canonical(stack) && Walk(fs, stack, rest, budget).Ok?
    ensures Canonical(Walk(fs, stack, rest, budget).stack)
    decreases budget, |rest|
  {
    if rest != "" {
      var len := ComponentLength(rest);
      var c, tail := rest[..len], rest[len..];
      if len == 0 {
        WalkKeepsCanonical(fs, stack, rest[1..], budget);
      } else if c == "." {
        WalkKeepsCanonical(fs, stack, tail, budget);
      } else if c == ".." {
        WalkKeepsCanonical(fs, Pop(stack), tail, budget);
      } else {
        var link := fs(Render(stack + [c]));
        if link.Error? {
          assert ProperComponent(c);
          WalkKeepsCanonical(fs, stack + [c], tail, budget);
        } else {
          WalkKeepsCanonical(fs, if link.text[0] == '/' then [] else stack, Joined(link.text, tail), budget - 1);
        }
      }
    }
  }

  /** Every success is a chain of proper components none of whose prefixes is a
      link; from a start that fits, it fits. */
  lemma {:induction false} WalkEndsCanonical(fs: FileSystem, stack: seq<string>, rest: string, budget: nat)
    requires Sane(fs) && CString(rest)
    requires Canonical(stack) && LinkFree(fs, stack)
    requires Walk(fs, stack, rest, budget).Ok?
    ensures var r := Walk(fs, stack, rest, budget).stack;
      Canonical(r) && LinkFree(fs, r) && (Fits(stack) ==> Fits(r))
    decreases budget, |rest|
  {
    if rest != "" {
      var len := ComponentLength(rest);
      var c, tail := rest[..len], rest[len..];
      if len == 0 {
        WalkEndsCanonical(fs, stack, rest[1..], budget);
      } else if c == "." {
        WalkEndsCanonical(fs, stack, tail, budget);
      } else if c == ".." {
        PopLinkFree(fs, stack);
        WalkEndsCanonical(fs, Pop(stack), tail, budget);
      } else {
        var link := fs(Render(stack + [c]));
        if link.Error? {
          assert ProperComponent(c);
          PushLinkFree(fs, stack, c);
          RenderPush(stack, c);
          WalkEndsCanonical(fs, stack + [c], tail, budget);
        } else {
          var t := link.text;
          WalkEndsCanonical(fs, if t[0] == '/' then [] else stack, Joined(t, tail), budget - 1);
        }
      }
    }
  }

  /** A path of a single component that is no link. */
  lemma WalkOneComponent(fs: FileSystem, stack: seq<string>, c: string, budget: nat)
    requires c != "" && '/' !in c && c != "." && c != ".."
    requires fs(Render(stack + [c])) == Error(EINVAL) && |Render(stack)| + 1 + |c| + 1 < PATH_MAX
    ensures Walk(fs, stack, c, budget) == Ok(stack + [c])
  {
    ComponentLengthUnique(c, |c|);
    assert c[..|c|] == c && c[|c|..] == "";
    assert Walk(fs, stack + [c], "", budget) == Ok(stack + [c]);
    hide Render, ComponentLength;
  }

  // ----- Idempotence -----------------------------------------------------------

  lemma {:induction false} RenderConcat(a: seq<string>, b: seq<string>)
    ensures Render(a + b) == Render(a) + Render(b)
  {
    if b == [] {
      assert a + b == a;
    } else {
      RenderConcat(a, b[..|b| - 1]);
      assert (a + b)[..|a + b| - 1] == a + b[..|b| - 1];
    }
  }

  lemma RenderFirst(b: seq<string>)
    requires b != []
    ensures Render(b) == "/" + b[0] + Render(b[1..])
  {
    RenderConcat([b[0]], b[1..]);
    assert [b[0]] + b[1..] == b;
    assert [b[0]][..0] == [];
    assert Render([b[0]]) == "/" + b[0];
  }

  lemma TextOfFirst(c: string, more: seq<string>, rest: string)
    requires c != "" && '/' !in c && (rest == "" || rest[0] == '/')
    ensures var text := Render([c] + more) + rest;
      && text != "" && ComponentLength(text) == 0 && ComponentLength(text[1..]) == |c|
      && text[1..][..|c|] == c && text[1..][|c|..] == Render(more) + rest
  {
    RenderFirst([c] + more);
    assert ([c] + more)[1..] == more;
    var text := Render([c] + more) + rest;
    assert text[1..] == c + (Render(more) + rest);
    if more != [] {
      RenderFirst(more);
    }
    hide Render, ComponentLength;
    assert text[1..][..|c|] == c;
    ComponentLengthUnique(text, 0);
    ComponentLengthUnique(text[1..], |c|);
  }

  /** The start of a path that is already resolved leads to where it says, from any
      point on it, whatever follows. */
  lemma {:induction false} WalkDown(fs: FileSystem, done: seq<string>, todo: seq<string>, rest: string, budget: nat)
    requires Canonical(done + todo) && LinkFree(fs, done + todo) && Fits(done + todo)
    requires rest == "" || rest[0] == '/'
    ensures Walk(fs, done, Render(todo) + rest, budget) == Walk(fs, done + todo, rest, budget)
    decreases |todo|
  {
    if todo == [] {
      assert done + todo == done && Render(todo) + rest == rest;
    } else {
      var c, more := todo[0], todo[1..];
      assert (done + todo)[|done|] == c;
      assert ProperComponent(c) && [c] + more == todo;
      TextOfFirst(c, more, rest);
      var next := done + [c];
      assert next + more == done + todo;
      RenderConcat(next, more);
      RenderPush(done, c);
      assert (done + todo)[..|done| + 1] == next;
      assert fs(Render(next)) == Error(EINVAL);
      WalkDown(fs, next, more, rest, budget);
      hide Render, ComponentLength, Canonical, LinkFree;
    }
  }

  /** Walking down a path that is already resolved, from any point on it. */
  lemma WalkResolved(fs: FileSystem, done: seq<string>, todo: seq<string>, budget: nat)
    requires Canonical(done + todo) && LinkFree(fs, done + todo) && Fits(done + todo)
    ensures Walk(fs, done, Render(todo), budget) == Ok(done + todo)
  {
    WalkDown(fs, done, todo, "", budget);
    assert Render(todo) + "" == Render(todo);
    assert Walk(fs, done + todo, "", budget) == Ok(done + todo);
  }

  /** Resolving the result of an absolute path gives that result again. */
  lemma ResolutionIsIdempotent(fs: FileSystem, path: string, budget: nat, again: nat)
    requires Sane(fs) && CString(path)
    requires Walk(fs, [], path, budget).Ok?
    ensures Walk(fs, [], Show(Walk(fs, [], path, budget).stack), again) == Walk(fs, [], path, budget)
  {
    var r := Walk(fs, [], path, budget).stack;
    WalkEndsCanonical(fs, [], path, budget);
    if r != [] {
      assert [] + r == r;
      WalkResolved(fs, [], r, again);
    }
  }
}
