// Path normalisation: the in-place walk over the components of a path against
// the stack of components it stands for.

module Paths {

  const MAX_FILENAME_LEN: nat := 64

  datatype Result<T> = Ok(value: T) | InvalidName

  // ---- components ------------------------------------------------------------

  /** The text between the slashes. */
  function Split(s: string): (parts: seq<string>)
    ensures |parts| > 0 && forall i :: 0 <= i < |parts| ==> '/' !in parts[i]
  {
    if s == "" then [""]
    else
      var rest := Split(s[1..]);
      if s[0] == '/' then [""] + rest else [[s[0]] + rest[0]] + rest[1..]
  }

  function Enter(stack: seq<string>, part: string): seq<string> {
    if part == "" || part == "." then stack
    else if part == ".." then (if stack == [] then [] else stack[..|stack| - 1])
    else stack + [part]
  }

  /** The components a path leads to, from the root. */
  function Walk(parts: seq<string>, stack: seq<string>): seq<string>
    decreases |parts|
  {
    if parts == [] then stack else Walk(parts[1..], Enter(stack, parts[0]))
  }

  /** The canonical text of a stack of components. */
  function Render(stack: seq<string>): string {
    if stack == [] then "/" else Tail(stack)
  }

  function Tail(stack: seq<string>): string {
    if stack == [] then "" else Tail(stack[..|stack| - 1]) + "/" + stack[|stack| - 1]
  }

  /** A component that stands for itself. */
  predicate Plain(part: string) {
    part != "" && part != "." && part != ".." && '/' !in part
  }

  ghost predicate AllPlain(stack: seq<string>) {
    forall i :: 0 <= i < |stack| ==> Plain(stack[i])
  }

  /** The absolute path before its components are walked. */
  function Absolute(clean: string, cwd: string): string {
    if clean != "" && clean[0] == '/' then clean
    else if cwd == "" || cwd == "/" then "/" + clean
    else cwd + "/" + clean
  }

  function Normal(path: string): string {
    Render(Walk(Split(path), []))
  }

  /** What the normaliser answers. */
  function Normalized(clean: string, cwd: string): Result<string> {
    if clean == "" || |Absolute(clean, cwd)| >= MAX_FILENAME_LEN then InvalidName
    else Ok(Normal(Absolute(clean, cwd)))
  }

  // ---- canonical paths -------------------------------------------------------

  lemma EnterPlain(stack: seq<string>, part: string)
    requires AllPlain(stack) && '/' !in part
    ensures AllPlain(Enter(stack, part))
  {
  }

  lemma {:induction false} WalkPlain(parts: seq<string>, stack: seq<string>)
    requires AllPlain(stack) && forall i :: 0 <= i < |parts| ==> '/' !in parts[i]
    ensures AllPlain(Walk(parts, stack))
    decreases |parts|
  {
    if parts != [] {
      EnterPlain(stack, parts[0]);
      WalkPlain(parts[1..], Enter(stack, parts[0]));
    }
  }

  lemma {:induction false} SplitJoin(a: string, b: string)
    requires '/' !in b
    ensures Split(a + "/" + b) == Split(a) + [b]
    decreases |a|
  {
    var s := a + "/" + b;
    if a == "" {
      assert s[1..] == b;
      SplitOne(b);
    } else {
      assert s[1..] == a[1..] + "/" + b;
      SplitJoin(a[1..], b);
    }
  }

  lemma {:induction false} SplitOne(b: string)
    requires '/' !in b
    ensures Split(b) == [b]
    decreases |b|
  {
    if b != "" {
      SplitOne(b[1..]);
      assert [b[0]] + b[1..] == b;
    }
  }

  lemma {:induction false} SplitTail(stack: seq<string>)
    requires AllPlain(stack)
    ensures Split(Tail(stack)) == [""] + stack
    decreases |stack|
  {
    if stack != [] {
      var init := stack[..|stack| - 1];
      SplitTail(init);
      SplitJoin(Tail(init), stack[|stack| - 1]);
      assert init + [stack[|stack| - 1]] == stack;
    }
  }

  lemma {:induction false} WalkPlainAdds(parts: seq<string>, stack: seq<string>)
    requires AllPlain(parts)
    ensures Walk(parts, stack) == stack + parts
    decreases |parts|
  {
    if parts != [] {
      WalkPlainAdds(parts[1..], stack + [parts[0]]);
      assert stack + [parts[0]] + parts[1..] == stack + parts;
    }
  }

  /** A canonical path is its own normal form: normalising is idempotent. */
  lemma CanonicalIsNormal(stack: seq<string>)
    requires AllPlain(stack)
    ensures Normal(Render(stack)) == Render(stack)
  {
    if stack == [] {
      assert Split("/")[1..] == [""];
      assert Walk(Split("/"), []) == Walk([""], []) == [];
    } else {
      SplitTail(stack);
      assert ([""] + stack)[1..] == stack;
      WalkPlainAdds(stack, []);
      assert [] + stack == stack;
      assert Walk([""] + stack, []) == Walk(stack, []);
    }
  }

  lemma NormalIsCanonical(path: string)
    ensures AllPlain(Walk(Split(path), [])) && Normal(Normal(path)) == Normal(path)
  {
    WalkPlain(Split(path), []);
    CanonicalIsNormal(Walk(Split(path), []));
  }

  /** Different stacks have different canonical texts. */
  lemma RenderInjective(a: seq<string>, b: seq<string>)
    requires AllPlain(a) && AllPlain(b) && Render(a) == Render(b)
    ensures a == b
  {
    if a != [] && b != [] {
      SplitTail(a);
      SplitTail(b);
      assert ([""] + a)[1..] == a && ([""] + b)[1..] == b;
    } else if a != [] {
      RenderLong(a);
    } else if b != [] {
      RenderLong(b);
    }
  }

  lemma RenderLong(a: seq<string>)
    requires AllPlain(a) && a != []
    ensures |Render(a)| > 1
  {
    assert Plain(a[|a| - 1]);
  }

  // ---- dots, parents and the current directory ---------------------------------

  lemma {:induction false} SplitBoth(a: string, b: string)
    ensures Split(a + "/" + b) == Split(a) + Split(b)
    decreases |a|
  {
    var s := a + "/" + b;
    if a == "" {
      assert s[1..] == b;
    } else {
      assert s[1..] == a[1..] + "/" + b;
      SplitBoth(a[1..], b);
    }
  }

  lemma {:induction false} WalkMore(a: seq<string>, b: seq<string>, stack: seq<string>)
    ensures Walk(a + b, stack) == Walk(b, Walk(a, stack))
    decreases |a|
  {
    if a == [] {
      assert a + b == b;
    } else {
      assert (a + b)[1..] == a[1..] + b;
      WalkMore(a[1..], b, Enter(stack, a[0]));
    }
  }

  lemma WalkBelow(p: string, x: string)
    ensures Walk(Split(p + "/" + x), []) == Walk(Split(x), Walk(Split(p), []))
  {
    SplitBoth(p, x);
    WalkMore(Split(p), Split(x), []);
  }

  lemma WalkOne(x: string, stack: seq<string>)
    requires '/' !in x
    ensures Walk(Split(x), stack) == Enter(stack, x)
  {
    SplitOne(x);
    assert [x][1..] == [];
  }

  /** A directory's text before a component of it. */
  function Before(dir: string): string {
    if dir == "/" then "/" else dir + "/"
  }

  lemma RenderChild(stack: seq<string>, x: string)
    requires AllPlain(stack)
    ensures Render(stack + [x]) == Before(Render(stack)) + x
  {
    assert (stack + [x])[..|stack|] == stack;
    if stack != [] { RenderLong(stack); } else { assert "/" + x == Tail([x]); }
  }

  /** The normal form of a plain component below p is that component below the
      normal form of p; `..` behind it, `.` and doubled slashes lead back to p,
      and the root is its own parent. */
  lemma DotsCancel(p: string, x: string)
    requires Plain(x)
    ensures Normal(p + "/" + x) == Before(Normal(p)) + x
    ensures Normal(p + "/" + x + "/..") == Normal(p)
    ensures Normal(p + "/.") == Normal(p) && Normal(p + "/") == Normal(p)
    ensures Normal("/") == "/" && (Normal(p) == "/" ==> Normal(p + "/..") == "/")
  {
    hide Split, Walk, Plain, Tail;
    var stack := Walk(Split(p), []);
    StacksOf(p, x);
    WalkBelow(p, "");
    assert p + "/" + "" == p + "/";
    WalkOne("", stack);
    NormalOfRoot();
    WalkPlain(Split(p), []);
    RenderChild(stack, x);
    if stack != [] { RenderLong(stack); }
    assert p + "/" + x + "/.." == (p + "/" + x) + "/" + "..";
    assert p + "/." == p + "/" + "." && p + "/.." == p + "/" + "..";
  }

  lemma StacksOf(p: string, x: string)
    requires Plain(x)
    ensures var stack := Walk(Split(p), []);
            && Walk(Split(p + "/" + x), []) == stack + [x]
            && Walk(Split((p + "/" + x) + "/" + ".."), []) == stack
            && Walk(Split(p + "/" + "."), []) == stack
            && Walk(Split(p + "/" + ".."), []) == if stack == [] then [] else stack[..|stack| - 1]
  {
    hide Split, Walk;
    var stack := Walk(Split(p), []);
    WalkBelow(p, x);
    WalkOne(x, stack);
    WalkBelow(p + "/" + x, "..");
    WalkOne("..", stack + [x]);
    assert (stack + [x])[..|stack|] == stack;
    WalkBelow(p, ".");
    WalkOne(".", stack);
    WalkBelow(p, "..");
    WalkOne("..", stack);
  }

  lemma NormalOfRoot()
    ensures Normal("/") == "/"
  {
    CanonicalIsNormal([]);
  }

  /** The answer for any path and current directory: an absolute path does not
      depend on the current directory; a relative one is what stands behind the
      current directory and a slash. It is refused if it is empty or too long. */
  lemma RelativeIsBelow(clean: string, cwd: string)
    ensures var n := |clean| + if clean == "" || clean[0] == '/' then 0
                               else if cwd == "" || cwd == "/" then 1 else |cwd| + 1;
            var t := if clean != "" && clean[0] == '/' then clean else cwd + "/" + clean;
            Normalized(clean, cwd) == if clean == "" || n > 63 then InvalidName else Ok(Normal(t))
  {
    hide Split, Walk, Render;
    if clean != "" && clean[0] != '/' && (cwd == "" || cwd == "/") {
      assert "" + "/" + clean == "/" + clean;
      WalkBelow("", clean);
      WalkBelow("/", clean);
      WalkOfRoot();
    }
  }

  lemma WalkOfRoot()
    ensures Walk(Split(""), []) == [] && Walk(Split("/"), []) == []
  {
    WalkOne("", []);
    hide Walk;
    assert "" + "/" + "" == "/";
    WalkBelow("", "");
  }

  // ---- lengths -----------------------------------------------------------------

  /** The text of the parts, slashes included, without a leading one. */
  function Spread(parts: seq<string>): nat {
    if parts == [] then 0 else 1 + |parts[0]| + Spread(parts[1..])
  }

  lemma {:induction false} SplitSpread(s: string)
    ensures Spread(Split(s)) == |s| + 1
  {
    if s != "" {
      var rest := Split(s[1..]);
      SplitSpread(s[1..]);
      if s[0] == '/' {
        assert ([""] + rest)[1..] == rest;
      } else {
        assert ([[s[0]] + rest[0]] + rest[1..])[1..] == rest[1..];
      }
    }
  }

  // ---- the normaliser ----------------------------------------------------------

  /** Drops the last component of the text in out[..len]. */
  method DropLast(out: array<char>, len: nat, ghost stack: seq<string>) returns (now: nat)
    requires 0 < len <= out.Length && AllPlain(stack) && out[..len] == Render(stack) && stack != []
    ensures now <= len && out[..now] == Render(stack[..|stack| - 1]) && now > 0
  {
    var n := |stack| - 1;
    ghost var head, last := Tail(stack[..n]), stack[n];
    assert Render(stack) == head + "/" + last && len == |head| + 1 + |last|;
    var pos := len - 1;
    assert Plain(last);
    while out[pos] != '/'
      invariant |head| <= pos < len && '/' !in out[pos + 1..len]
      decreases pos
    {
      assert out[..len][pos] == Render(stack)[pos];
      pos := pos - 1;
    }
    assert out[..len][pos] == Render(stack)[pos];
    assert pos == |head|;
    now := if pos == 0 then 1 else pos;
    assert out[..now] == out[..len][..now];
    if n > 0 { RenderLong(stack[..n]); } else { assert stack[..n] == []; }
  }

  lemma RenderIsTail(stack: seq<string>)
    requires AllPlain(stack)
    ensures if stack == [] then Render(stack) == "/" && |Tail(stack)| == 0
            else Render(stack) == Tail(stack) && |Tail(stack)| > 1
  {
    if stack != [] { RenderLong(stack); }
  }

  method Copy(out: array<char>, at: nat, part: string)
    requires at + |part| <= out.Length
    modifies out
    ensures out[..at + |part|] == old(out[..at]) + part
  {
    forall k | 0 <= k < |part| { out[at + k] := part[k]; }
  }

  /** Appends a component to the text in out[..len]. */
  method Append(out: array<char>, len: nat, part: string, ghost stack: seq<string>) returns (now: nat)
    requires 0 < len <= out.Length && out[..len] == Render(stack) && AllPlain(stack)
    requires |Tail(stack)| + 1 + |part| <= out.Length
    modifies out
    ensures now == |Tail(stack)| + 1 + |part| && out[..now] == Render(stack + [part])
  {
    hide AllPlain, Render, Tail;
    RenderChild(stack, part);
    RenderIsTail(stack);
    if len > 1 {
      Copy(out, len, "/");
      Copy(out, len + 1, part);
      now := len + 1 + |part|;
    } else {
      Copy(out, len, part);
      now := len + |part|;
    }
  }

  /** One turn of the walk, with the length checks it makes. */
  method Turn(out: array<char>, len: nat, part: string, ghost stack: seq<string>) returns (r: Result<nat>)
    requires out.Length == MAX_FILENAME_LEN && 0 < len <= out.Length && out[..len] == Render(stack) && AllPlain(stack)
    requires '/' !in part && |Tail(stack)| + (if Plain(part) then 1 + |part| else 0) < MAX_FILENAME_LEN
    modifies out
    ensures r.Ok? && 0 < r.value <= out.Length && out[..r.value] == Render(Enter(stack, part))
  {
    if stack != [] { RenderLong(stack); }
    if part == "" || part == "." {
      r := Ok(len);
    } else if part == ".." {
      if len > 1 {
        var now := DropLast(out, len, stack);
        r := Ok(now);
      } else {
        r := Ok(len);
      }
    } else {
      if len > 1 && len + 1 + |part| >= MAX_FILENAME_LEN { return InvalidName; }
      if len == 1 && len + |part| >= MAX_FILENAME_LEN { return InvalidName; }
      var now := Append(out, len, part, stack);
      r := Ok(now);
    }
  }

  lemma EnterFits(stack: seq<string>, part: string)
    requires '/' !in part
    ensures |Tail(Enter(stack, part))| <= |Tail(stack)| + if Plain(part) then 1 + |part| else 0
  {
    if part != "" && part != "." && part != ".." {
      assert (stack + [part])[..|stack|] == stack;
    }
  }

  /** How much of the path's length is used up after i parts. */
  ghost predicate WithinPath(stack: seq<string>, parts: seq<string>, i: nat, len: nat)
    requires i <= |parts|
  {
    |Tail(stack)| + Spread(parts[i..]) <= len + if i == 0 then 1 else 0
  }

  lemma TurnFits(stack: seq<string>, parts: seq<string>, i: nat, len: nat)
    requires i < |parts| && WithinPath(stack, parts, i, len) && '/' !in parts[i]
    requires i == 0 ==> parts[0] == "" && stack == []
    ensures |Tail(stack)| + (if Plain(parts[i]) then 1 + |parts[i]| else 0) <= len
    ensures WithinPath(Enter(stack, parts[i]), parts, i + 1, len)
    ensures Walk(parts[i..], stack) == Walk(parts[i + 1..], Enter(stack, parts[i]))
  {
    assert parts[i..][1..] == parts[i + 1..];
    EnterFits(stack, parts[i]);
  }

  /** Normalises a trimmed path against the current directory. The length
      checks inside the walk never fail: no intermediate text is longer than
      the absolute path. */
  method NormalizePath(clean: string, cwd: string, out: array<char>) returns (r: Result<nat>)
    requires out.Length == MAX_FILENAME_LEN && (cwd == "" || cwd[0] == '/')
    modifies out
    ensures match Normalized(clean, cwd)
            case Ok(path) => |path| <= out.Length && r == Ok(|path|) && out[..|path|] == path
            case InvalidName => r == InvalidName
  {
    if clean == "" { return InvalidName; }
    var temp := Absolute(clean, cwd);
    if |temp| >= MAX_FILENAME_LEN { return InvalidName; }
    var parts := Split(temp);
    ghost var stack: seq<string> := [];
    out[0] := '/';
    var len := 1;
    var i := 0;
    SplitSpread(temp);
    assert parts[0] == "" && parts[0..] == parts;
    hide Walk, Split, Spread, Enter, Plain, Render, Tail;
    assert out[..len] == Render(stack) by { StartText(out[..len]); }
    assert WithinPath(stack, parts, 0, |temp|) by { StartWithin(parts, |temp|); }
    while i < |parts|
      invariant i <= |parts| && 0 < len <= out.Length && AllPlain(stack) && out[..len] == Render(stack)
      invariant Walk(parts[i..], stack) == Walk(parts, []) && (i == 0 ==> stack == [])
      invariant WithinPath(stack, parts, i, |temp|)
    {
      TurnFits(stack, parts, i, |temp|);
      EnterPlain(stack, parts[i]);
      var turn := Turn(out, len, parts[i], stack);
      if turn.InvalidName? { return InvalidName; }
      len := turn.value;
      stack := Enter(stack, parts[i]);
      i := i + 1;
    }
    WalkEnds(parts[i..], stack);
    r := Ok(len);
  }

  lemma StartText(s: string)
    requires s == "/"
    ensures s == Render([])
  {
  }

  lemma StartWithin(parts: seq<string>, len: nat)
    requires Spread(parts) == len + 1
    ensures WithinPath([], parts, 0, len)
  {
    assert parts[0..] == parts;
  }

  lemma WalkEnds(parts: seq<string>, stack: seq<string>)
    requires parts == []
    ensures Walk(parts, stack) == stack
  {
  }
}
