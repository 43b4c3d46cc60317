/** Absolute paths as the file picker handles them (`normalize`, `under`, `allowed`, `may_save`). */
module Paths {
  import opened Prelude

  // ------------------------------------------------------------ splitting and joining

  /** Where the first slash is, or the length. */
  function FirstSlash(s: string): (n: nat)
    ensures n <= |s| && (n < |s| ==> s[n] == '/') && forall i :: 0 <= i < n ==> s[i] != '/'
  {
    if s == "" || s[0] == '/' then 0 else 1 + FirstSlash(s[1..])
  }

  /** `split('/')`. */
  function Split(s: string): seq<string>
    decreases |s|
  {
    var n := FirstSlash(s);
    if n == |s| then [s] else [s[..n]] + Split(s[n + 1..])
  }

  /** Each part with a slash before it. */
  function Slashed(parts: seq<string>): string {
    if parts == [] then "" else "/" + parts[0] + Slashed(parts[1..])
  }

  /** `"/" + parts.join("/")`. */
  function Render(parts: seq<string>): string {
    if parts == [] then "/" else Slashed(parts)
  }

  predicate NoSlash(p: string) { '/' !in p }

  /** An ordinary component. */
  predicate Component(p: string) { p != "" && p != "." && p != ".." && NoSlash(p) }

  predicate Components(parts: seq<string>) {
    forall i :: 0 <= i < |parts| ==> Component(parts[i])
  }

  lemma FirstSlashIs(p: string, rest: string)
    requires NoSlash(p) && (rest == "" || rest[0] == '/')
    ensures FirstSlash(p + rest) == |p|
  {
    var s := p + rest;
    assert forall i :: 0 <= i < |p| ==> s[i] == p[i] && p[i] in p;
    assert rest != "" ==> s[|p|] == rest[0];
  }

  lemma SplitStep(p: string, rest: string)
    requires NoSlash(p) && (rest == "" || rest[0] == '/')
    ensures Split(p + rest) == if rest == "" then [p] else [p] + Split(rest[1..])
  {
    FirstSlashIs(p, rest);
    assert (p + rest)[..|p|] == p;
    if rest == "" { assert p + rest == p; } else { assert (p + rest)[|p| + 1..] == rest[1..]; }
  }

  lemma SplitAfterSlash(s: string)
    requires s != "" && s[0] == '/'
    ensures Split(s) == [""] + Split(s[1..])
  {
    assert s[..0] == "";
  }

  lemma {:induction false} SplitSlashed(parts: seq<string>)
    requires Components(parts)
    ensures Split(Slashed(parts)) == [""] + parts
    decreases |parts|
  {
    if parts == [] {
      assert Split("") == [""];
    } else {
      SplitSlashed(parts[1..]);
      SplitMore(parts[0], parts[1..]);
      SplitWhole(parts[0], parts[1..], Slashed(parts));
      assert parts == [parts[0]] + parts[1..];
    }
  }

  lemma SplitWhole(p: string, parts: seq<string>, s: string)
    requires Split(p + Slashed(parts)) == [p] + parts && s == "/" + p + Slashed(parts)
    ensures Split(s) == [""] + ([p] + parts)
  {
    SplitAfterSlash(s);
    assert s[1..] == p + Slashed(parts);
  }

  lemma SplitMore(p: string, parts: seq<string>)
    requires NoSlash(p) && Components(parts) && Split(Slashed(parts)) == [""] + parts
    ensures Split(p + Slashed(parts)) == [p] + parts
  {
    var rest := Slashed(parts);
    SplitStep(p, rest);
    if rest == "" {
      assert |[""] + parts| == 1;
    } else {
      SplitAfterSlash(rest);
      assert ([""] + Split(rest[1..]))[1..] == Split(rest[1..]);
      assert ([""] + parts)[1..] == parts;
    }
  }

  // ------------------------------------------------------------ normalizing

  /** One component on the stack of those before. */
  function Climb(stack: seq<string>, p: string): seq<string> {
    if p == "" || p == "." then stack
    else if p == ".." then (if stack == [] then [] else stack[..|stack| - 1])
    else stack + [p]
  }

  function Resolve(parts: seq<string>, stack: seq<string>): seq<string>
    decreases |parts|
  {
    if parts == [] then stack else Resolve(parts[1..], Climb(stack, parts[0]))
  }

  predicate Refused(path: string) {
    path == "" || path[0] != '/' || '\\' in path || '\0' in path
  }

  function Parts(path: string): seq<string> { Resolve(Split(path), []) }

  /** `Refused`, or rendered from the components left on the stack. */
  function Normalize(path: string): Option<string> {
    if Refused(path) then None else Some(Render(Parts(path)))
  }

  lemma {:induction false} SplitNoSlash(s: string)
    ensures forall i :: 0 <= i < |Split(s)| ==> NoSlash(Split(s)[i]) && forall c :: c in Split(s)[i] ==> c in s
    decreases |s|
  {
    var n := FirstSlash(s);
    if n < |s| { SplitNoSlash(s[n + 1..]); }
  }

  lemma {:induction false} ResolveComponents(parts: seq<string>, stack: seq<string>, path: string)
    requires Components(stack) && (forall i :: 0 <= i < |parts| ==> NoSlash(parts[i]))
    requires Within(parts, path) && Within(stack, path)
    ensures Components(Resolve(parts, stack)) && Within(Resolve(parts, stack), path)
    decreases |parts|
  {
    if parts != [] { ResolveComponents(parts[1..], Climb(stack, parts[0]), path); }
  }

  /** Only characters of `path` occur. */
  predicate Within(parts: seq<string>, path: string) {
    forall i, c :: 0 <= i < |parts| && c in parts[i] ==> c in path
  }

  lemma {:induction false} SlashedWithin(parts: seq<string>, path: string)
    requires Within(parts, path)
    ensures forall c :: c in Slashed(parts) ==> c == '/' || c in path
  {
    if parts != [] { SlashedWithin(parts[1..], path); }
  }

  lemma {:induction false} ResolveKeeps(parts: seq<string>, stack: seq<string>)
    requires Components(parts)
    ensures Resolve(parts, stack) == stack + parts
    decreases |parts|
  {
    if parts != [] { ResolveKeeps(parts[1..], stack + [parts[0]]); }
  }

  /** A normalized path is rendered from ordinary components only: none is empty, "." or "..". */
  lemma PartsAreComponents(path: string)
    ensures Components(Parts(path)) && Within(Parts(path), path)
  {
    SplitNoSlash(path);
    ResolveComponents(Split(path), [], path);
  }

  lemma PartsOfRender(parts: seq<string>)
    requires Components(parts)
    ensures Parts(Render(parts)) == parts
  {
    if parts == [] {
      assert Split("/") == ["", ""] by { assert Split("") == [""]; }
      assert ["", ""][1..] == [""] && [""][1..] == [];
    } else {
      SplitSlashed(parts);
      assert ([""] + parts)[1..] == parts;
      ResolveKeeps(parts, []);
    }
  }

  /** Normalizing again changes nothing. */
  lemma NormalizeIdempotent(path: string)
    requires !Refused(path)
    ensures var q := Normalize(path).value;
      Normalize(q) == Some(q) && Parts(q) == Parts(path) && Components(Parts(q)) && q == Render(Parts(q))
  {
    var parts := Parts(path);
    PartsAreComponents(path);
    PartsOfRender(parts);
    SlashedWithin(parts, path);
  }

  // ------------------------------------------------------------ one more component

  lemma {:induction false} SplitAppend(s: string, p: string)
    requires NoSlash(p)
    ensures Split(s + "/" + p) == Split(s) + [p]
    decreases |s|
  {
    var n := FirstSlash(s);
    if n == |s| {
      assert NoSlash(s) by { assert forall i :: 0 <= i < n ==> s[i] != '/'; }
      LastSplit(s, p);
    } else {
      MiddleSplit(s[..n], s[n + 1..], p);
      assert s == s[..n] + "/" + s[n + 1..];
      SplitAppend(s[n + 1..], p);
    }
  }

  lemma LastSplit(s: string, p: string)
    requires NoSlash(s) && NoSlash(p)
    ensures Split(s + "/" + p) == [s] + [p]
  {
    var rest := "/" + p;
    assert s + "/" + p == s + rest && rest[1..] == p;
    SplitStep(s, rest);
    assert Split(p) == [p] by {
      SplitStep(p, "");
      assert p + "" == p;
    }
  }

  lemma MiddleSplit(head: string, tail: string, p: string)
    requires NoSlash(head)
    ensures Split(head + "/" + tail + "/" + p) == [head] + Split(tail + "/" + p)
  {
    var rest := "/" + tail + "/" + p;
    MiddleJoin(head, tail, p);
    SplitStep(head, rest);
  }

  lemma MiddleJoin(head: string, tail: string, p: string)
    ensures head + "/" + tail + "/" + p == head + ("/" + tail + "/" + p)
    ensures ("/" + tail + "/" + p)[1..] == tail + "/" + p
  {
  }

  lemma {:induction false} ResolveAppend(parts: seq<string>, p: string, stack: seq<string>)
    ensures Resolve(parts + [p], stack) == Climb(Resolve(parts, stack), p)
    decreases |parts|
  {
    if parts == [] {
      assert [p][1..] == [];
    } else {
      assert (parts + [p])[1..] == parts[1..] + [p];
      ResolveAppend(parts[1..], p, Climb(stack, parts[0]));
    }
  }

  /** One more component climbs or goes up from wherever the path leads. */
  lemma PartsAppend(s: string, p: string)
    requires NoSlash(p)
    ensures Parts(s + "/" + p) == Climb(Parts(s), p)
  {
    SplitAppend(s, p);
    ResolveAppend(Split(s), p, []);
  }

  // ------------------------------------------------------------ below a directory

  /** `under`. */
  predicate Under(path: string, dir: string) {
    path == dir || dir + "/" <= path || dir == "/"
  }

  lemma SlashedHead(parts: seq<string>)
    ensures Slashed(parts) == "" || Slashed(parts)[0] == '/'
  {
  }

  predicate Reaches(s: string, t: string) { s == t || s + "/" <= t }

  /** Two paths that agree up to a slash or the end agree in their first component. */
  lemma SameFirst(x: string, xs: string, y: string, ys: string)
    requires NoSlash(x) && NoSlash(y) && (xs == "" || xs[0] == '/') && (ys == "" || ys[0] == '/')
    requires Reaches(x + xs, y + ys)
    ensures x == y && Reaches(xs, ys)
  {
    var s := y + ys;
    FirstSlashIs(y, ys);
    if x + xs == s {
      FirstSlashIs(x, xs);
    } else {
      var t := s[|x + xs + "/"|..];
      assert s == x + (xs + "/" + t);
      FirstSlashIs(x, xs + "/" + t);
    }
    assert |x| == |y|;
    assert x == s[..|x|] && y == s[..|y|];
    assert ys == s[|y|..];
  }

  lemma ReachesAfter(x: string, s: string, t: string)
    ensures Reaches(x + s, x + t) <==> Reaches(s, t)
  {
    var u := s + "/";
    assert x + s + "/" == x + u;
    if u <= t { assert t == u + t[|u|..]; assert x + t == x + u + t[|u|..]; }
    if x + u <= x + t { assert (x + u)[|x|..] == u && (x + t)[|x|..] == t; assert t[..|u|] == (x + t)[|x|..|x + u|]; }
    if x + s == x + t { assert (x + s)[|x|..] == s && (x + t)[|x|..] == t; }
  }

  lemma ReachesSplit(x: string, xs: string, y: string, ys: string)
    requires NoSlash(x) && NoSlash(y) && (xs == "" || xs[0] == '/') && (ys == "" || ys[0] == '/')
    ensures Reaches("/" + x + xs, "/" + y + ys) <==> x == y && Reaches(xs, ys)
  {
    assert "/" + x + xs == "/" + (x + xs) && "/" + y + ys == "/" + (y + ys);
    ReachesAfter("/", x + xs, y + ys);
    if Reaches(x + xs, y + ys) { SameFirst(x, xs, y, ys); }
    ReachesAfter(x, xs, ys);
  }

  predicate NoSlashes(parts: seq<string>) {
    forall i :: 0 <= i < |parts| ==> NoSlash(parts[i])
  }

  lemma {:induction false} SlashedPrefix(a: seq<string>, b: seq<string>)
    requires NoSlashes(a) && NoSlashes(b)
    ensures Reaches(Slashed(a), Slashed(b)) <==> a <= b
    decreases |a|
  {
    if a == [] {
      if b != [] { assert Slashed(b)[0] == '/'; }
    } else if b == [] {
    } else {
      SlashedHead(a[1..]);
      SlashedHead(b[1..]);
      SlashedPrefix(a[1..], b[1..]);
      ReachesSplit(a[0], Slashed(a[1..]), b[0], Slashed(b[1..]));
      assert a == [a[0]] + a[1..] && b == [b[0]] + b[1..];
    }
  }

  lemma {:induction false} SlashedOfSplit(s: string)
    ensures Slashed(Split(s)) == "/" + s && NoSlashes(Split(s)) && |Split(s)| > 0
    decreases |s|
  {
    var n := FirstSlash(s);
    if n == |s| {
      assert forall i :: 0 <= i < n ==> s[i] != '/';
      assert Slashed([s]) == "/" + s + Slashed([s][1..]);
    } else {
      SlashedOfSplit(s[n + 1..]);
      SlashedFirst(s[..n], Split(s[n + 1..]));
      CutAtSlash(s, n);
    }
  }

  lemma SlashedFirst(head: string, rest: seq<string>)
    ensures Slashed([head] + rest) == "/" + head + Slashed(rest)
  {
    assert ([head] + rest)[1..] == rest;
  }

  lemma CutAtSlash(s: string, n: nat)
    requires n < |s| && s[n] == '/'
    ensures "/" + s[..n] + ("/" + s[n + 1..]) == "/" + s
  {
  }

  /** The test on strings is exact: a path is below a directory if and only if the directory's components come first.
      The directory need not be normalized. */
  lemma UnderMeaning(path: seq<string>, dir: seq<string>)
    requires Components(path) && NoSlashes(dir) && (dir == [] || dir[0] != "")
    ensures Under(Render(path), Render(dir)) <==> dir <= path
  {
    SlashedPrefix(dir, path);
    if dir != [] {
      assert |dir[0]| > 0;
      assert |Slashed(dir)| >= 2;
    }
  }
}
