/**
  Lexical paths and the realization rule (nix-store-shared-fuse/src/realize.rs):
  what normalising keeps, and which symlink targets are realized where.
*/
module Realize {
  import opened Wrappers
  import Text

  // ---- Paths ----

  datatype Component = Root | Cur | Parent | Normal(name: string)

  predicate IsAbsolute(path: string) {
    "/" <= path
  }

  /** One part of a path between slashes; `.` counts only at the start of a relative path. */
  function PartComponent(part: string, leading: bool): seq<Component> {
    if part == "" then []
    else if part == "." then if leading then [Cur] else []
    else if part == ".." then [Parent]
    else [Normal(part)]
  }

  function PartComponents(parts: seq<string>, leading: bool): seq<Component> {
    if parts == [] then [] else PartComponent(parts[0], leading) + PartComponents(parts[1..], false)
  }

  /** `Path::components`. */
  function Components(path: string): seq<Component> {
    (if IsAbsolute(path) then [Root] else []) + PartComponents(Text.Split(path, '/'), !IsAbsolute(path))
  }

  /** `Path::join` and `PathBuf::push`. */
  function Join(base: string, path: string): string {
    if IsAbsolute(path) || base == "" then path
    else if base[|base| - 1] == '/' then base + path
    else base + "/" + path
  }

  function ComponentText(c: Component): string {
    match c
    case Root => "/"
    case Cur => "."
    case Parent => ".."
    case Normal(name) => name
  }

  /** The components pushed one after the other. */
  function Show(cs: seq<Component>): string {
    if cs == [] then "" else Join(Show(cs[..|cs| - 1]), ComponentText(cs[|cs| - 1]))
  }

  predicate NameOk(name: string) {
    name != "" && name != "." && name != ".." && '/' !in name
  }

  predicate ComponentOk(c: Component) {
    c.Normal? ==> NameOk(c.name)
  }

  /** Only the first component can be the root. */
  ghost predicate PathLike(cs: seq<Component>) {
    (forall c <- cs :: ComponentOk(c)) && forall i :: 0 < i < |cs| ==> cs[i] != Root
  }

  // ---- Where a path leads ----

  function Up(place: seq<string>): seq<string> {
    if place == [] then [] else place[..|place| - 1]
  }

  /** One step from a directory, given as the names from the root; above the root is the root. */
  function Go(place: seq<string>, c: Component): seq<string> {
    match c
    case Root => []
    case Cur => place
    case Parent => Up(place)
    case Normal(name) => place + [name]
  }

  function Walk(place: seq<string>, cs: seq<Component>): seq<string>
    decreases |cs|
  {
    if cs == [] then place else Walk(Go(place, cs[0]), cs[1..])
  }

  // ---- The normal form ----

  /** A normalised path: from the root, or so many `..`, and then names. */
  datatype Canon = Canon(absolute: bool, ups: nat, names: seq<string>)

  function Take(c: Canon, comp: Component): Canon {
    match comp
    case Root => Canon(true, 0, [])
    case Cur => c
    case Parent =>
      if c.names != [] then c.(names := c.names[..|c.names| - 1])
      else if c.absolute then c else c.(ups := c.ups + 1)
    case Normal(name) => c.(names := c.names + [name])
  }

  function TakeAll(c: Canon, cs: seq<Component>): Canon
    decreases |cs|
  {
    if cs == [] then c else TakeAll(Take(c, cs[0]), cs[1..])
  }

  const NOWHERE := Canon(false, 0, [])

  function Parents(n: nat): (cs: seq<Component>)
    ensures |cs| == n
  {
    if n == 0 then [] else Parents(n - 1) + [Parent]
  }

  function Normals(names: seq<string>): (cs: seq<Component>)
    ensures |cs| == |names|
  {
    if names == [] then [] else Normals(names[..|names| - 1]) + [Normal(names[|names| - 1])]
  }

  /** The stack of components a normal form is held as. */
  function Stack(c: Canon): seq<Component> {
    Front(c) + Normals(c.names)
  }

  function Front(c: Canon): seq<Component> {
    if c.absolute then [Root] else Parents(c.ups)
  }

  function CanonOf(path: string): Canon {
    TakeAll(NOWHERE, Components(path))
  }

  function ShowCanon(c: Canon): string {
    if Stack(c) == [] then "." else Show(Stack(c))
  }

  /** The specification of `Normalize`. */
  function NormalForm(path: string): string {
    ShowCanon(CanonOf(path))
  }

  ghost predicate CanonOk(c: Canon) {
    (forall name <- c.names :: NameOk(name)) && (c.absolute ==> c.ups == 0)
  }

  lemma TakeKeepsOk(c: Canon, comp: Component)
    requires CanonOk(c) && ComponentOk(comp)
    ensures CanonOk(Take(c, comp))
  {
    hide NameOk;
  }

  lemma {:induction false} TakeAllKeepsOk(c: Canon, cs: seq<Component>)
    requires CanonOk(c) && forall comp <- cs :: ComponentOk(comp)
    ensures CanonOk(TakeAll(c, cs))
    decreases |cs|
  {
    hide CanonOk, ComponentOk, Take;
    if cs != [] {
      assert cs[0] in cs;
      TakeKeepsOk(c, cs[0]);
      TakeAllKeepsOk(Take(c, cs[0]), cs[1..]);
    }
  }

  lemma {:induction false} TakeAllAppend(c: Canon, a: seq<Component>, b: seq<Component>)
    ensures TakeAll(c, a + b) == TakeAll(TakeAll(c, a), b)
    decreases |a|
  {
    hide Take;
    if a == [] {
      assert a + b == b;
    } else {
      assert (a + b)[1..] == a[1..] + b;
      TakeAllAppend(Take(c, a[0]), a[1..], b);
    }
  }

  // ---- The code ----

  lemma StackGrows(c: Canon, name: string)
    ensures Stack(c.(names := c.names + [name])) == Stack(c) + [Normal(name)]
  {
    var more := c.names + [name];
    assert more[..|more| - 1] == c.names;
    hide Parents;
    assert Front(c) + (Normals(c.names) + [Normal(name)]) == Front(c) + Normals(c.names) + [Normal(name)];
  }

  lemma StackShrinks(c: Canon)
    requires c.names != []
    ensures Stack(c) == Stack(c.(names := c.names[..|c.names| - 1])) + [Normal(c.names[|c.names| - 1])]
  {
    var less := c.names[..|c.names| - 1];
    assert less + [c.names[|c.names| - 1]] == c.names;
    StackGrows(c.(names := less), c.names[|c.names| - 1]);
  }

  lemma StackOfNoNames(c: Canon)
    requires c.names == []
    ensures Stack(c) == if c.absolute then [Root] else Parents(c.ups)
    ensures !c.absolute && c.ups > 0 ==> Stack(c)[c.ups - 1] == Parent
    ensures !c.absolute ==> Stack(c.(ups := c.ups + 1)) == Stack(c) + [Parent]
  {
    assert Front(c) + [] == Front(c);
    assert !c.absolute ==> Parents(c.ups + 1) + [] == Parents(c.ups) + [Parent];
  }

  /** What one component does to the stack. */
  lemma StackTakes(c: Canon, comp: Component)
    requires comp != Root
    ensures var out := Stack(c);
      Stack(Take(c, comp)) ==
      if comp.Cur? then out
      else if comp.Normal? || out == [] || out[|out| - 1].Parent? then out + [comp]
      else if out[|out| - 1].Normal? then out[..|out| - 1]
      else out
    ensures Stack(c) != [] ==> !Stack(c)[|Stack(c)| - 1].Cur?
  {
    hide Stack, Parents, Normals;
    if comp.Normal? {
      StackGrows(c, comp.name);
    }
    if c.names != [] {
      StackShrinks(c);
      assert Stack(c)[..|Stack(c)| - 1] == Stack(c.(names := c.names[..|c.names| - 1]));
    } else {
      StackOfNoNames(c);
    }
  }

  method Normalize(path: string) returns (result: string)
    ensures result == NormalForm(path)
  {
    hide *;
    ComponentsPathLike(path);
    var components := Components(path);
    var out: seq<Component> := [];
    ghost var c := NOWHERE;
    StartIsEmpty();
    ghost var goal := CanonOf(path);
    CanonUnfolds(path);
    var i := 0;
    while i < |components|
      invariant 0 <= i <= |components| && out == Stack(c)
      invariant goal == TakeAll(c, components[i..])
      invariant i == 0 ==> out == []
    {
      var comp := components[i];
      TakeNext(c, components, i);
      if comp == Root {
        OnlyFirstIsRoot(components, i);
        RootIsAlone(c);
      } else {
        StackTakes(c, comp);
      }
      c := Take(c, comp);
      match comp {
        case Cur =>
        case Parent =>
          if out == [] || out[|out| - 1].Parent? {
            out := out + [comp];
          } else if out[|out| - 1].Normal? {
            out := out[..|out| - 1];
          }
        case Root => out := out + [comp];
        case Normal(_) => out := out + [comp];
      }
      i := i + 1;
    }
    assert components[i..] == [];
    TakeNone(c);
    result := "";
    i := 0;
    ShowNone();
    while i < |out|
      invariant 0 <= i <= |out| && result == Show(out[..i])
    {
      ShowNext(out, i);
      result := Join(result, ComponentText(out[i]));
      i := i + 1;
    }
    assert out[..i] == out;
    CanonOfOk(path);
    ShowCanonIs(c);
    if result == "" {
      result := ".";
    }
  }

  lemma StartIsEmpty()
    ensures Stack(NOWHERE) == []
  {}

  lemma CanonUnfolds(path: string)
    ensures CanonOf(path) == TakeAll(NOWHERE, Components(path)[0..])
    ensures NormalForm(path) == ShowCanon(CanonOf(path))
  {
    assert Components(path)[0..] == Components(path);
  }

  lemma TakeNext(c: Canon, cs: seq<Component>, i: nat)
    requires i < |cs|
    ensures TakeAll(c, cs[i..]) == TakeAll(Take(c, cs[i]), cs[i + 1..])
  {
    hide Take;
    assert cs[i..][1..] == cs[i + 1..];
  }

  lemma TakeNone(c: Canon)
    ensures TakeAll(c, []) == c
  {}

  lemma OnlyFirstIsRoot(cs: seq<Component>, i: nat)
    requires PathLike(cs) && i < |cs| && cs[i] == Root
    ensures i == 0
  {}

  lemma RootIsAlone(c: Canon)
    ensures Stack(Take(c, Root)) == [] + [Root]
  {}

  lemma ShowNone()
    ensures Show([]) == ""
  {}

  lemma ShowNext(cs: seq<Component>, i: nat)
    requires i < |cs|
    ensures Show(cs[..i + 1]) == Join(Show(cs[..i]), ComponentText(cs[i]))
    ensures cs[..0] == []
  {
    hide Join, ComponentText;
    assert cs[..i + 1][..|cs[..i + 1]| - 1] == cs[..i];
  }

  lemma ShowCanonIs(c: Canon)
    requires CanonOk(c)
    ensures Show(Stack(c)) == "" <==> Stack(c) == []
    ensures ShowCanon(c) == if Show(Stack(c)) == "" then "." else Show(Stack(c))
  {
    if Stack(c) != [] {
      ShowStackReads(c);
    }
  }

  // ---- Reading text back ----

  lemma SplitStep(x: char, s: string)
    ensures var rest := Text.Split(s, '/');
      Text.Split([x] + s, '/') == if x == '/' then [[]] + rest else [[x] + rest[0]] + rest[1..]
  {
    assert ([x] + s)[1..] == s;
  }

  lemma {:induction false} SplitAppend(a: string, b: string)
    ensures Text.Split(a + "/" + b, '/') == Text.Split(a, '/') + Text.Split(b, '/')
    decreases |a|
  {
    hide *;
    var x, y := Text.Split(a[if a == [] then 0 else 1..], '/'), Text.Split(b, '/');
    if a == [] {
      assert a + "/" + b == ['/'] + b;
      SplitStep('/', b);
      SplitNothing();
    } else {
      SplitAppend(a[1..], b);
      assert a + "/" + b == [a[0]] + (a[1..] + "/" + b) && a == [a[0]] + a[1..];
      SplitStep(a[0], a[1..]);
      SplitStep(a[0], a[1..] + "/" + b);
      Regroup(a[0], x, y);
    }
  }

  lemma Regroup(first: char, x: seq<string>, y: seq<string>)
    requires x != []
    ensures [[]] + (x + y) == ([[]] + x) + y
    ensures [[first] + (x + y)[0]] + (x + y)[1..] == ([[first] + x[0]] + x[1..]) + y
  {
    assert (x + y)[1..] == x[1..] + y && (x + y)[0] == x[0];
  }

  lemma SplitNothing()
    ensures Text.Split("", '/') == [""]
  {}

  lemma {:induction false} PartComponentsAppend(a: seq<string>, b: seq<string>, leading: bool)
    requires a != []
    ensures PartComponents(a + b, leading) == PartComponents(a, leading) + PartComponents(b, false)
    decreases |a|
  {
    hide PartComponent;
    assert (a + b)[1..] == a[1..] + b;
    if |a| > 1 {
      PartComponentsAppend(a[1..], b, false);
    } else {
      assert a[1..] == [] && a[1..] + b == b;
    }
  }

  /** What a path adds when it is joined to another. */
  function Added(path: string): seq<Component> {
    PartComponents(Text.Split(path, '/'), false)
  }

  /** Joining a relative path to a nonempty base adds its components. */
  lemma ComponentsJoin(base: string, path: string)
    requires base != "" && !IsAbsolute(path)
    ensures Components(Join(base, path)) == Components(base) + Added(path)
    ensures Join(base, path) != "" && (IsAbsolute(Join(base, path)) <==> IsAbsolute(base))
  {
    hide PartComponents, Text.Split;
    var front := if base[|base| - 1] == '/' then base[..|base| - 1] else base;
    var joined := Join(base, path);
    assert joined == front + "/" + path;
    assert joined[0] == base[0];
    SplitAppend(front, path);
    PartComponentsAppend(Text.Split(front, '/'), Text.Split(path, '/'), !IsAbsolute(base));
    if front != base {
      SplitAppend(front, "");
      assert front + "/" + "" == base;
      PartComponentsAppend(Text.Split(front, '/'), Text.Split("", '/'), !IsAbsolute(base));
      assert PartComponents(Text.Split("", '/'), false) == [] by { NothingAdded(); }
    }
  }

  lemma NothingAdded()
    ensures Text.Split("", '/') == [""] && PartComponents([""], false) == []
  {
    assert PartComponents([""], false) == PartComponent("", false) + PartComponents([""][1..], false);
  }

  lemma OnePart(part: string, leading: bool)
    requires '/' !in part
    ensures PartComponents(Text.Split(part, '/'), leading) == PartComponent(part, leading)
  {
    Text.SplitPart(part, "", '/');
    assert [part][1..] == [];
  }

  lemma {:induction false} PartsPathLike(parts: seq<string>, leading: bool)
    requires forall part <- parts :: '/' !in part
    ensures forall c <- PartComponents(parts, leading) :: ComponentOk(c) && c != Root
    decreases |parts|
  {
    if parts != [] {
      assert parts[0] in parts;
      PartsPathLike(parts[1..], false);
    }
  }

  lemma ComponentsPathLike(path: string)
    ensures PathLike(Components(path))
    ensures IsAbsolute(path) <==> Components(path) != [] && Components(path)[0] == Root
  {
    var parts := Text.Split(path, '/');
    PartsPathLike(parts, !IsAbsolute(path));
    hide ComponentOk, Text.Split, PartComponents;
    RootOk();
    var rest := PartComponents(parts, !IsAbsolute(path));
    assert forall i :: 0 <= i < |rest| ==> rest[i] in rest;
    if IsAbsolute(path) {
      assert Components(path) == [Root] + rest;
      assert forall i :: 0 < i < |rest| + 1 ==> Components(path)[i] == rest[i - 1];
      assert forall c :: c in Components(path) ==> c == Root || c in rest;
    } else {
      assert Components(path) == [] + rest == rest;
    }
  }

  lemma RootOk()
    ensures ComponentOk(Root)
  {}

  /** Pushing a component that is neither root nor `.` adds exactly it. */
  lemma PushReads(base: string, c: Component)
    requires ComponentOk(c) && (c.Normal? || c.Parent?)
    ensures base != "" ==> Components(Join(base, ComponentText(c))) == Components(base) + [c]
    ensures base == "" ==> Components(Join(base, ComponentText(c))) == [c]
    ensures Join(base, ComponentText(c)) != ""
  {
    var text := ComponentText(c);
    assert '/' !in text && text != "";
    OnePart(text, false);
    OnePart(text, true);
    hide PartComponents, Text.Split;
    if base != "" {
      ComponentsJoin(base, text);
    }
  }

  lemma RootReads()
    ensures Components("/") == [Root]
  {
    SplitAppend("", "");
    assert "" + "/" + "" == "/";
    NothingAdded();
    assert Text.Split("/", '/') == [""] + [""];
    PartComponentsAppend([""], [""], false);
  }

  lemma DotReads()
    ensures Components(".") == [Cur] && !IsAbsolute(".")
  {
    OnePart(".", true);
  }

  lemma {:induction false} NamesRead(front: seq<Component>, names: seq<string>)
    requires front != [] ==> Show(front) != "" && Components(Show(front)) == front
    requires forall name <- names :: NameOk(name)
    ensures var cs := front + Normals(names); cs != [] ==> Show(cs) != "" && Components(Show(cs)) == cs
    decreases |names|
  {
    hide NameOk, Components, Join, ComponentText;
    var cs := front + Normals(names);
    if names == [] {
      assert cs == front;
    } else {
      var before, name := names[..|names| - 1], names[|names| - 1];
      NamesRead(front, before);
      assert cs[..|cs| - 1] == front + Normals(before) && cs[|cs| - 1] == Normal(name);
      assert name in names;
      PushReads(Show(front + Normals(before)), Normal(name));
      assert [] + [Normal(name)] == [Normal(name)];
      if front + Normals(before) == [] {
        assert cs == [Normal(name)];
      }
    }
  }

  lemma {:induction false} ParentsRead(n: nat)
    ensures n > 0 ==> Show(Parents(n)) != "" && Components(Show(Parents(n))) == Parents(n)
  {
    hide Components, Join;
    if n > 0 {
      ParentsRead(n - 1);
      var cs := Parents(n);
      assert cs[..|cs| - 1] == Parents(n - 1) && cs[|cs| - 1] == Parent;
      PushReads(Show(Parents(n - 1)), Parent);
      if n == 1 {
        assert Parents(0) == [] && cs == [Parent];
      }
    }
  }

  /** A normal form is read back from its text. */
  lemma ShowStackReads(c: Canon)
    requires CanonOk(c) && Stack(c) != []
    ensures Show(Stack(c)) != "" && Components(Show(Stack(c))) == Stack(c)
  {
    if c.absolute {
      RootReads();
      assert [Root][..0] == [] && Join("", "/") == "/";
      assert Show([Root]) == "/";
      NamesRead([Root], c.names);
    } else {
      hide Components;
      ParentsRead(c.ups);
      NamesRead(Parents(c.ups), c.names);
    }
  }

  lemma {:induction false} TakeParents(c: Canon, n: nat)
    requires !c.absolute && c.names == []
    ensures TakeAll(c, Parents(n)) == c.(ups := c.ups + n)
    decreases n
  {
    if n > 0 {
      TakeParents(c, n - 1);
      TakeAllAppend(c, Parents(n - 1), [Parent]);
      assert [Parent][1..] == [];
    }
  }

  lemma {:induction false} TakeNormals(c: Canon, names: seq<string>)
    ensures TakeAll(c, Normals(names)) == c.(names := c.names + names)
    decreases |names|
  {
    if names == [] {
      assert c.names + names == c.names;
    } else {
      var before, name := names[..|names| - 1], names[|names| - 1];
      TakeNormals(c, before);
      TakeAllAppend(c, Normals(before), [Normal(name)]);
      assert [Normal(name)][1..] == [];
      assert c.names + before + [name] == c.names + names;
    }
  }

  lemma TakeStack(c: Canon)
    requires CanonOk(c)
    ensures TakeAll(NOWHERE, Stack(c)) == c
  {
    var front := if c.absolute then [Root] else Parents(c.ups);
    TakeAllAppend(NOWHERE, front, Normals(c.names));
    if c.absolute {
      assert [Root][1..] == [];
    } else {
      TakeParents(NOWHERE, c.ups);
    }
    TakeNormals(TakeAll(NOWHERE, front), c.names);
    assert [] + c.names == c.names;
  }

  lemma CanonOfOk(path: string)
    ensures CanonOk(CanonOf(path))
    ensures CanonOf(path).absolute <==> IsAbsolute(path)
  {
    ComponentsPathLike(path);
    var cs := Components(path);
    hide Components, ComponentOk;
    TakeAllKeepsOk(NOWHERE, cs);
    if cs != [] {
      AbsoluteStays(Take(NOWHERE, cs[0]), cs[1..]);
    }
  }

  lemma {:induction false} AbsoluteStays(c: Canon, cs: seq<Component>)
    requires forall i :: 0 <= i < |cs| ==> cs[i] != Root
    ensures TakeAll(c, cs).absolute == c.absolute
    decreases |cs|
  {
    if cs != [] {
      AbsoluteStays(Take(c, cs[0]), cs[1..]);
    }
  }

  /** The components of a normalised path are its stack, and `.` when that is empty. */
  lemma NormalFormReads(path: string)
    ensures var c := CanonOf(path);
      && Components(NormalForm(path)) == (if Stack(c) == [] then [Cur] else Stack(c))
      && CanonOf(NormalForm(path)) == c
      && (IsAbsolute(NormalForm(path)) <==> IsAbsolute(path))
  {
    var c := CanonOf(path);
    CanonOfOk(path);
    CanonOfOk(NormalForm(path));
    if Stack(c) == [] {
      DotReads();
      hide Components;
      assert TakeAll(NOWHERE, [Cur]) == NOWHERE by { assert [Cur][1..] == []; }
      assert c.names == [] && !c.absolute && c.ups == 0;
    } else {
      hide Components;
      ShowStackReads(c);
      TakeStack(c);
    }
  }

  // ---- What normalising keeps ----

  lemma NormalizeIsIdempotent(path: string)
    ensures NormalForm(NormalForm(path)) == NormalForm(path)
  {
    NormalFormReads(path);
  }

  /** A normalised absolute path is the root and names that are neither `.` nor `..`. */
  lemma NormalFormIsClean(path: string)
    requires IsAbsolute(path)
    ensures IsAbsolute(NormalForm(path))
    ensures exists names :: Components(NormalForm(path)) == [Root] + Normals(names) && forall name <- names :: NameOk(name)
  {
    NormalFormReads(path);
    CanonOfOk(path);
    hide Components, NameOk;
    assert Stack(CanonOf(path)) == [Root] + Normals(CanonOf(path).names);
  }

  function Drop(place: seq<string>, n: nat): seq<string> {
    if n == 0 then place else Up(Drop(place, n - 1))
  }

  /** Where a normal form leads. */
  function Lead(place: seq<string>, c: Canon): seq<string> {
    (if c.absolute then [] else Drop(place, c.ups)) + c.names
  }

  lemma LeadTakes(place: seq<string>, c: Canon, comp: Component)
    ensures Lead(place, Take(c, comp)) == Go(Lead(place, c), comp)
  {
    var front := if c.absolute then [] else Drop(place, c.ups);
    match comp
    case Parent =>
      if c.names == [] {
        assert front + [] == front;
        assert c.absolute || Drop(place, c.ups + 1) + [] == Up(front);
      } else {
        assert Lead(place, c)[..|Lead(place, c)| - 1] == front + c.names[..|c.names| - 1];
      }
    case Normal(name) => assert front + (c.names + [name]) == front + c.names + [name];
    case _ =>
  }

  lemma {:induction false} LeadTakesAll(place: seq<string>, c: Canon, cs: seq<Component>)
    ensures Lead(place, TakeAll(c, cs)) == Walk(Lead(place, c), cs)
    decreases |cs|
  {
    hide Lead, Take, Go;
    if cs != [] {
      LeadTakes(place, c, cs[0]);
      LeadTakesAll(place, Take(c, cs[0]), cs[1..]);
    }
  }

  lemma WalkIsLead(place: seq<string>, path: string)
    ensures Walk(place, Components(path)) == Lead(place, CanonOf(path))
  {
    LeadTakesAll(place, NOWHERE, Components(path));
    assert place + [] == place;
  }

  /** From every directory a path and its normal form lead to the same place. */
  lemma NormalizeKeepsWalk(place: seq<string>, path: string)
    ensures Walk(place, Components(NormalForm(path))) == Walk(place, Components(path))
  {
    NormalFormReads(path);
    WalkIsLead(place, path);
    WalkIsLead(place, NormalForm(path));
  }

  lemma {:induction false} DropLength(place: seq<string>, n: nat)
    ensures |Drop(place, n)| == if n <= |place| then |place| - n else 0
    ensures Drop([], n) == []
  {
    if n > 0 {
      DropLength(place, n - 1);
    }
  }

  function Deep(n: nat): (place: seq<string>)
    ensures |place| == n
  {
    if n == 0 then [] else Deep(n - 1) + ["x"]
  }

  lemma SameLeadSameCanon(a: Canon, b: Canon)
    requires CanonOk(a) && CanonOk(b)
    requires forall place :: Lead(place, a) == Lead(place, b)
    ensures a == b
  {
    assert Lead([], a) == Lead([], b);
    DropLength([], a.ups);
    DropLength([], b.ups);
    assert [] + a.names == a.names && [] + b.names == b.names;
    var deep := Deep(a.ups + b.ups + 1);
    assert Lead(deep, a) == Lead(deep, b);
    DropLength(deep, a.ups);
    DropLength(deep, b.ups);
  }

  /** From every directory the two paths lead to the same place. */
  ghost predicate SameWalk(p: string, q: string) {
    forall place :: Walk(place, Components(p)) == Walk(place, Components(q))
  }

  lemma SameCanonSameWalk(p: string, q: string)
    requires CanonOf(p) == CanonOf(q)
    ensures SameWalk(p, q)
  {
    hide Components, Walk, Lead, CanonOf;
    forall place
      ensures Walk(place, Components(p)) == Walk(place, Components(q))
    {
      WalkIsLead(place, p);
      WalkIsLead(place, q);
    }
  }

  lemma SameWalkSameCanon(p: string, q: string)
    requires SameWalk(p, q)
    ensures CanonOf(p) == CanonOf(q)
  {
    CanonOfOk(p);
    CanonOfOk(q);
    hide Components, Walk, Lead, CanonOf, CanonOk;
    forall place
      ensures Lead(place, CanonOf(p)) == Lead(place, CanonOf(q))
    {
      WalkIsLead(place, p);
      WalkIsLead(place, q);
    }
    SameLeadSameCanon(CanonOf(p), CanonOf(q));
  }

  /** Normalising tells two paths apart exactly when from some directory they lead apart. */
  lemma SameNormalFormIffSameWalk(p: string, q: string)
    ensures NormalForm(p) == NormalForm(q) <==> SameWalk(p, q)
  {
    hide *;
    NormalFormReads(p);
    NormalFormReads(q);
    CanonUnfolds(p);
    CanonUnfolds(q);
    if NormalForm(p) == NormalForm(q) {
      SameCanonSameWalk(p, q);
    }
    if SameWalk(p, q) {
      SameWalkSameCanon(p, q);
    }
  }

  lemma CanonOfJoin(base: string, path: string)
    requires base != "" && !IsAbsolute(path)
    ensures CanonOf(Join(base, path)) == TakeAll(CanonOf(base), Added(path))
  {
    ComponentsJoin(base, path);
    TakeAllAppend(NOWHERE, Components(base), Added(path));
  }

  /** Normalising a base before or after joining a relative path to it is the same, for the empty base too. */
  lemma NormalizeThenJoin(base: string, path: string)
    requires !IsAbsolute(path)
    ensures NormalForm(Join(NormalForm(base), path)) == NormalForm(Join(base, path))
  {
    if base == "" {
      EmptyBase(path);
    } else {
      NormalFormReads(base);
      NormalFormIsNotEmpty(base);
      hide CanonOf, Added, Join, Components;
      CanonOfJoin(base, path);
      CanonOfJoin(NormalForm(base), path);
    }
  }

  lemma EmptyBase(path: string)
    requires !IsAbsolute(path)
    ensures Join("", path) == path && NormalForm(Join(NormalForm(""), path)) == NormalForm(path)
  {
    NothingAdded();
    assert Components("") == [] + PartComponents([""], true) && PartComponents([""][1..], false) == [];
    assert NormalForm("") == ".";
    DotReads();
    LeadingMatters(Text.Split(path, '/'));
    hide Components;
    assert CanonOf(".") == NOWHERE by { assert [Cur][1..] == []; }
    CanonOfJoin(".", path);
    CanonWithoutDot(path);
    hide CanonOf;
  }

  /** A `.` in front makes no difference to the normal form. */
  lemma CanonWithoutDot(path: string)
    requires !IsAbsolute(path)
    ensures CanonOf(path) == TakeAll(NOWHERE, Added(path))
  {
    var parts := Text.Split(path, '/');
    LeadingMatters(parts);
    hide Text.Split, PartComponents;
    if parts[0] == "." {
      assert Components(path) == [Cur] + Added(path) && ([Cur] + Added(path))[1..] == Added(path);
    } else {
      assert Components(path) == Added(path);
    }
  }

  lemma NormalFormIsNotEmpty(path: string)
    ensures NormalForm(path) != ""
  {
    CanonOfOk(path);
    ShowCanonIs(CanonOf(path));
    hide CanonOf, Show, Stack;
  }

  // ---- The realization rule ----

  /** Component-wise containment of normalised paths. */
  ghost predicate Inside(path: string, base: string) {
    Components(NormalForm(base)) <= Components(NormalForm(path))
  }

  /** `is_inside`. */
  predicate IsInside(candidate: string, base: string) {
    var cand, root := Components(NormalForm(candidate)), Components(NormalForm(base));
    cand == root || root <= cand
  }

  /** `classify`: where under the redirect root a target is realized; `None` keeps the symlink. */
  function Classify(target: string, resolutionRoot: string, bindTarget: string): Option<string> {
    var t, root, bind := NormalForm(target), NormalForm(resolutionRoot), NormalForm(bindTarget);
    if !IsInside(t, root) || IsInside(t, bind) then None
    else
      assert Components(NormalForm(root)) <= Components(NormalForm(t)) && NormalForm(root) == root && NormalForm(t) == t by {
        NormalizeIsIdempotent(target);
        NormalizeIsIdempotent(resolutionRoot);
      }
      Some(Show(Components(t)[|Components(root)|..]))
  }

  /** A target is realized exactly when it lies under the resolution root and outside the farm. */
  lemma ClassifyRealizesIff(target: string, resolutionRoot: string, bindTarget: string)
    ensures Classify(target, resolutionRoot, bindTarget).Some? <==>
            Inside(target, resolutionRoot) && !Inside(target, bindTarget)
  {
    hide Components, NormalForm;
    NormalizeIsIdempotent(target);
    NormalizeIsIdempotent(resolutionRoot);
    NormalizeIsIdempotent(bindTarget);
  }

  lemma AbsoluteReads(path: string)
    requires IsAbsolute(path)
    ensures Components(NormalForm(path)) == [Root] + Normals(CanonOf(path).names)
    ensures forall name <- CanonOf(path).names :: NameOk(name)
  {
    NormalFormReads(path);
    CanonOfOk(path);
    hide Components, CanonOf, NormalForm, NameOk, Normals;
  }

  lemma NormalsPrefix(b: seq<string>, p: seq<string>)
    ensures [Root] + Normals(b) <= [Root] + Normals(p) <==> b <= p
  {
    NormalsAt(p);
    NormalsAt(b);
    hide Normals;
    var x, y := [Root] + Normals(b), [Root] + Normals(p);
    if x <= y {
      forall i | 0 <= i < |b|
        ensures b[i] == p[i]
      {
        assert x[i + 1] == y[i + 1];
        assert x[i + 1] == Normals(b)[i] && y[i + 1] == Normals(p)[i];
      }
    }
    if b <= p {
      assert forall i :: 0 <= i < |b| ==> b[i] == p[i];
      assert forall i :: 0 <= i < |x| ==> x[i] == y[i];
    }
  }

  /** For an absolute root, containment is that of the places the paths lead to. */
  lemma InsideIsPrefixOfPlace(path: string, base: string)
    requires IsAbsolute(base) && IsAbsolute(path)
    ensures Inside(path, base) <==> Walk([], Components(base)) <= Walk([], Components(path))
  {
    AbsoluteReads(path);
    AbsoluteReads(base);
    CanonOfOk(path);
    CanonOfOk(base);
    WalkIsLead([], path);
    WalkIsLead([], base);
    var p, b := CanonOf(path).names, CanonOf(base).names;
    hide Components, CanonOf, Walk, NormalForm, Normals, NameOk;
    NormalsPrefix(b, p);
    assert [] + p == p && [] + b == b;
  }

  lemma {:induction false} NormalsAt(names: seq<string>)
    ensures forall i :: 0 <= i < |names| ==> Normals(names)[i] == Normal(names[i])
    decreases |names|
  {
    if names != [] {
      NormalsAt(names[..|names| - 1]);
    }
  }

  lemma NormalsFrom(names: seq<string>, k: nat)
    requires k <= |names|
    ensures Normals(names)[k..] == Normals(names[k..])
  {
    NormalsAt(names);
    NormalsAt(names[k..]);
  }

  /** The relative path is made of names alone, and leads from the resolution root to the target. */
  lemma RealizedPathLeadsBack(target: string, resolutionRoot: string, bindTarget: string)
    requires IsAbsolute(resolutionRoot) && Classify(target, resolutionRoot, bindTarget).Some?
    ensures var rel := Classify(target, resolutionRoot, bindTarget).value;
      && (exists names :: Components(rel) == Normals(names) && forall name <- names :: NameOk(name))
      && !IsAbsolute(rel)
      && Components(Join(NormalForm(resolutionRoot), rel)) == Components(NormalForm(target))
      && NormalForm(Join(resolutionRoot, rel)) == NormalForm(target)
  {
    hide *;
    var t, root := NormalForm(target), NormalForm(resolutionRoot);
    var names := RealizedNames(target, resolutionRoot, bindTarget);
    var rel := Show(Normals(names));
    RelativeReads(names);
    NormalFormIsNotEmpty(resolutionRoot);
    NormalizeIsIdempotent(target);
    ComponentsJoin(root, rel);
    SameComponentsSameForm(Join(root, rel), t);
    AbsoluteIsNotEmpty(resolutionRoot);
    NormalizeThenJoin(resolutionRoot, rel);
  }

  lemma AbsoluteIsNotEmpty(path: string)
    requires IsAbsolute(path)
    ensures path != ""
  {}

  /** The names by which a realized target lies below the resolution root. */
  lemma RealizedNames(target: string, resolutionRoot: string, bindTarget: string) returns (names: seq<string>)
    requires IsAbsolute(resolutionRoot) && Classify(target, resolutionRoot, bindTarget).Some?
    ensures forall name <- names :: NameOk(name)
    ensures Classify(target, resolutionRoot, bindTarget).value == Show(Normals(names))
    ensures Components(NormalForm(target)) == Components(NormalForm(resolutionRoot)) + Normals(names)
  {
    hide *;
    var t, root := NormalForm(target), NormalForm(resolutionRoot);
    ClassifyShows(target, resolutionRoot, bindTarget);
    AbsoluteReads(resolutionRoot);
    InsideAbsolute(target, resolutionRoot);
    AbsoluteReads(target);
    var tn, rn := CanonOf(target).names, CanonOf(resolutionRoot).names;
    names := tn[|rn|..];
    NormalsFrom(tn, |rn|);
    assert |Normals(rn)| == |rn| && |Normals(tn)| == |tn|;
    assert Components(t)[|Components(root)|..] == Normals(tn)[|rn|..];
  }

  lemma ClassifyShows(target: string, resolutionRoot: string, bindTarget: string)
    requires Classify(target, resolutionRoot, bindTarget).Some?
    ensures var t, root := Components(NormalForm(target)), Components(NormalForm(resolutionRoot));
      root <= t && Classify(target, resolutionRoot, bindTarget).value == Show(t[|root|..])
  {
    hide Components, NormalForm, Show;
    ClassifyRealizesIff(target, resolutionRoot, bindTarget);
  }

  /** What begins with an absolute path is absolute. */
  lemma InsideAbsolute(path: string, base: string)
    requires IsAbsolute(base) && Components(NormalForm(base)) <= Components(NormalForm(path))
    ensures IsAbsolute(path)
  {
    AbsoluteReads(base);
    NormalFormReads(path);
    CanonOfOk(path);
    hide Components, CanonOf, NormalForm, Stack;
    assert Components(NormalForm(path))[0] == Root;
    StackRoot(CanonOf(path));
  }

  lemma SameComponentsSameForm(p: string, q: string)
    requires Components(p) == Components(q)
    ensures NormalForm(p) == NormalForm(q)
  {}

  lemma StackRoot(c: Canon)
    requires Stack(c) != [] && Stack(c)[0] == Root
    ensures c.absolute
  {
    NormalsAt(c.names);
    ParentsAt(c.ups);
  }

  lemma {:induction false} ParentsAt(n: nat)
    ensures forall i :: 0 <= i < n ==> Parents(n)[i] == Parent
  {
    if n > 0 {
      ParentsAt(n - 1);
    }
  }

  lemma RelativeReads(names: seq<string>)
    requires forall name <- names :: NameOk(name)
    ensures var rel := Show(Normals(names));
      Components(rel) == Normals(names) && Added(rel) == Normals(names) && !IsAbsolute(rel)
  {
    var rel := Show(Normals(names));
    assert [] + Normals(names) == Normals(names);
    if names == [] {
      NothingAdded();
      assert Components("") == PartComponents([""], true);
      assert PartComponents([""], true) == PartComponent("", true) + PartComponents([""][1..], false);
    } else {
      NamesRead([], names);
      ComponentsPathLike(rel);
      NormalsAt(names);
      LeadingMatters(Text.Split(rel, '/'));
    }
  }

  /** Only a leading `.` makes a difference. */
  lemma LeadingMatters(parts: seq<string>)
    requires parts != []
    ensures PartComponents(parts, true) ==
            (if parts[0] == "." then [Cur] else []) + PartComponents(parts, false)
  {
    hide Text.Split;
  }

  /** `resolve_target`. */
  function ResolveTarget(linkDir: string, target: string): string {
    if IsAbsolute(target) then NormalForm(target) else NormalForm(Join(linkDir, target))
  }

  /** The resolved target is where the link leads from the directory that holds it. */
  lemma ResolveFollowsTheLink(linkDir: string, target: string, place: seq<string>)
    requires IsAbsolute(linkDir)
    ensures IsAbsolute(ResolveTarget(linkDir, target))
    ensures Walk(place, Components(ResolveTarget(linkDir, target))) ==
            Walk(Walk([], Components(linkDir)), Components(target))
  {
    var dir := Walk([], Components(linkDir));
    WalkIsLead([], linkDir);
    WalkIsLead(dir, target);
    CanonOfOk(linkDir);
    CanonOfOk(target);
    if IsAbsolute(target) {
      NormalizeKeepsWalk(place, target);
      NormalFormReads(target);
      WalkIsLead(place, target);
    } else {
      var joined := Join(linkDir, target);
      ComponentsJoin(linkDir, target);
      NormalFormReads(joined);
      NormalizeKeepsWalk(place, joined);
      WalkIsLead(place, joined);
      CanonOfJoin(linkDir, target);
      LeadTakesAll(place, CanonOf(linkDir), Added(target));
      LeadingMatters(Text.Split(target, '/'));
      hide Components, CanonOf, NormalForm, Join;
      SameWalkWithoutDot(dir, target);
      assert Lead(place, CanonOf(linkDir)) == Lead([], CanonOf(linkDir));
    }
  }

  lemma SameWalkWithoutDot(place: seq<string>, path: string)
    requires !IsAbsolute(path)
    ensures Walk(place, Components(path)) == Walk(place, Added(path))
  {
    var parts := Text.Split(path, '/');
    LeadingMatters(parts);
    hide Text.Split, PartComponents;
    if parts[0] == "." {
      assert Components(path) == [Cur] + Added(path) && ([Cur] + Added(path))[1..] == Added(path);
    } else {
      assert Components(path) == Added(path);
    }
  }
}
