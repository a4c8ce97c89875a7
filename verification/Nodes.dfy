/**
  What the children of a directory are in the store view
  (nix-store-shared-fuse/src/fs/nodes.rs:12-110), over two trees that do not change.
*/
module Nodes {
  import opened Wrappers
  import Realize
  import Text

  /** Which root an inode's content is read from: the farm, or the relocated store. */
  datatype Backing = Bind | Redirect

  datatype Kind = Dir | File | Symlink | RealizedDir

  datatype Node = Node(backing: Backing, rel: string, kind: Kind)

  datatype FileType = IsDir | IsFile | IsLink | IsOther

  /** What the two roots answer; `stat` does not follow a link and `follow` does. */
  datatype World = World(
    stat: (Backing, string) -> Option<FileType>,
    follow: (Backing, string) -> Option<FileType>,
    readLink: string -> Option<string>,
    list: (Backing, string) -> Option<seq<string>>,
    resolutionRoot: string,
    bindTarget: string)

  function ChildRel(parentRel: string, name: string): string {
    if parentRel == "" then name else Realize.Join(parentRel, name)
  }

  /** `bind_logical`. */
  function BindLogical(w: World, rel: string): string {
    if rel == "" then w.bindTarget else Realize.Join(w.bindTarget, rel)
  }

  /** The kind a realized target is served as; `None` leaves the link a link. */
  function RealizedKind(w: World, rel: string): Option<Kind> {
    if rel == "" then Some(RealizedDir)
    else
      match w.follow(Redirect, rel)
      case Some(IsDir) => Some(RealizedDir)
      case Some(IsFile) => Some(File)
      case _ => None
  }

  /** Where the farm link `name` leads. */
  function LinkTarget(w: World, parentRel: string, raw: string): string {
    Realize.ResolveTarget(BindLogical(w, parentRel), raw)
  }

  /** `resolve_bind_child`. */
  function ResolveBindChild(w: World, parentRel: string, name: string): Option<Node> {
    var childRel := ChildRel(parentRel, name);
    match w.stat(Bind, childRel)
    case Some(IsLink) =>
      (match w.readLink(childRel)
       case None => None
       case Some(raw) =>
         var rel := Realize.Classify(LinkTarget(w, parentRel, raw), w.resolutionRoot, w.bindTarget);
         if rel.Some? && RealizedKind(w, rel.value).Some?
         then Some(Node(Redirect, rel.value, RealizedKind(w, rel.value).value))
         else Some(Node(Bind, childRel, Symlink)))
    case Some(IsDir) => Some(Node(Bind, childRel, Dir))
    case Some(IsFile) => Some(Node(Bind, childRel, File))
    case _ => None
  }

  /** `resolve_redirect_child`. */
  function ResolveRedirectChild(w: World, parentRel: string, name: string): Option<Node> {
    var childRel := ChildRel(parentRel, name);
    match w.stat(Redirect, childRel)
    case Some(IsLink) => Some(Node(Redirect, childRel, Symlink))
    case Some(IsDir) => Some(Node(Redirect, childRel, Dir))
    case Some(IsFile) => Some(Node(Redirect, childRel, File))
    case _ => None
  }

  function Resolve(w: World, parent: Node, name: string): Option<Node> {
    match parent.backing
    case Bind => ResolveBindChild(w, parent.rel, name)
    case Redirect => ResolveRedirectChild(w, parent.rel, name)
  }

  predicate IsDirectory(n: Node) {
    n.kind == Dir || n.kind == RealizedDir
  }

  function OrDot(rel: string): string {
    if rel == "" then "." else rel
  }

  /** Whether `attr_for` finds the metadata of a node. */
  predicate HasAttr(w: World, n: Node) {
    if n.kind == Symlink then w.stat(n.backing, OrDot(n.rel)).Some? else w.follow(n.backing, OrDot(n.rel)).Some?
  }

  /** The child of a farm directory is served from the relocated store. */
  predicate Realized(w: World, parentRel: string, name: string) {
    var n := ResolveBindChild(w, parentRel, name);
    n.Some? && n.value.backing == Redirect
  }

  /** Something servable is where the target lies in the relocated store. */
  predicate Servable(w: World, target: string) {
    match Realize.Classify(target, w.resolutionRoot, w.bindTarget)
    case None => false
    case Some(rel) => RealizedKind(w, rel).Some?
  }

  /**
    A farm link is followed exactly when it leads under the resolution root, not back
    into the farm, and something servable is there.
  */
  lemma RealizedIff(w: World, parentRel: string, name: string, raw: string)
    requires w.stat(Bind, ChildRel(parentRel, name)) == Some(IsLink)
    requires w.readLink(ChildRel(parentRel, name)) == Some(raw)
    ensures var target := LinkTarget(w, parentRel, raw);
      Realized(w, parentRel, name) <==>
      Realize.Inside(target, w.resolutionRoot) && !Realize.Inside(target, w.bindTarget) && Servable(w, target)
  {
    hide Realize.Classify, Realize.Inside, LinkTarget, RealizedKind, ChildRel;
    Realize.ClassifyRealizesIff(LinkTarget(w, parentRel, raw), w.resolutionRoot, w.bindTarget);
  }

  /** What is served instead of a followed link is what the link leads to, seen from the relocated store. */
  lemma RealizedIsTheTarget(w: World, parentRel: string, name: string, raw: string)
    requires Realize.IsAbsolute(w.resolutionRoot)
    requires w.stat(Bind, ChildRel(parentRel, name)) == Some(IsLink)
    requires w.readLink(ChildRel(parentRel, name)) == Some(raw)
    requires Realized(w, parentRel, name)
    ensures Realize.NormalForm(Realize.Join(w.resolutionRoot, ResolveBindChild(w, parentRel, name).value.rel)) ==
            Realize.NormalForm(LinkTarget(w, parentRel, raw))
  {
    hide Realize.Classify, Realize.NormalForm, LinkTarget, RealizedKind, Realize.Join, ChildRel, Realize.IsAbsolute;
    Realize.RealizedPathLeadsBack(LinkTarget(w, parentRel, raw), w.resolutionRoot, w.bindTarget);
  }

  /** What is really at the place a node is served from. */
  ghost predicate TrueKind(w: World, n: Node, realized: bool) {
    match n.kind
    case Symlink => w.stat(n.backing, n.rel) == Some(IsLink)
    case Dir => w.stat(n.backing, n.rel) == Some(IsDir)
    case RealizedDir => n.backing == Redirect && (n.rel == "" || w.follow(Redirect, n.rel) == Some(IsDir))
    case File =>
      if realized then n.backing == Redirect && w.follow(Redirect, n.rel) == Some(IsFile)
      else w.stat(n.backing, n.rel) == Some(IsFile)
  }

  /** Every child is served as what it is where it is; a name is refused only if nothing servable has it. */
  lemma ServedAsItIs(w: World, parent: Node, name: string)
    ensures var child := Resolve(w, parent, name);
      var there := w.stat(parent.backing, ChildRel(parent.rel, name));
      var unread := there == Some(IsLink) && parent.backing == Bind && w.readLink(ChildRel(parent.rel, name)).None?;
      && (child.Some? ==> TrueKind(w, child.value, parent.backing == Bind && child.value.backing == Redirect))
      && (child.None? <==> there in {None, Some(IsOther)} || unread)
  {
    hide Realize.Classify, LinkTarget, ChildRel;
  }

  /** Below a realized node everything stays in the relocated store, and no link is followed any more. */
  lemma RealizationIsFinal(w: World, parent: Node, name: string)
    requires parent.backing == Redirect && Resolve(w, parent, name).Some?
    ensures var n := Resolve(w, parent, name).value;
      n.backing == Redirect && n.kind != RealizedDir && n.rel == ChildRel(parent.rel, name)
  {}

  // ---- Where the paths lead ----

  /** The place a path below a root leads to, as the names on the way. */
  function PlaceOf(rel: string): seq<string> {
    Realize.Walk([], Realize.Components(rel))
  }

  lemma {:induction false} WalkOn(place: seq<string>, a: seq<Realize.Component>, b: seq<Realize.Component>)
    ensures Realize.Walk(place, a + b) == Realize.Walk(Realize.Walk(place, a), b)
    decreases |a|
  {
    if a == [] {
      assert a + b == b;
    } else {
      assert (a + b)[0] == a[0] && (a + b)[1..] == a[1..] + b;
      WalkOn(Realize.Go(place, a[0]), a[1..], b);
    }
  }

  lemma NameAdds(place: seq<string>, name: string)
    requires Realize.NameOk(name)
    ensures Realize.Added(name) == [Realize.Normal(name)] == Realize.Components(name)
    ensures Realize.Walk(place, [Realize.Normal(name)]) == place + [name]
  {
    Text.SplitPart(name, "", '/');
    var parts := [name];
    assert name[0] in name && parts[1..] == [] && Text.Split(name, '/') == parts;
    OnePart(name, false);
    OnePart(name, true);
    assert [] + [Realize.Normal(name)] == [Realize.Normal(name)] && [Realize.Normal(name)][1..] == [];
    assert Realize.Walk(place + [name], []) == place + [name];
  }

  lemma OnePart(part: string, leading: bool)
    ensures Realize.PartComponents([part], leading) == Realize.PartComponent(part, leading)
  {
    assert [part][1..] == [] && Realize.PartComponents([], false) == [];
    assert Realize.PartComponent(part, leading) + [] == Realize.PartComponent(part, leading);
  }

  /** A child lies in its parent's place under its own name. */
  lemma ChildIsBelow(parentRel: string, name: string)
    requires Realize.NameOk(name)
    ensures PlaceOf(ChildRel(parentRel, name)) == PlaceOf(parentRel) + [name]
  {
    NameAdds(PlaceOf(parentRel), name);
    assert name[0] in name;
    hide Realize.Walk, Realize.NameOk;
    if parentRel == "" {
      EmptyPath();
    } else {
      Realize.ComponentsJoin(parentRel, name);
      WalkOn([], Realize.Components(parentRel), Realize.Added(name));
    }
  }

  lemma EmptyPath()
    ensures Realize.Components("") == [] && PlaceOf("") == []
  {
    assert Text.Split("", '/') == [""];
    OnePart("", true);
  }

  /** A farm link leads from the directory that holds it, which is where the farm has it. */
  lemma LinkLeadsFromItsDirectory(w: World, parentRel: string, raw: string, place: seq<string>)
    requires Realize.IsAbsolute(w.bindTarget) && !Realize.IsAbsolute(parentRel)
    ensures Realize.Walk(place, Realize.Components(LinkTarget(w, parentRel, raw))) ==
            Realize.Walk(Realize.Walk(PlaceOf(w.bindTarget), Realize.Components(parentRel)), Realize.Components(raw))
  {
    hide Realize.Walk, Realize.Components, Realize.Join, Realize.ResolveTarget;
    Realize.ResolveFollowsTheLink(w.bindTarget, raw, place);
    if parentRel == "" {
      EmptyPath();
      NoSteps(PlaceOf(w.bindTarget));
    } else {
      JoinedPlace(w.bindTarget, parentRel);
      JoinIsAbsolute(w.bindTarget, parentRel);
      Realize.ResolveFollowsTheLink(Realize.Join(w.bindTarget, parentRel), raw, place);
    }
  }

  lemma NoSteps(place: seq<string>)
    ensures Realize.Walk(place, []) == place
  {}

  lemma JoinIsAbsolute(base: string, rel: string)
    requires Realize.IsAbsolute(base) && !Realize.IsAbsolute(rel)
    ensures Realize.IsAbsolute(Realize.Join(base, rel))
  {
    Realize.ComponentsJoin(base, rel);
  }

  lemma JoinedPlace(base: string, rel: string)
    requires Realize.IsAbsolute(base) && !Realize.IsAbsolute(rel) && rel != ""
    ensures PlaceOf(Realize.Join(base, rel)) == Realize.Walk(PlaceOf(base), Realize.Components(rel))
  {
    Realize.ComponentsJoin(base, rel);
    AddedIsComponents(PlaceOf(base), rel);
    hide Realize.Components, Realize.Walk, Realize.Join, Realize.Added;
    WalkOn([], Realize.Components(base), Realize.Added(rel));
  }

  /** A dot in front of a path changes nothing of where it leads. */
  lemma AddedIsComponents(place: seq<string>, rel: string)
    requires !Realize.IsAbsolute(rel)
    ensures Realize.Walk(place, Realize.Added(rel)) == Realize.Walk(place, Realize.Components(rel))
  {
    var parts := Text.Split(rel, '/');
    var rest := Realize.PartComponents(parts[1..], false);
    assert Realize.Components(rel) == Realize.PartComponent(parts[0], true) + rest;
    assert Realize.Added(rel) == Realize.PartComponent(parts[0], false) + rest;
    if parts[0] == "." {
      assert ([Realize.Cur] + rest)[1..] == rest && [] + rest == rest;
    }
  }

  /**
    A farm link that is followed is served as a directory if it leads to the root of
    the relocated store or to a directory there, as a file if it leads to a file, and
    any other one stays a link.
  */
  lemma FollowedKind(w: World, parentRel: string, name: string, raw: string)
    requires w.stat(Bind, ChildRel(parentRel, name)) == Some(IsLink)
    requires w.readLink(ChildRel(parentRel, name)) == Some(raw)
    ensures var rel := Realize.Classify(LinkTarget(w, parentRel, raw), w.resolutionRoot, w.bindTarget);
      ResolveBindChild(w, parentRel, name) ==
      if rel.Some? && (rel.value == "" || w.follow(Redirect, rel.value) == Some(IsDir)) then
        Some(Node(Redirect, rel.value, RealizedDir))
      else if rel.Some? && w.follow(Redirect, rel.value) == Some(IsFile) then Some(Node(Redirect, rel.value, File))
      else Some(Node(Bind, ChildRel(parentRel, name), Symlink))
  {
    hide Realize.Classify, LinkTarget, ChildRel;
  }
}
