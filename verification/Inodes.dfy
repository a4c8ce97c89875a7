/**
  The inode table of the store view: lookups and paged directory listings
  (nix-store-shared-fuse/src/fs/mod.rs:184-196, operations.rs:37-73 and 118-192),
  while both roots stay as they are.
*/
module Inodes {
  import opened Wrappers
  import opened Nodes

  const ROOT_INO: nat := 1

  type Key = (nat, string)

  datatype Table = Table(nodes: map<nat, Node>, cache: map<Key, nat>, next: nat)

  const ROOT_NODE := Node(Bind, "", Dir)

  function Initial(): Table {
    Table(map[ROOT_INO := ROOT_NODE], map[], ROOT_INO + 1)
  }

  /** `intern`: the inode of a child, new if the child was never seen. */
  function Intern(t: Table, parent: nat, name: string, node: Node): (Table, nat) {
    var key := (parent, name);
    if key in t.cache then (t.(nodes := t.nodes[t.cache[key] := node]), t.cache[key])
    else (Table(t.nodes[t.next := node], t.cache[key := t.next], t.next + 1), t.next)
  }

  datatype Found = NoEntry | NotDirectory | IoError | Entry(ino: nat, node: Node)

  /** `lookup`. */
  function Lookup(w: World, t: Table, parent: nat, name: string): (Table, Found) {
    if parent !in t.nodes then (t, NoEntry)
    else if !IsDirectory(t.nodes[parent]) then (t, NotDirectory)
    else
      match Resolve(w, t.nodes[parent], name)
      case None => (t, NoEntry)
      case Some(child) =>
        if !HasAttr(w, child) then (t, IoError)
        else
          var (u, ino) := Intern(t, parent, name, child);
          (u, Entry(ino, child))
  }

  datatype Kinded = Directory | RegularFile | Link

  function KindOf(n: Node): Kinded {
    match n.kind
    case Dir => Directory
    case RealizedDir => Directory
    case File => RegularFile
    case Symlink => Link
  }

  datatype DirEntry = DirEntry(ino: nat, kind: Kinded, name: string)

  /** The children that can be served, in the order the host lists them. */
  function Pending(w: World, parent: Node, names: seq<string>): seq<(string, Node)> {
    if names == [] then []
    else
      (match Resolve(w, parent, names[0])
       case None => []
       case Some(child) => [(names[0], child)]) + Pending(w, parent, names[1..])
  }

  function InternAll(t: Table, parent: nat, pending: seq<(string, Node)>): (Table, seq<DirEntry>)
    decreases |pending|
  {
    if pending == [] then (t, [])
    else
      var (name, child) := pending[0];
      var (u, ino) := Intern(t, parent, name, child);
      var (v, rest) := InternAll(u, parent, pending[1..]);
      (v, [DirEntry(ino, KindOf(child), name)] + rest)
  }

  datatype Listing = Refused(found: Found) | Entries(all: seq<DirEntry>)

  function Dots(ino: nat): seq<DirEntry> {
    [DirEntry(ino, Directory, "."), DirEntry(ino, Directory, "..")]
  }

  /** All entries of a directory, before paging; `IoError` stands for the host's error. */
  function List(w: World, t: Table, ino: nat): (Table, Listing) {
    if ino !in t.nodes then (t, Refused(NoEntry))
    else if !IsDirectory(t.nodes[ino]) then (t, Refused(NotDirectory))
    else
      match w.list(t.nodes[ino].backing, OrDot(t.nodes[ino].rel))
      case None => (t, Refused(IoError))
      case Some(names) =>
        var (u, entries) := InternAll(t, ino, Pending(w, t.nodes[ino], names));
        (u, Entries(Dots(ino) + entries))
  }

  datatype Sent = Sent(entry: DirEntry, offset: nat)

  /** The entries from `offset` on that fit, each with the offset at which to resume behind it. */
  function Page(entries: seq<DirEntry>, offset: nat, room: nat): (page: seq<Sent>)
    decreases |entries| - offset
  {
    if offset >= |entries| || room == 0 then []
    else [Sent(entries[offset], offset + 1)] + Page(entries, offset + 1, room - 1)
  }

  /** `readdir`, when the reply has room for `room` entries. */
  function ReadDir(w: World, t: Table, ino: nat, offset: nat, room: nat): (Table, Option<seq<Sent>>) {
    var (u, listing) := List(w, t, ino);
    (u, if listing.Entries? then Some(Page(listing.all, offset, room)) else None)
  }

  // ---- What every operation keeps ----

  /** Every cached child is the one its parent's directory has under its name. */
  ghost predicate Faithful(w: World, t: Table, key: Key)
    requires key in t.cache
  {
    && ROOT_INO < t.cache[key] < t.next
    && key.0 in t.nodes && t.cache[key] in t.nodes
    && Resolve(w, t.nodes[key.0], key.1) == Some(t.nodes[t.cache[key]])
  }

  ghost predicate Inv(w: World, t: Table) {
    && ROOT_INO in t.nodes && t.nodes[ROOT_INO] == ROOT_NODE && ROOT_INO < t.next
    && (forall ino <- t.nodes :: ino < t.next)
    && (forall key <- t.cache :: Faithful(w, t, key))
    && (forall a, b :: a in t.cache && b in t.cache && t.cache[a] == t.cache[b] ==> a == b)
  }

  /** The later table knows everything the earlier one did, unchanged. */
  ghost predicate Extends(t: Table, u: Table) {
    && (forall ino <- t.nodes :: ino in u.nodes && u.nodes[ino] == t.nodes[ino])
    && (forall key <- t.cache :: key in u.cache && u.cache[key] == t.cache[key])
  }

  lemma ExtendsTrans(t: Table, u: Table, v: Table)
    requires Extends(t, u) && Extends(u, v)
    ensures Extends(t, v)
  {}

  lemma ExtendsSelf(t: Table)
    ensures Extends(t, t)
  {}

  lemma NewChildIsFaithful(w: World, t: Table, parent: nat, name: string, node: Node, u: Table, k: Key)
    requires Inv(w, t) && parent in t.nodes && Resolve(w, t.nodes[parent], name) == Some(node)
    requires (parent, name) !in t.cache && u == Intern(t, parent, name, node).0 && k in u.cache
    ensures Faithful(w, u, k)
    ensures u.cache[k] == t.next <==> k == (parent, name)
  {
    hide Resolve;
    if k != (parent, name) {
      assert Faithful(w, t, k);
    }
  }

  /** Interning a resolved child keeps the table in order; for a known child it changes nothing. */
  lemma InternKeeps(w: World, t: Table, parent: nat, name: string, node: Node)
    requires Inv(w, t) && parent in t.nodes && Resolve(w, t.nodes[parent], name) == Some(node)
    ensures var (u, ino) := Intern(t, parent, name, node);
      && Inv(w, u) && Extends(t, u)
      && (parent, name) in u.cache && u.cache[(parent, name)] == ino
      && ino in u.nodes && u.nodes[ino] == node
      && ((parent, name) in t.cache ==> u == t)
      && ((parent, name) !in t.cache ==> ino == t.next && u.next == t.next + 1 && ino !in t.nodes)
  {
    hide Resolve;
    var (u, ino) := Intern(t, parent, name, node);
    var key := (parent, name);
    if key in t.cache {
      assert Faithful(w, t, key);
      assert u.nodes == t.nodes;
    } else {
      forall k | k in u.cache
        ensures Faithful(w, u, k) && (u.cache[k] == t.next <==> k == key)
      {
        NewChildIsFaithful(w, t, parent, name, node, u, k);
      }
      hide Faithful;
      forall a, b | a in u.cache && b in u.cache && u.cache[a] == u.cache[b]
        ensures a == b
      {
        assert u.cache[a] == t.next <==> a == key;
        assert u.cache[b] == t.next <==> b == key;
      }
    }
  }

  lemma LookupKeeps(w: World, t: Table, parent: nat, name: string)
    requires Inv(w, t)
    ensures Inv(w, Lookup(w, t, parent, name).0) && Extends(t, Lookup(w, t, parent, name).0)
    ensures Lookup(w, t, parent, name).1.Entry? ==>
              var (u, found) := Lookup(w, t, parent, name);
              && (parent, name) in u.cache && u.cache[(parent, name)] == found.ino
              && found.ino in u.nodes && u.nodes[found.ino] == found.node
  {
    ExtendsSelf(t);
    if parent in t.nodes {
      var child := Resolve(w, t.nodes[parent], name);
      if child.Some? {
        InternKeeps(w, t, parent, name, child.value);
      }
    }
    hide Resolve, Inv, Extends, HasAttr;
  }

  /** The entries are those of the children, in order, each under the inode its name now has. */
  ghost predicate Numbered(t: Table, parent: nat, pending: seq<(string, Node)>, entries: seq<DirEntry>) {
    && |entries| == |pending|
    && forall i :: 0 <= i < |pending| ==>
         && (parent, pending[i].0) in t.cache
         && entries[i] == DirEntry(t.cache[(parent, pending[i].0)], KindOf(pending[i].1), pending[i].0)
  }

  ghost predicate Resolved(w: World, parent: Node, pending: seq<(string, Node)>) {
    forall i :: 0 <= i < |pending| ==> Resolve(w, parent, pending[i].0) == Some(pending[i].1)
  }

  lemma {:induction false} PendingIsResolved(w: World, parent: Node, names: seq<string>)
    ensures Resolved(w, parent, Pending(w, parent, names))
    ensures forall name :: (exists c :: c in Pending(w, parent, names) && c.0 == name) <==>
                           name in names && Resolve(w, parent, name).Some?
    decreases |names|
  {
    hide Resolve;
    if names != [] {
      PendingIsResolved(w, parent, names[1..]);
      var rest := Pending(w, parent, names[1..]);
      var all := Pending(w, parent, names);
      var first := Resolve(w, parent, names[0]);
      if first.Some? {
        assert all == [(names[0], first.value)] + rest;
        assert all[0] == (names[0], first.value);
        assert forall c :: c in all <==> c == all[0] || c in rest;
      } else {
        assert all == rest;
      }
      assert forall name :: name in names <==> name == names[0] || name in names[1..];
    }
  }

  lemma {:induction false} InternAllKeeps(w: World, t: Table, parent: nat, pending: seq<(string, Node)>)
    requires Inv(w, t) && parent in t.nodes && Resolved(w, t.nodes[parent], pending)
    ensures var (u, entries) := InternAll(t, parent, pending);
      Inv(w, u) && Extends(t, u) && Numbered(u, parent, pending, entries)
    decreases |pending|
  {
    ExtendsSelf(t);
    if pending != [] {
      var (name, child) := pending[0];
      var (u, ino) := Intern(t, parent, name, child);
      assert Resolve(w, t.nodes[parent], pending[0].0) == Some(pending[0].1);
      InternKeeps(w, t, parent, name, child);
      assert u.nodes[parent] == t.nodes[parent];
      assert Resolved(w, u.nodes[parent], pending[1..]);
      hide Intern, Inv, Resolve, Resolved;
      InternAllKeeps(w, u, parent, pending[1..]);
      var (v, rest) := InternAll(u, parent, pending[1..]);
      ExtendsTrans(t, u, v);
      assert v.cache[(parent, name)] == ino;
      assert InternAll(t, parent, pending) == (v, [DirEntry(ino, KindOf(child), name)] + rest);
      hide InternAll, Extends;
      NumberedOn(v, parent, pending, rest);
    }
  }

  lemma NumberedOn(t: Table, parent: nat, pending: seq<(string, Node)>, rest: seq<DirEntry>)
    requires pending != [] && Numbered(t, parent, pending[1..], rest)
    requires (parent, pending[0].0) in t.cache
    ensures Numbered(t, parent, pending, [DirEntry(t.cache[(parent, pending[0].0)], KindOf(pending[0].1), pending[0].0)] + rest)
  {
    forall i | 0 < i < |pending|
      ensures (parent, pending[i].0) in t.cache &&
              rest[i - 1] == DirEntry(t.cache[(parent, pending[i].0)], KindOf(pending[i].1), pending[i].0)
    {
      assert pending[i] == pending[1..][i - 1];
    }
  }

  /** Interning children that all are known changes nothing. */
  lemma {:induction false} InternAllAgain(w: World, t: Table, parent: nat, pending: seq<(string, Node)>)
    requires Inv(w, t) && parent in t.nodes && Resolved(w, t.nodes[parent], pending)
    requires forall i :: 0 <= i < |pending| ==> (parent, pending[i].0) in t.cache
    ensures InternAll(t, parent, pending).0 == t
    decreases |pending|
  {
    if pending != [] {
      var (name, child) := pending[0];
      assert Resolve(w, t.nodes[parent], pending[0].0) == Some(pending[0].1);
      assert (parent, pending[0].0) in t.cache;
      InternKeeps(w, t, parent, name, child);
      assert forall i :: 0 <= i < |pending[1..]| ==> pending[1..][i] == pending[i + 1];
      hide Intern, Inv, Resolve;
      InternAllAgain(w, t, parent, pending[1..]);
    }
  }

  lemma ListKeeps(w: World, t: Table, ino: nat)
    requires Inv(w, t)
    ensures Inv(w, List(w, t, ino).0) && Extends(t, List(w, t, ino).0)
  {
    ExtendsSelf(t);
    if ino in t.nodes {
      var names := w.list(t.nodes[ino].backing, OrDot(t.nodes[ino].rel));
      if names.Some? {
        PendingIsResolved(w, t.nodes[ino], names.value);
        InternAllKeeps(w, t, ino, Pending(w, t.nodes[ino], names.value));
      }
    }
    hide Inv, Extends, InternAll, Pending;
  }

  // ---- Whole runs ----

  datatype Call = LookupCall(parent: nat, name: string) | ReadDirCall(ino: nat, offset: nat, room: nat)

  function Step(w: World, t: Table, call: Call): Table {
    match call
    case LookupCall(parent, name) => Lookup(w, t, parent, name).0
    case ReadDirCall(ino, offset, room) => ReadDir(w, t, ino, offset, room).0
  }

  function After(w: World, t: Table, calls: seq<Call>): Table
    decreases |calls|
  {
    if calls == [] then t else After(w, Step(w, t, calls[0]), calls[1..])
  }

  lemma {:induction false} RunKeeps(w: World, t: Table, calls: seq<Call>)
    requires Inv(w, t)
    ensures Inv(w, After(w, t, calls)) && Extends(t, After(w, t, calls))
    decreases |calls|
  {
    ExtendsSelf(t);
    if calls != [] {
      match calls[0] {
        case LookupCall(parent, name) => LookupKeeps(w, t, parent, name);
        case ReadDirCall(ino, offset, room) => ListKeeps(w, t, ino);
      }
      hide Inv, Extends, Lookup, List, Page;
      RunKeeps(w, Step(w, t, calls[0]), calls[1..]);
      ExtendsTrans(t, Step(w, t, calls[0]), After(w, t, calls));
    }
  }

  /** A mount begins with the root as inode 1, and the first child will be inode 2. */
  lemma InitialInv(w: World)
    ensures Inv(w, Initial())
    ensures Initial() == Table(map[1 := Node(Bind, "", Dir)], map[], 2)
  {}

  /**
    From the start of a mount, through any calls: a child keeps its inode and its node,
    different children have different inodes, and no child has the root's.
  */
  lemma InodesAreStable(w: World, calls: seq<Call>, more: seq<Call>, a: Key, b: Key)
    requires var t := After(w, Initial(), calls); a in t.cache && b in t.cache
    ensures var t := After(w, Initial(), calls);
      var u := After(w, t, more);
      && a in u.cache && u.cache[a] == t.cache[a]
      && t.cache[a] in t.nodes && t.cache[a] in u.nodes && u.nodes[t.cache[a]] == t.nodes[t.cache[a]]
      && (t.cache[a] == t.cache[b] ==> a == b)
      && t.cache[a] != ROOT_INO
  {
    InitialInv(w);
    RunKeeps(w, Initial(), calls);
    var t := After(w, Initial(), calls);
    RunKeeps(w, t, more);
    hide After;
    assert Faithful(w, t, a);
  }

  // ---- Below a followed link ----

  /** The inode reached from `top` by one known child after the other. */
  function Follow(t: Table, top: nat, names: seq<string>): Option<nat>
    decreases |names|
  {
    if names == [] then Some(top)
    else if (top, names[0]) in t.cache then Follow(t, t.cache[(top, names[0])], names[1..])
    else None
  }

  lemma {:induction false} StaysRedirected(w: World, t: Table, top: nat, names: seq<string>)
    requires Inv(w, t) && top in t.nodes && t.nodes[top].backing == Redirect
    requires names != [] && Follow(t, top, names).Some?
    ensures var ino := Follow(t, top, names).value;
      ino in t.nodes && t.nodes[ino].backing == Redirect && t.nodes[ino].kind != RealizedDir
    decreases |names|
  {
    var key := (top, names[0]);
    assert Faithful(w, t, key);
    RealizationIsFinal(w, t.nodes[top], names[0]);
    hide Resolve, Inv;
    if |names| > 1 {
      StaysRedirected(w, t, t.cache[key], names[1..]);
    } else {
      assert names[1..] == [];
    }
  }

  /**
    After any calls, everything below a node served from the relocated store, at any
    depth, is served from there, and no link below it is followed.
  */
  lemma EverythingBelowStaysRedirected(w: World, calls: seq<Call>, top: nat, names: seq<string>)
    requires var t := After(w, Initial(), calls);
      top in t.nodes && t.nodes[top].backing == Redirect && names != [] && Follow(t, top, names).Some?
    ensures var t := After(w, Initial(), calls);
      var ino := Follow(t, top, names).value;
      ino in t.nodes && t.nodes[ino].backing == Redirect && t.nodes[ino].kind != RealizedDir
  {
    InitialInv(w);
    RunKeeps(w, Initial(), calls);
    hide After, Inv, Follow;
    StaysRedirected(w, After(w, Initial(), calls), top, names);
  }

  // ---- Lookups and listings agree ----

  /** A listing again, after any calls, is the same listing and changes nothing. */
  lemma ListingIsStable(w: World, t: Table, ino: nat, calls: seq<Call>)
    requires Inv(w, t) && List(w, t, ino).1.Entries?
    ensures var (u, listing) := List(w, t, ino);
      var v := After(w, u, calls);
      List(w, v, ino) == (v, listing)
  {
    ListKeeps(w, t, ino);
    var (u, listing) := List(w, t, ino);
    RunKeeps(w, u, calls);
    var v := After(w, u, calls);
    var node := t.nodes[ino];
    var names := w.list(node.backing, OrDot(node.rel)).value;
    var pending := Pending(w, node, names);
    PendingIsResolved(w, node, names);
    InternAllKeeps(w, t, ino, pending);
    ExtendsTrans(t, u, v);
    assert v.nodes[ino] == node;
    InternAllKeeps(w, v, ino, pending);
    assert forall i :: 0 <= i < |pending| ==> (ino, pending[i].0) in v.cache;
    InternAllAgain(w, v, ino, pending);
    hide After, InternAll, Pending, Inv, Resolved;
    assert InternAll(v, ino, pending).1 == InternAll(t, ino, pending).1;
  }

  /** A listed child that has attributes is found by a later lookup under the inode and kind it was listed with. */
  lemma LookupAgreesWithListing(w: World, t: Table, ino: nat, i: nat, calls: seq<Call>)
    requires Inv(w, t) && List(w, t, ino).1.Entries? && 2 <= i < |List(w, t, ino).1.all|
    ensures var (u, listing) := List(w, t, ino);
      var found := Lookup(w, After(w, u, calls), ino, listing.all[i].name).1;
      || found == IoError
      || (found.Entry? && found.ino == listing.all[i].ino && KindOf(found.node) == listing.all[i].kind)
  {
    ListKeeps(w, t, ino);
    var (u, listing) := List(w, t, ino);
    RunKeeps(w, u, calls);
    var v := After(w, u, calls);
    var node := t.nodes[ino];
    var names := w.list(node.backing, OrDot(node.rel)).value;
    var pending := Pending(w, node, names);
    PendingIsResolved(w, node, names);
    InternAllKeeps(w, t, ino, pending);
    var entries := InternAll(t, ino, pending).1;
    assert listing.all == Dots(ino) + entries && listing.all[i] == entries[i - 2];
    assert Resolve(w, node, pending[i - 2].0) == Some(pending[i - 2].1);
    assert v.nodes[ino] == node && (ino, pending[i - 2].0) in v.cache;
    hide After, InternAll, Pending, Inv, Resolved, Resolve;
  }

  /** What is no link is the same whether links are followed or not, and both roots are there. */
  ghost predicate Coherent(w: World) {
    && (forall b, rel :: w.stat(b, rel) in {Some(IsDir), Some(IsFile)} ==> w.follow(b, rel) == w.stat(b, rel))
    && (forall b :: w.follow(b, ".").Some?)
  }

  /** A child is at its own place, or it is what a followed link leads to. */
  lemma PlaceOfChild(w: World, parent: Node, name: string)
    requires Resolve(w, parent, name).Some?
    ensures var n := Resolve(w, parent, name).value;
      || (n.backing == parent.backing && n.rel == ChildRel(parent.rel, name)
          && w.stat(n.backing, n.rel) == Some(if n.kind == Symlink then IsLink else if n.kind == Dir then IsDir else IsFile))
      || (n.backing == Redirect && n.kind != Symlink && (n.rel == "" || w.follow(Redirect, n.rel).Some?))
  {
    hide Realize.Classify, LinkTarget, ChildRel;
  }

  lemma ChildRelIsName(parentRel: string, name: string)
    requires name != ""
    ensures ChildRel(parentRel, name) != ""
  {}

  lemma ChildHasAttr(w: World, parent: Node, name: string)
    requires Coherent(w) && name != "" && Resolve(w, parent, name).Some?
    ensures HasAttr(w, Resolve(w, parent, name).value)
  {
    PlaceOfChild(w, parent, name);
    ChildRelIsName(parent.rel, name);
    hide Resolve, ChildRel;
  }

  /**
    On a host that answers coherently a lookup fails only for an unknown or an
    unservable name or in what is no directory; every other name is found.
  */
  lemma LookupFinds(w: World, t: Table, parent: nat, name: string)
    requires Coherent(w) && name != ""
    ensures var found := Lookup(w, t, parent, name).1;
      if parent !in t.nodes then found == NoEntry
      else if t.nodes[parent].kind !in {Dir, RealizedDir} then found == NotDirectory
      else
        match Resolve(w, t.nodes[parent], name)
        case None => found == NoEntry
        case Some(child) => found.Entry? && found.node == child
  {
    if parent in t.nodes && Resolve(w, t.nodes[parent], name).Some? {
      ChildHasAttr(w, t.nodes[parent], name);
    }
    hide Resolve, HasAttr;
  }

  /**
    A listing begins with the directory itself under both of its names; every other
    entry has the file type of the node it stands for.
  */
  lemma ListingShows(w: World, t: Table, ino: nat, i: nat)
    requires Inv(w, t) && List(w, t, ino).1.Entries? && i < |List(w, t, ino).1.all|
    ensures var (u, listing) := List(w, t, ino);
      var entry := listing.all[i];
      if i < 2 then entry == DirEntry(ino, Directory, if i == 0 then "." else "..")
      else
        && entry.ino in u.nodes
        && (entry.kind == Directory <==> u.nodes[entry.ino].kind in {Dir, RealizedDir})
        && (entry.kind == RegularFile <==> u.nodes[entry.ino].kind == File)
        && (entry.kind == Link <==> u.nodes[entry.ino].kind == Symlink)
  {
    hide *;
    if i < 2 {
      ListingStarts(w, t, ino);
    } else {
      ListedChild(w, t, ino, i);
      TypeOf(List(w, t, ino).0.nodes[List(w, t, ino).1.all[i].ino]);
    }
  }

  lemma TypeOf(n: Node)
    ensures KindOf(n) == Directory <==> n.kind in {Dir, RealizedDir}
    ensures KindOf(n) == RegularFile <==> n.kind == File
    ensures KindOf(n) == Link <==> n.kind == Symlink
  {}

  lemma ListingStarts(w: World, t: Table, ino: nat)
    requires Inv(w, t) && List(w, t, ino).1.Entries?
    ensures var all := List(w, t, ino).1.all;
      |all| >= 2 && all[0] == DirEntry(ino, Directory, ".") && all[1] == DirEntry(ino, Directory, "..")
  {
    var pending, entries := ListIs(w, t, ino);
    hide List, Inv, Numbered, Pending;
  }

  lemma ListedChild(w: World, t: Table, ino: nat, i: nat)
    requires Inv(w, t) && List(w, t, ino).1.Entries? && 2 <= i < |List(w, t, ino).1.all|
    ensures var (u, listing) := List(w, t, ino);
      listing.all[i].ino in u.nodes && listing.all[i].kind == KindOf(u.nodes[listing.all[i].ino])
  {
    var pending, entries := ListIs(w, t, ino);
    PendingIsResolved(w, t.nodes[ino], w.list(t.nodes[ino].backing, OrDot(t.nodes[ino].rel)).value);
    ListKeeps(w, t, ino);
    var (u, listing) := List(w, t, ino);
    hide List, Inv, Pending, Resolved, KindOf;
    assert listing.all[i] == entries[i - 2];
    ListedNode(w, u, ino, pending, i - 2);
  }

  /** The node behind a listed entry is the child it was made from. */
  lemma ListedNode(w: World, u: Table, ino: nat, pending: seq<(string, Node)>, i: nat)
    requires Inv(w, u) && ino in u.nodes && Resolved(w, u.nodes[ino], pending) && i < |pending|
    requires (ino, pending[i].0) in u.cache
    ensures u.cache[(ino, pending[i].0)] in u.nodes
    ensures u.nodes[u.cache[(ino, pending[i].0)]] == pending[i].1
  {
    hide Resolve;
    assert Resolve(w, u.nodes[ino], pending[i].0) == Some(pending[i].1);
    assert Faithful(w, u, (ino, pending[i].0));
  }

  /** The children are those the host lists, in its order, each as often as it lists it, but for the unservable ones. */
  lemma ChildrenInHostOrder(w: World, parent: Node, a: seq<string>, name: string, b: seq<string>)
    ensures Pending(w, parent, []) == []
    ensures var child := Resolve(w, parent, name);
      Pending(w, parent, a + [name] + b) ==
      Pending(w, parent, a) + (if child.Some? then [(name, child.value)] else []) + Pending(w, parent, b)
  {
    hide Resolve;
    PendingAppend(w, parent, a + [name], b);
    PendingAppend(w, parent, a, [name]);
    assert [name][1..] == [];
  }

  lemma {:induction false} PendingAppend(w: World, parent: Node, a: seq<string>, b: seq<string>)
    ensures Pending(w, parent, a + b) == Pending(w, parent, a) + Pending(w, parent, b)
    decreases |a|
  {
    hide Resolve;
    if a == [] {
      assert a + b == b;
    } else {
      assert (a + b)[0] == a[0] && (a + b)[1..] == a[1..] + b;
      PendingAppend(w, parent, a[1..], b);
    }
  }

  /** What a listing is made of. */
  lemma ListIs(w: World, t: Table, ino: nat) returns (pending: seq<(string, Node)>, entries: seq<DirEntry>)
    requires Inv(w, t) && List(w, t, ino).1.Entries?
    ensures ino in t.nodes
    ensures var names := w.list(t.nodes[ino].backing, OrDot(t.nodes[ino].rel));
      names.Some? && pending == Pending(w, t.nodes[ino], names.value)
    ensures List(w, t, ino).1.all == Dots(ino) + entries
    ensures Numbered(List(w, t, ino).0, ino, pending, entries)
  {
    var node := t.nodes[ino];
    var names := w.list(node.backing, OrDot(node.rel)).value;
    pending := Pending(w, node, names);
    entries := InternAll(t, ino, pending).1;
    PendingIsResolved(w, node, names);
    InternAllKeeps(w, t, ino, pending);
    hide InternAll, Pending, Inv, Resolved, Resolve, Numbered;
  }

  /** A child that can be served is on the listing exactly when the host lists its name. */
  lemma ListedIffHostLists(w: World, t: Table, ino: nat, name: string)
    requires Inv(w, t) && List(w, t, ino).1.Entries?
    ensures ino in t.nodes && w.list(t.nodes[ino].backing, OrDot(t.nodes[ino].rel)).Some?
    ensures (exists i :: 2 <= i < |List(w, t, ino).1.all| && List(w, t, ino).1.all[i].name == name) <==>
            name in w.list(t.nodes[ino].backing, OrDot(t.nodes[ino].rel)).value &&
            Resolve(w, t.nodes[ino], name).Some?
  {
    var pending, entries := ListIs(w, t, ino);
    PendingIsResolved(w, t.nodes[ino], w.list(t.nodes[ino].backing, OrDot(t.nodes[ino].rel)).value);
    var u, all := List(w, t, ino).0, List(w, t, ino).1.all;
    hide Pending, Inv, Resolved, Resolve, List, OrDot;
    if i :| 2 <= i < |all| && all[i].name == name {
      assert all[i] == entries[i - 2] && pending[i - 2] in pending && pending[i - 2].0 == name;
    }
    if c :| c in pending && c.0 == name {
      var k :| 0 <= k < |pending| && pending[k] == c;
      assert all[k + 2] == entries[k];
    }
  }

  // ---- Paging ----

  function Names(page: seq<Sent>): seq<DirEntry> {
    if page == [] then [] else [page[0].entry] + Names(page[1..])
  }

  /** A page is the next stretch of the entries, and the last offset it gives is where that stretch ends. */
  lemma {:induction false} PageIsStretch(entries: seq<DirEntry>, offset: nat, room: nat)
    requires offset <= |entries|
    ensures var page := Page(entries, offset, room);
      var end := if offset + room < |entries| then offset + room else |entries|;
      && Names(page) == entries[offset..end] && |page| == end - offset
      && (page != [] ==> page[|page| - 1].offset == end)
    decreases room
  {
    if offset < |entries| && room > 0 {
      var page := Page(entries, offset, room);
      var more := Page(entries, offset + 1, room - 1);
      PageIsStretch(entries, offset + 1, room - 1);
      assert page[1..] == more;
      var end := if offset + room < |entries| then offset + room else |entries|;
      assert entries[offset..end] == [entries[offset]] + entries[offset + 1..end];
      if more == [] {
        assert |page| == 1;
      } else {
        assert page[|page| - 1] == more[|more| - 1];
      }
    }
  }

  /** One reader's turn: how much room the reply has, and what others do before the next turn. */
  datatype Turn = Turn(room: nat, others: seq<Call>)

  function Resume(page: seq<Sent>, offset: nat): nat {
    if page == [] then offset else page[|page| - 1].offset
  }

  /** Everything a reader gets that resumes each time at the last offset it was given. */
  ghost function ReadOn(w: World, t: Table, ino: nat, offset: nat, turns: seq<Turn>): seq<DirEntry>
    decreases |turns|
  {
    if turns == [] then []
    else
      var (u, page) := ReadDir(w, t, ino, offset, turns[0].room);
      if page.None? then []
      else Names(page.value) + ReadOn(w, After(w, u, turns[0].others), ino, Resume(page.value, offset), turns[1..])
  }

  ghost function TotalRoom(turns: seq<Turn>): nat {
    if turns == [] then 0 else turns[0].room + TotalRoom(turns[1..])
  }

  lemma {:induction false} RoomForAll(turns: seq<Turn>)
    requires forall turn <- turns :: turn.room > 0
    ensures TotalRoom(turns) >= |turns|
    decreases |turns|
  {
    if turns != [] {
      assert turns[0] in turns;
      RoomForAll(turns[1..]);
    }
  }

  lemma ReadOnUnfolds(w: World, t: Table, ino: nat, offset: nat, turns: seq<Turn>, all: seq<DirEntry>)
    requires List(w, t, ino).1 == Entries(all) && turns != []
    ensures var page := Page(all, offset, turns[0].room);
      ReadOn(w, t, ino, offset, turns) ==
      Names(page) + ReadOn(w, After(w, List(w, t, ino).0, turns[0].others), ino, Resume(page, offset), turns[1..])
  {
    hide List, Names, Page, After, Resume;
    assert ReadDir(w, t, ino, offset, turns[0].room) ==
           (List(w, t, ino).0, Some(Page(all, offset, turns[0].room)));
  }

  lemma ReadOnNothing(w: World, t: Table, ino: nat, offset: nat)
    ensures ReadOn(w, t, ino, offset, []) == [] && TotalRoom([]) == 0
  {}

  lemma ResumesAtEnd(page: seq<Sent>, offset: nat, end: nat)
    requires page != [] ==> page[|page| - 1].offset == end
    requires page == [] ==> offset == end
    ensures Resume(page, offset) == end
  {}

  lemma TotalUnfolds(turns: seq<Turn>)
    requires turns != []
    ensures TotalRoom(turns) == turns[0].room + TotalRoom(turns[1..])
  {}

  lemma {:induction false} ReadOnIsStretch(w: World, t: Table, ino: nat, offset: nat, turns: seq<Turn>,
        all: seq<DirEntry>)
    requires Inv(w, t) && List(w, t, ino).1 == Entries(all) && offset <= |all|
    ensures ReadOn(w, t, ino, offset, turns) ==
            all[offset..if offset + TotalRoom(turns) < |all| then offset + TotalRoom(turns) else |all|]
    decreases |turns|
  {
    hide *;
    if turns == [] {
      ReadOnNothing(w, t, ino, offset);
      assert all[offset..offset] == [];
    } else {
      var room := turns[0].room;
      var u := List(w, t, ino).0;
      var page := Page(all, offset, room);
      var v := After(w, u, turns[0].others);
      var end := if offset + room < |all| then offset + room else |all|;
      ListKeeps(w, t, ino);
      RunKeeps(w, u, turns[0].others);
      ListingIsStable(w, t, ino, turns[0].others);
      PageIsStretch(all, offset, room);
      ResumesAtEnd(page, offset, end);
      ReadOnIsStretch(w, v, ino, end, turns[1..], all);
      ReadOnUnfolds(w, t, ino, offset, turns, all);
      TotalUnfolds(turns);
      var last := if offset + TotalRoom(turns) < |all| then offset + TotalRoom(turns) else |all|;
      assert all[offset..end] + all[end..last] == all[offset..last];
    }
  }

  /**
    A reader that starts at 0 and resumes at the last offset gets every entry once and
    in order, whatever the page sizes, as long as each page has room for one, and
    whatever others do in between; from then on its pages are empty.
  */
  lemma EveryEntryExactlyOnce(w: World, t: Table, ino: nat, turns: seq<Turn>)
    requires Inv(w, t) && List(w, t, ino).1.Entries?
    requires (forall turn <- turns :: turn.room > 0) && |turns| >= |List(w, t, ino).1.all|
    ensures var all := List(w, t, ino).1.all;
      && ReadOn(w, t, ino, 0, turns) == all
      && forall room: nat :: Page(all, |all|, room) == []
  {
    hide *;
    var all := List(w, t, ino).1.all;
    RoomForAll(turns);
    ReadOnIsStretch(w, t, ino, 0, turns, all);
    assert all[0..|all|] == all;
    forall room: nat
      ensures Page(all, |all|, room) == []
    {
      PageIsStretch(all, |all|, room);
    }
  }
}
