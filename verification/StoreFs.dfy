/**
  The store view's state and its handlers (nix-store-shared-fuse/src/fs/mod.rs:61-196,
  operations.rs:37-73, 118-192, 205-239, 259-271), each proved to be the step that
  `Inodes` and `Handles` reason about.
*/
module StoreFs {
  import opened Wrappers
  import opened Nodes
  import Inodes
  import Handles

  const ENOENT := 2
  const EISDIR := 21
  const EINVAL := 22
  const EROFS := 30

  /** What opening a file does to the handles. */
  function OpenFile(t: Inodes.Table, h: Handles.State, ino: nat, readOnly: bool, host: Option<int>)
    : (Handles.State, Handles.Opened)
  {
    if !readOnly then (h, Handles.Refused(EROFS))
    else if ino !in t.nodes then (h, Handles.Refused(ENOENT))
    else if t.nodes[ino].kind == File then Handles.Open(h, ino, host)
    else if IsDirectory(t.nodes[ino]) then (h, Handles.Refused(EISDIR))
    else (h, Handles.Refused(EINVAL))
  }

  class StoreFs {
    const world: World
    var nodes: map<nat, Node>
    var lookupCache: map<Inodes.Key, nat>
    var nextIno: nat
    var backingByHandle: map<nat, nat>
    var backingByInode: map<nat, nat>
    var nextFh: nat
    const maxOpenFiles: nat
    /** The identity the next shared allocation gets. */
    var nextId: nat
    ghost var owner: map<nat, nat>

    function Table(): Inodes.Table
      reads this
    {
      Inodes.Table(nodes, lookupCache, nextIno)
    }

    ghost function HandleState(): Handles.State
      reads this
    {
      Handles.State(backingByHandle, backingByInode, nextFh, maxOpenFiles, nextId, owner)
    }

    ghost predicate Valid()
      reads this
    {
      Inodes.Inv(world, Table()) && Handles.Inv(HandleState())
    }

    constructor (world: World, maxOpenFiles: nat)
      ensures Valid() && this.world == world
      ensures Table() == Inodes.Initial() && HandleState() == Handles.Initial(maxOpenFiles)
    {
      this.world := world;
      this.maxOpenFiles := maxOpenFiles;
      nodes := map[Inodes.ROOT_INO := Inodes.ROOT_NODE];
      lookupCache := map[];
      nextIno := Inodes.ROOT_INO + 1;
      backingByHandle := map[];
      backingByInode := map[];
      nextFh := 0;
      nextId := 0;
      owner := map[];
      new;
      Inodes.InitialInv(world);
      Handles.InitialInv(maxOpenFiles);
    }

    // ---- Handles ----

    /** `backing_get_or`. */
    method BackingGetOr(ino: nat, host: Option<int>) returns (r: Handles.Opened)
      modifies this`backingByHandle, this`backingByInode, this`nextFh, this`nextId, this`owner
      ensures (HandleState(), r) == Handles.Open(old(HandleState()), ino, host)
    {
      if |backingByHandle| >= maxOpenFiles {
        return Handles.Refused(Handles.EMFILE);
      }
      if nextFh + 1 > Handles.U64_MAX {
        return Handles.Refused(Handles.EMFILE);
      }
      nextFh := nextFh + 1;
      var fh := nextFh;
      if ino in backingByInode && backingByInode[ino] in backingByHandle.Values {
        var shared := backingByInode[ino];
        backingByHandle := backingByHandle[fh := shared];
        return Handles.Opened(fh, shared);
      }
      if host.Some? {
        return Handles.Refused(host.value);
      }
      var id := nextId;
      nextId := nextId + 1;
      owner := owner[id := ino];
      backingByInode := backingByInode[ino := id];
      backingByHandle := backingByHandle[fh := id];
      return Handles.Opened(fh, id);
    }

    /** `backing_put`. */
    method BackingPut(fh: nat)
      modifies this`backingByHandle
      ensures HandleState() == Handles.Release(old(HandleState()), fh)
    {
      backingByHandle := backingByHandle - {fh};
    }

    /**
      `open`: a handle is given exactly for reading a regular file, when there is room
      and the file is already open or the host opens it. Errors are EROFS (30) for any
      writing open, ENOENT (2) for an unknown inode, EISDIR (21) for a directory,
      EINVAL (22) for a link, and then the handles stay as they were.
    */
    method OpenHandler(ino: nat, readOnly: bool, host: Option<int>) returns (r: Handles.Opened)
      requires Valid()
      modifies this`backingByHandle, this`backingByInode, this`nextFh, this`nextId, this`owner
      ensures Valid() && Table() == old(Table())
      ensures (HandleState(), r) == OpenFile(old(Table()), old(HandleState()), ino, readOnly, host)
      ensures r.Opened? <==>
              && readOnly && ino in nodes && nodes[ino].kind == File
              && |old(backingByHandle)| < maxOpenFiles && old(nextFh) < 0xffff_ffff_ffff_ffff
              && (Handles.HasHandle(old(HandleState()), ino) || host == None)
      ensures r.Opened? ==>
              && r.fh == nextFh == old(nextFh) + 1 && r.fh !in old(backingByHandle)
              && backingByHandle == old(backingByHandle)[r.fh := r.id] && r.id in owner && owner[r.id] == ino
      ensures !r.Opened? ==> backingByHandle == old(backingByHandle)
      ensures !readOnly ==> r == Handles.Refused(30)
      ensures readOnly && ino !in nodes ==> r == Handles.Refused(2)
      ensures readOnly && ino in nodes && nodes[ino].kind in {Dir, RealizedDir} ==> r == Handles.Refused(21)
      ensures readOnly && ino in nodes && nodes[ino].kind == Symlink ==> r == Handles.Refused(22)
      ensures !readOnly || ino !in nodes || nodes[ino].kind != File ==> HandleState() == old(HandleState())
    {
      hide Inodes.Inv, Handles.Inv, Handles.Open;
      Handles.OpenKeepsInv(HandleState(), ino, host);
      Handles.OpenGives(HandleState(), ino, host);
      if !readOnly {
        return Handles.Refused(EROFS);
      }
      if ino !in nodes {
        return Handles.Refused(ENOENT);
      }
      var node := nodes[ino];
      if node.kind == File {
        r := BackingGetOr(ino, host);
      } else if IsDirectory(node) {
        r := Handles.Refused(EISDIR);
      } else {
        r := Handles.Refused(EINVAL);
      }
    }

    method ReleaseHandler(fh: nat)
      requires Valid()
      modifies this`backingByHandle
      ensures Valid() && Table() == old(Table())
      ensures HandleState() == Handles.Release(old(HandleState()), fh)
    {
      hide Inodes.Inv, Handles.Inv;
      Handles.ReleaseKeepsInv(HandleState(), fh);
      BackingPut(fh);
    }

    // ---- Inodes ----

    method Intern(parent: nat, name: string, node: Node) returns (ino: nat)
      modifies this`nodes, this`lookupCache, this`nextIno
      ensures (Table(), ino) == Inodes.Intern(old(Table()), parent, name, node)
    {
      var key := (parent, name);
      if key in lookupCache {
        ino := lookupCache[key];
        nodes := nodes[ino := node];
        return;
      }
      ino := nextIno;
      nextIno := nextIno + 1;
      nodes := nodes[ino := node];
      lookupCache := lookupCache[key := ino];
    }

    method LookupHandler(parent: nat, name: string) returns (found: Inodes.Found)
      requires Valid()
      modifies this`nodes, this`lookupCache, this`nextIno
      ensures Valid() && HandleState() == old(HandleState())
      ensures (Table(), found) == Inodes.Lookup(world, old(Table()), parent, name)
    {
      hide Inodes.Inv, Handles.Inv, Inodes.Intern, Resolve, HasAttr;
      Inodes.LookupKeeps(world, Table(), parent, name);
      if parent !in nodes {
        return Inodes.NoEntry;
      }
      var parentNode := nodes[parent];
      if !IsDirectory(parentNode) {
        return Inodes.NotDirectory;
      }
      var child := Resolve(world, parentNode, name);
      if child.None? {
        return Inodes.NoEntry;
      }
      if !HasAttr(world, child.value) {
        return Inodes.IoError;
      }
      var ino := Intern(parent, name, child.value);
      return Inodes.Entry(ino, child.value);
    }

    /** The children that can be served; nothing is interned yet. */
    method Gather(node: Node, names: seq<string>) returns (pending: seq<(string, Node)>)
      ensures pending == Inodes.Pending(world, node, names)
    {
      hide Resolve;
      pending := [];
      var i := 0;
      while i < |names|
        invariant 0 <= i <= |names|
        invariant pending + Inodes.Pending(world, node, names[i..]) == Inodes.Pending(world, node, names)
      {
        assert names[i..][1..] == names[i + 1..];
        var child := Resolve(world, node, names[i]);
        if child.Some? {
          assert pending + ([(names[i], child.value)] + Inodes.Pending(world, node, names[i + 1..])) ==
                 pending + [(names[i], child.value)] + Inodes.Pending(world, node, names[i + 1..]);
          pending := pending + [(names[i], child.value)];
        } else {
          assert [] + Inodes.Pending(world, node, names[i + 1..]) == Inodes.Pending(world, node, names[i + 1..]);
        }
        i := i + 1;
      }
      assert pending + [] == pending;
    }

    /** Every pending child behind the entries so far, under its inode. */
    method Number(parent: nat, pending: seq<(string, Node)>, entries0: seq<Inodes.DirEntry>)
        returns (entries: seq<Inodes.DirEntry>)
      modifies this`nodes, this`lookupCache, this`nextIno
      ensures Table() == Inodes.InternAll(old(Table()), parent, pending).0
      ensures entries == entries0 + Inodes.InternAll(old(Table()), parent, pending).1
    {
      hide Inodes.Intern;
      entries := entries0;
      ghost var goal := Inodes.InternAll(Table(), parent, pending);
      var i := 0;
      assert pending[0..] == pending;
      while i < |pending|
        invariant 0 <= i <= |pending|
        invariant Inodes.InternAll(Table(), parent, pending[i..]).0 == goal.0
        invariant entries + Inodes.InternAll(Table(), parent, pending[i..]).1 == entries0 + goal.1
      {
        var (name, child) := pending[i];
        assert pending[i..][1..] == pending[i + 1..] && pending[i..][0] == pending[i];
        ghost var t := Table();
        var childIno := Intern(parent, name, child);
        ghost var rest := Inodes.InternAll(Table(), parent, pending[i + 1..]);
        assert Inodes.InternAll(t, parent, pending[i..]) ==
               (rest.0, [Inodes.DirEntry(childIno, Inodes.KindOf(child), name)] + rest.1);
        assert entries + ([Inodes.DirEntry(childIno, Inodes.KindOf(child), name)] + rest.1) ==
               entries + [Inodes.DirEntry(childIno, Inodes.KindOf(child), name)] + rest.1;
        entries := entries + [Inodes.DirEntry(childIno, Inodes.KindOf(child), name)];
        i := i + 1;
      }
      assert entries + [] == entries;
    }

    /** Fill the reply until it is full. */
    method Fill(entries: seq<Inodes.DirEntry>, offset: nat, room: nat) returns (page: seq<Inodes.Sent>)
      ensures page == Inodes.Page(entries, offset, room)
    {
      page := [];
      var i := offset;
      while i < |entries| && |page| < room
        invariant offset <= i && |page| <= room
        invariant page + Inodes.Page(entries, i, room - |page|) == Inodes.Page(entries, offset, room)
        decreases |entries| - i
      {
        assert page + ([Inodes.Sent(entries[i], i + 1)] + Inodes.Page(entries, i + 1, room - |page| - 1)) ==
               page + [Inodes.Sent(entries[i], i + 1)] + Inodes.Page(entries, i + 1, room - |page| - 1);
        page := page + [Inodes.Sent(entries[i], i + 1)];
        i := i + 1;
      }
      assert page + [] == page;
    }

    method ReadDirHandler(ino: nat, offset: nat, room: nat) returns (found: Inodes.Found, page: seq<Inodes.Sent>)
      requires Valid()
      modifies this`nodes, this`lookupCache, this`nextIno
      ensures Valid() && HandleState() == old(HandleState())
      ensures var (t, sent) := Inodes.ReadDir(world, old(Table()), ino, offset, room);
        && Table() == t
        && (sent.Some? ==> page == sent.value)
        && (sent.None? ==> page == [] && Inodes.List(world, old(Table()), ino).1 == Inodes.Refused(found))
    {
      hide Inodes.Inv, Handles.Inv, Inodes.InternAll, Inodes.Pending, Inodes.Page;
      Inodes.ListKeeps(world, Table(), ino);
      found := Inodes.NoEntry;
      page := [];
      if ino !in nodes {
        return;
      }
      var node := nodes[ino];
      if !IsDirectory(node) {
        found := Inodes.NotDirectory;
        return;
      }
      var names := world.list(node.backing, OrDot(node.rel));
      if names.None? {
        found := Inodes.IoError;
        return;
      }
      var pending := Gather(node, names.value);
      var entries := Number(ino, pending, Inodes.Dots(ino));
      page := Fill(entries, offset, room);
    }
  }
}
