/**
  The backing-file cache of the store view: one kernel backing id per inode, shared by
  its open handles (nix-store-shared-fuse/src/fs/mod.rs:72-78, 135-181).
*/
module Handles {
  import opened Wrappers

  const U64_MAX := 0xffff_ffff_ffff_ffff
  const EMFILE := 24

  /**
    A backing id is known by the allocation that holds it, a number never given twice.
    `owner` remembers which inode an allocation was made for; the code has no such table.
  */
  datatype State = State(
    byHandle: map<nat, nat>, byInode: map<nat, nat>, nextFh: nat, maxOpen: nat,
    nextId: nat, owner: map<nat, nat>)

  function Initial(maxOpen: nat): State {
    State(map[], map[], 0, maxOpen, 0, map[])
  }

  datatype Opened = Opened(fh: nat, id: nat) | Refused(errno: int)

  /** `Weak::upgrade`: some handle still holds the allocation. */
  predicate Upgrades(s: State, ino: nat) {
    ino in s.byInode && s.byInode[ino] in s.byHandle.Values
  }

  /** `backing_get_or`; `host` is the error, if any, of opening or registering the file. */
  function Open(s: State, ino: nat, host: Option<int>): (State, Opened) {
    if |s.byHandle| >= s.maxOpen || s.nextFh + 1 > U64_MAX then (s, Refused(EMFILE))
    else
      var fh := s.nextFh + 1;
      var taken := s.(nextFh := fh);
      if Upgrades(s, ino) then
        var id := s.byInode[ino];
        (taken.(byHandle := s.byHandle[fh := id]), Opened(fh, id))
      else if host.Some? then (taken, Refused(host.value))
      else
        var id := s.nextId;
        (taken.(byHandle := s.byHandle[fh := id], byInode := s.byInode[ino := id],
                nextId := id + 1, owner := s.owner[id := ino]),
         Opened(fh, id))
  }

  /** `backing_put`. */
  function Release(s: State, fh: nat): State {
    s.(byHandle := s.byHandle - {fh})
  }

  // ---- What every step keeps ----

  /** The inode a handle's backing id was made for. */
  ghost function InodeOf(s: State, fh: nat): nat
    requires fh in s.byHandle && s.byHandle[fh] in s.owner
  {
    s.owner[s.byHandle[fh]]
  }

  ghost predicate HandlesOk(s: State) {
    && |s.byHandle| <= s.maxOpen
    && s.nextFh <= U64_MAX
    && (forall fh <- s.byHandle :: 0 < fh <= s.nextFh)
  }

  /** Every allocation that is held is the one its inode's entry names. */
  ghost predicate IdsOk(s: State) {
    && (forall fh <- s.byHandle :: s.byHandle[fh] in s.owner)
    && (forall fh <- s.byHandle :: s.owner[s.byHandle[fh]] in s.byInode &&
                                   s.byInode[s.owner[s.byHandle[fh]]] == s.byHandle[fh])
    && (forall ino <- s.byInode :: s.byInode[ino] in s.owner && s.owner[s.byInode[ino]] == ino)
    && (forall id <- s.owner :: id < s.nextId)
  }

  ghost predicate Inv(s: State) {
    HandlesOk(s) && IdsOk(s)
  }

  ghost predicate HasHandle(s: State, ino: nat)
    requires IdsOk(s)
  {
    exists fh :: fh in s.byHandle && InodeOf(s, fh) == ino
  }

  lemma UpgradesIffHeld(s: State, ino: nat)
    requires Inv(s)
    ensures Upgrades(s, ino) <==> HasHandle(s, ino)
  {
    if Upgrades(s, ino) {
      var fh :| fh in s.byHandle && s.byHandle[fh] == s.byInode[ino];
      assert InodeOf(s, fh) == ino;
    }
    if HasHandle(s, ino) {
      var fh :| fh in s.byHandle && InodeOf(s, fh) == ino;
      assert s.byHandle[fh] in s.byHandle.Values;
    }
  }

  lemma SizeOfInsert(m: map<nat, nat>, k: nat, v: nat)
    requires k !in m
    ensures |m[k := v]| == |m| + 1
  {
    assert m[k := v].Keys == m.Keys + {k};
    assert |m[k := v].Keys| == |m.Keys| + 1;
  }

  lemma SizeOfRemove(m: map<nat, nat>, k: nat)
    ensures |m - {k}| <= |m|
  {
    assert (m - {k}).Keys == m.Keys - {k};
  }

  lemma OpenKeepsHandles(s: State, ino: nat, host: Option<int>)
    requires HandlesOk(s)
    ensures HandlesOk(Open(s, ino, host).0)
  {
    var (t, r) := Open(s, ino, host);
    if r.Opened? {
      assert r.fh !in s.byHandle;
      SizeOfInsert(s.byHandle, r.fh, r.id);
    }
  }

  lemma OpenKeepsIds(s: State, ino: nat, host: Option<int>)
    requires Inv(s)
    ensures IdsOk(Open(s, ino, host).0)
  {
    var (t, r) := Open(s, ino, host);
    if r.Opened? && !Upgrades(s, ino) {
      assert s.nextId !in s.owner;
      forall fh | fh in s.byHandle
        ensures s.owner[s.byHandle[fh]] != ino
      {
        assert s.byHandle[fh] in s.byHandle.Values;
      }
    }
  }

  /** The two tables after any open or release are again in order. */
  lemma OpenKeepsInv(s: State, ino: nat, host: Option<int>)
    requires Inv(s)
    ensures Inv(Open(s, ino, host).0)
  {
    OpenKeepsHandles(s, ino, host);
    OpenKeepsIds(s, ino, host);
  }

  /** When an open gives a handle, and which. */
  lemma OpenGives(s: State, ino: nat, host: Option<int>)
    requires Inv(s)
    ensures var (t, r) := Open(s, ino, host);
      && (r.Opened? <==> |s.byHandle| < s.maxOpen && s.nextFh < 0xffff_ffff_ffff_ffff && (HasHandle(s, ino) || host == None))
      && (r.Opened? ==>
            && r.fh == t.nextFh == s.nextFh + 1 && r.fh !in s.byHandle
            && t.byHandle == s.byHandle[r.fh := r.id] && r.id in t.owner && t.owner[r.id] == ino)
      && (!r.Opened? ==> t.byHandle == s.byHandle)
  {
    UpgradesIffHeld(s, ino);
    hide HasHandle;
  }

  lemma ReleaseKeepsInv(s: State, fh: nat)
    requires Inv(s)
    ensures Inv(Release(s, fh))
  {
    SizeOfRemove(s.byHandle, fh);
  }

  // ---- Whole runs ----

  datatype Call = OpenCall(ino: nat, host: Option<int>) | ReleaseCall(fh: nat)

  function Step(s: State, call: Call): State {
    match call
    case OpenCall(ino, host) => Open(s, ino, host).0
    case ReleaseCall(fh) => Release(s, fh)
  }

  function After(s: State, calls: seq<Call>): State
    decreases |calls|
  {
    if calls == [] then s else After(Step(s, calls[0]), calls[1..])
  }

  /** The handle numbers the calls gave out. */
  function Given(s: State, calls: seq<Call>): seq<nat>
    decreases |calls|
  {
    if calls == [] then []
    else
      (if calls[0].OpenCall? && Open(s, calls[0].ino, calls[0].host).1.Opened?
       then [Open(s, calls[0].ino, calls[0].host).1.fh] else []) +
      Given(Step(s, calls[0]), calls[1..])
  }

  lemma StepKeepsInv(s: State, call: Call)
    requires Inv(s)
    ensures Inv(Step(s, call))
  {
    hide Inv;
    match call
    case OpenCall(ino, host) => OpenKeepsInv(s, ino, host);
    case ReleaseCall(fh) => ReleaseKeepsInv(s, fh);
  }

  lemma {:induction false} RunKeepsInv(s: State, calls: seq<Call>)
    requires Inv(s)
    ensures Inv(After(s, calls))
    decreases |calls|
  {
    hide Inv, Step;
    if calls != [] {
      StepKeepsInv(s, calls[0]);
      RunKeepsInv(Step(s, calls[0]), calls[1..]);
    }
  }

  lemma InitialInv(maxOpen: nat)
    ensures Inv(Initial(maxOpen))
    ensures Initial(maxOpen).byHandle == map[] && Initial(maxOpen).maxOpen == maxOpen && Initial(maxOpen).nextFh == 0
  {}

  // ---- What the callers know ----

  /** The answer of a call, if it opened a file. */
  function GivenBy(s: State, call: Call): Option<nat> {
    match call
    case ReleaseCall(_) => None
    case OpenCall(ino, host) =>
      match Open(s, ino, host).1
      case Opened(fh, _) => Some(fh)
      case Refused(_) => None
  }

  /** The handles given out and not released since, each with the inode it was opened on. */
  function StillOpen(s: State, calls: seq<Call>): map<nat, nat>
    decreases |calls|
  {
    if calls == [] then map[]
    else
      var before, last := calls[..|calls| - 1], calls[|calls| - 1];
      match last
      case ReleaseCall(fh) => StillOpen(s, before) - {fh}
      case OpenCall(ino, _) =>
        var given := GivenBy(After(s, before), last);
        if given.Some? then StillOpen(s, before)[given.value := ino] else StillOpen(s, before)
  }

  lemma {:induction false} AfterAppend(s: State, calls: seq<Call>, last: Call)
    ensures After(s, calls + [last]) == Step(After(s, calls), last)
    decreases |calls|
  {
    hide Step;
    if calls == [] {
      assert calls + [last] == [last] && [last][1..] == [];
    } else {
      assert (calls + [last])[1..] == calls[1..] + [last];
      AfterAppend(Step(s, calls[0]), calls[1..], last);
    }
  }

  /** The handle table holds exactly the callers' handles, under the inodes they were opened on. */
  ghost predicate Matches(s: State, opens: map<nat, nat>) {
    && (forall fh :: fh in s.byHandle <==> fh in opens)
    && (forall fh <- s.byHandle :: s.byHandle[fh] in s.owner && InodeOf(s, fh) == opens[fh])
  }

  /** An open that gives a handle adds that one, on an allocation of its inode. */
  lemma OpenAdds(s: State, ino: nat, host: Option<int>)
    requires Inv(s) && Open(s, ino, host).1.Opened?
    ensures var (t, r) := Open(s, ino, host);
      && t.byHandle == s.byHandle[r.fh := r.id] && r.id in t.owner && t.owner[r.id] == ino
      && (t.owner == s.owner || t.owner == s.owner[s.nextId := ino])
  {}

  lemma RefusedAddsNone(s: State, ino: nat, host: Option<int>)
    requires !Open(s, ino, host).1.Opened?
    ensures Open(s, ino, host).0.byHandle == s.byHandle && Open(s, ino, host).0.owner == s.owner
  {}

  lemma OpenMatches(s: State, ino: nat, host: Option<int>, opens: map<nat, nat>)
    requires Inv(s) && Matches(s, opens)
    ensures var (t, r) := Open(s, ino, host);
      Matches(t, if r.Opened? then opens[r.fh := ino] else opens)
  {
    var (t, r) := Open(s, ino, host);
    if r.Opened? {
      OpenAdds(s, ino, host);
      hide Open;
      forall fh <- t.byHandle
        ensures t.byHandle[fh] in t.owner && InodeOf(t, fh) == opens[r.fh := ino][fh]
      {
        if fh != r.fh {
          HeldIdIsOld(s, fh);
          hide Inv;
          assert fh in s.byHandle && t.byHandle[fh] == s.byHandle[fh];
        }
      }
    } else {
      RefusedAddsNone(s, ino, host);
      hide Open, Inv;
    }
  }

  lemma HeldIdIsOld(s: State, fh: nat)
    requires Inv(s) && fh in s.byHandle
    ensures s.byHandle[fh] in s.owner && s.byHandle[fh] != s.nextId
  {}

  lemma ReleaseMatches(s: State, fh: nat, opens: map<nat, nat>)
    requires Inv(s) && Matches(s, opens)
    ensures Matches(Release(s, fh), opens - {fh})
  {}

  lemma StillOpenAfter(s: State, before: seq<Call>, last: Call)
    ensures var was, given := StillOpen(s, before), GivenBy(After(s, before), last);
      StillOpen(s, before + [last]) ==
      if last.ReleaseCall? then was - {last.fh} else if given.Some? then was[given.value := last.ino] else was
  {
    var calls := before + [last];
    assert calls[..|calls| - 1] == before;
    hide After, Open;
  }

  lemma StepMatches(s: State, last: Call, opens: map<nat, nat>)
    requires Inv(s) && Matches(s, opens)
    ensures var given := GivenBy(s, last);
      Matches(Step(s, last),
              if last.ReleaseCall? then opens - {last.fh} else if given.Some? then opens[given.value := last.ino] else opens)
  {
    hide Inv, Matches, Open;
    match last
    case OpenCall(ino, host) => OpenMatches(s, ino, host, opens);
    case ReleaseCall(fh) => ReleaseMatches(s, fh, opens);
  }

  lemma NothingMatches(maxOpen: nat)
    ensures Matches(After(Initial(maxOpen), []), StillOpen(Initial(maxOpen), []))
  {}

  lemma {:induction false} RunMatches(maxOpen: nat, calls: seq<Call>)
    ensures Inv(After(Initial(maxOpen), calls))
    ensures Matches(After(Initial(maxOpen), calls), StillOpen(Initial(maxOpen), calls))
    decreases |calls|
  {
    hide *;
    var start := Initial(maxOpen);
    InitialInv(maxOpen);
    RunKeepsInv(start, calls);
    if calls == [] {
      NothingMatches(maxOpen);
    } else {
      var before, last := calls[..|calls| - 1], calls[|calls| - 1];
      assert calls == before + [last];
      RunMatches(maxOpen, before);
      AfterAppend(start, before, last);
      StillOpenAfter(start, before, last);
      StepMatches(After(start, before), last, StillOpen(start, before));
    }
  }

  /** Call `k` opened `ino` as `fh`, and no later call released it. */
  ghost predicate GaveIt(maxOpen: nat, calls: seq<Call>, k: nat, fh: nat, ino: nat)
    requires k < |calls|
  {
    && calls[k].OpenCall? && calls[k].ino == ino
    && GivenBy(After(Initial(maxOpen), calls[..k]), calls[k]) == Some(fh)
    && ReleaseCall(fh) !in calls[k + 1..]
  }

  /**
    A handle that was given for an inode, and not released since, is open on that inode;
    and there are no others.
  */
  lemma {:induction false} HandleStaysOnItsInode(maxOpen: nat, calls: seq<Call>, fh: nat, ino: nat)
    ensures (fh in StillOpen(Initial(maxOpen), calls) && StillOpen(Initial(maxOpen), calls)[fh] == ino) <==>
            exists k :: 0 <= k < |calls| && GaveIt(maxOpen, calls, k, fh, ino)
    decreases |calls|
  {
    hide After, GivenBy, Open;
    if calls != [] {
      var n := |calls| - 1;
      var before, last := calls[..n], calls[n];
      var start := Initial(maxOpen);
      assert calls == before + [last];
      HandleStaysOnItsInode(maxOpen, before, fh, ino);
      if last.OpenCall? && GivenBy(After(start, before), last) == Some(fh) {
        GivenIsNew(maxOpen, before, last, fh);
      }
      hide StillOpen;
      LastGave(maxOpen, before, last, fh, ino);
      forall k | 0 <= k < n
        ensures GaveIt(maxOpen, calls, k, fh, ino) <==> GaveIt(maxOpen, before, k, fh, ino) && last != ReleaseCall(fh)
      {
        assert calls[..k] == before[..k] && calls[k] == before[k];
        assert calls[k + 1..] == before[k + 1..] + [last];
      }
      StillOpenStep(maxOpen, before, last, fh, ino);
    }
  }

  lemma LastGave(maxOpen: nat, before: seq<Call>, last: Call, fh: nat, ino: nat)
    ensures GaveIt(maxOpen, before + [last], |before|, fh, ino) <==>
            last.OpenCall? && last.ino == ino && GivenBy(After(Initial(maxOpen), before), last) == Some(fh)
  {
    hide After, GivenBy;
    var calls := before + [last];
    assert calls[..|before|] == before && calls[|before| + 1..] == [];
  }

  lemma StillOpenStep(maxOpen: nat, before: seq<Call>, last: Call, fh: nat, ino: nat)
    ensures var now, was := StillOpen(Initial(maxOpen), before + [last]), StillOpen(Initial(maxOpen), before);
      var given := GivenBy(After(Initial(maxOpen), before), last);
      && (last == ReleaseCall(fh) ==> fh !in now)
      && (given == Some(fh) ==> last.OpenCall? && fh in now && now[fh] == last.ino)
      && (given != Some(fh) && last != ReleaseCall(fh) ==>
            (fh in now <==> fh in was) && (fh in now ==> now[fh] == was[fh]))
  {
    StillOpenAfter(Initial(maxOpen), before, last);
    hide After, Open, StillOpen;
  }

  /** A number that is given was not in use, nor ever given before. */
  lemma GivenIsNew(maxOpen: nat, before: seq<Call>, last: Call, fh: nat)
    requires GivenBy(After(Initial(maxOpen), before), last) == Some(fh)
    ensures fh !in StillOpen(Initial(maxOpen), before)
  {
    RunMatches(maxOpen, before);
    hide After, StillOpen;
  }

  /**
    After any run from the start: no more handles than the ceiling; two handles share a
    backing id exactly when they were opened on one inode; and an inode's entry can be
    shared exactly while a handle that was opened on it has not been released.
  */
  lemma SharedWhileOpen(maxOpen: nat, calls: seq<Call>)
    ensures var s, opens := After(Initial(maxOpen), calls), StillOpen(Initial(maxOpen), calls);
      && Inv(s) && |s.byHandle| <= maxOpen && s.byHandle.Keys == opens.Keys
      && (forall a, b :: a in opens && b in opens ==> (s.byHandle[a] == s.byHandle[b] <==> opens[a] == opens[b]))
      && (forall ino :: Upgrades(s, ino) <==> ino in opens.Values)
  {
    RunMatches(maxOpen, calls);
    MaxStays(Initial(maxOpen), calls);
    var s, opens := After(Initial(maxOpen), calls), StillOpen(Initial(maxOpen), calls);
    hide After, StillOpen;
    assert s.byHandle.Keys == opens.Keys;
    forall ino
      ensures Upgrades(s, ino) <==> ino in opens.Values
    {
      UpgradesIffHeld(s, ino);
      HeldIsOpen(s, opens, ino);
    }
    hide Upgrades;
    forall a, b | a in opens && b in opens
      ensures s.byHandle[a] == s.byHandle[b] <==> opens[a] == opens[b]
    {
      assert s.byInode[InodeOf(s, a)] == s.byHandle[a] && s.byInode[InodeOf(s, b)] == s.byHandle[b];
    }
  }

  /** The weak entry of an inode upgrades exactly when some call opened the inode and its handle has not been released. */
  lemma UpgradesIffOpen(maxOpen: nat, calls: seq<Call>, ino: nat)
    ensures Upgrades(After(Initial(maxOpen), calls), ino) <==>
            exists fh, k :: 0 <= k < |calls| && GaveIt(maxOpen, calls, k, fh, ino)
  {
    SharedWhileOpen(maxOpen, calls);
    var opens := StillOpen(Initial(maxOpen), calls);
    hide After, StillOpen, Upgrades, GaveIt, Inv;
    if ino in opens.Values {
      var fh :| fh in opens && opens[fh] == ino;
      HandleStaysOnItsInode(maxOpen, calls, fh, ino);
    }
    if fh, k :| 0 <= k < |calls| && GaveIt(maxOpen, calls, k, fh, ino) {
      HandleStaysOnItsInode(maxOpen, calls, fh, ino);
      assert opens[fh] in opens.Values;
    }
  }

  lemma HeldIsOpen(s: State, opens: map<nat, nat>, ino: nat)
    requires Inv(s) && Matches(s, opens)
    ensures HasHandle(s, ino) <==> ino in opens.Values
  {
    if HasHandle(s, ino) {
      var fh :| fh in s.byHandle && InodeOf(s, fh) == ino;
      assert opens[fh] == ino;
    }
    if ino in opens.Values {
      var fh :| fh in opens && opens[fh] == ino;
      assert InodeOf(s, fh) == ino;
    }
  }

  lemma {:induction false} MaxStays(s: State, calls: seq<Call>)
    ensures After(s, calls).maxOpen == s.maxOpen
    decreases |calls|
  {
    if calls != [] {
      MaxStays(Step(s, calls[0]), calls[1..]);
    }
  }

  lemma StepCounts(s: State, call: Call)
    ensures Step(s, call).nextFh >= s.nextFh
    ensures call.OpenCall? && Open(s, call.ino, call.host).1.Opened? ==>
              s.nextFh < Open(s, call.ino, call.host).1.fh == Step(s, call).nextFh
  {}

  /** No handle number is given twice: they only grow, whatever is released in between. */
  lemma {:induction false} HandleNumbersGrow(s: State, calls: seq<Call>)
    ensures forall i :: 0 <= i < |Given(s, calls)| ==> Given(s, calls)[i] > s.nextFh
    ensures forall i, j :: 0 <= i < j < |Given(s, calls)| ==> Given(s, calls)[i] < Given(s, calls)[j]
    decreases |calls|
  {
    if calls != [] {
      StepCounts(s, calls[0]);
      HandleNumbersGrow(Step(s, calls[0]), calls[1..]);
      hide Step, Open;
    }
  }

  // ---- Live backing ids ----

  lemma {:induction false} SameSizeByOwner(ids: set<nat>, owner: map<nat, nat>)
    requires forall id <- ids :: id in owner
    requires forall a, b :: a in ids && b in ids && owner[a] == owner[b] ==> a == b
    ensures |set id | id in ids :: owner[id]| == |ids|
    decreases |ids|
  {
    var inos := set id | id in ids :: owner[id];
    if ids == {} {
      assert inos == {};
    } else {
      var id :| id in ids;
      var fewer := ids - {id};
      SameSizeByOwner(fewer, owner);
      assert inos == (set x | x in fewer :: owner[x]) + {owner[id]};
    }
  }

  /** There are exactly as many live backing ids as inodes with a handle that was opened on them and not released. */
  lemma LiveIdsAreOpenInodes(maxOpen: nat, calls: seq<Call>)
    ensures |After(Initial(maxOpen), calls).byHandle.Values| == |StillOpen(Initial(maxOpen), calls).Values|
  {
    RunMatches(maxOpen, calls);
    var s, opens := After(Initial(maxOpen), calls), StillOpen(Initial(maxOpen), calls);
    hide After, StillOpen;
    var ids := s.byHandle.Values;
    forall a, b | a in ids && b in ids && s.owner[a] == s.owner[b]
      ensures a == b
    {
      var x :| x in s.byHandle && s.byHandle[x] == a;
      var y :| y in s.byHandle && s.byHandle[y] == b;
      assert InodeOf(s, x) == InodeOf(s, y);
    }
    SameSizeByOwner(ids, s.owner);
    var inos := set id | id in ids :: s.owner[id];
    forall ino
      ensures ino in inos <==> ino in opens.Values
    {
      if ino in inos {
        var id :| id in ids && s.owner[id] == ino;
        var fh :| fh in s.byHandle && s.byHandle[fh] == id;
        assert InodeOf(s, fh) == ino && opens[fh] == ino;
      }
      if ino in opens.Values {
        var fh :| fh in opens && opens[fh] == ino;
        assert InodeOf(s, fh) == ino && s.byHandle[fh] in ids;
      }
    }
    assert inos == opens.Values;
  }

  /** An open is refused for want of room exactly at the ceiling, or when the numbers have run out. */
  lemma RefusedForRoomIff(s: State, ino: nat)
    requires Inv(s)
    ensures Open(s, ino, None).1.Refused? <==> |s.byHandle| == s.maxOpen || s.nextFh == U64_MAX
    ensures Open(s, ino, None).1.Refused? ==> Open(s, ino, None) == (s, Refused(24))
  {}

  /** Opening and releasing leaves every other handle as it was, and a failed open all of them. */
  lemma OthersAreUntouched(s: State, ino: nat, host: Option<int>)
    requires Inv(s)
    ensures var (t, r) := Open(s, ino, host);
      && (r.Refused? ==> t.byHandle == s.byHandle && t.byInode == s.byInode)
      && (r.Opened? ==> Release(t, r.fh).byHandle == s.byHandle)
  {
    var (t, r) := Open(s, ino, host);
    if r.Opened? {
      assert r.fh !in s.byHandle;
      assert t.byHandle - {r.fh} == s.byHandle;
    }
  }
}
