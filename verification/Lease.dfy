/**
  The network-holder lease of the app runner (nix/app/runner.rs): any number of
  launchers share one holder container through two lock files. `guard`
  serialises making and removing the holder, `lease` carries the claims.

  One process is a program counter; one action is one lock call, one podman call
  with its answer, one `drop`, or an event of the environment (the holder's
  process dies, a launcher is killed, the kernel closes a dead launcher's file).
  Turning an exclusive `flock` into a shared one is two actions, because the
  kernel drops the first lock before it takes the second.
*/
module Lease {
  import opened Wrappers

  type Pid = nat

  datatype Holder = Absent | Dead | Alive

  datatype Pc =
      // acquire_lease
    | WantGuard
    | TryClaim
    | AskLeftover
    | AskLeftoverAlive
    | RemoveLeftover
      // start_holder, called by acquire_lease
    | AskExists
    | Create
    | AskCreated
    | Start
      // the rest of acquire_lease
    | Verify
    | ConvertUnlock
    | ConvertLock
    | DropGuard
      // the entry runs under its claim
    | Entry
      // release_lease, after `drop(lease)`
    | WantGuardToRelease
    | Probe
    | Remove
      // leaving either function: the lease file closes before the guard
    | CloseLease
    | CloseGuard
    | Done
      // killed: the kernel closes the files one by one, in no fixed order
    | Dying

  datatype State = State(
    pc: map<Pid, Pc>,
    guard: Option<Pid>,
    claims: set<Pid>,
    exclusive: Option<Pid>,
    holder: Holder)

  datatype Action =
    | Launch
    | TakeGuard
    | GiveUpGuard           // GUARD_TIMEOUT passed, or the file cannot be opened
    | TryLock               // flock(LOCK_EX | LOCK_NB) on the lease file
    | Ask                   // a podman question, answered from the holder's state
    | Run(ok: bool, after: Holder)  // a podman command and what it left behind
    | Fail                  // a lock or podman error that ends the function
    | Unlock
    | LockShared
    | Drop
    | EndEntry
    | Kill
    | KernelClosesGuard
    | KernelClosesLease
    | HolderDies

  const INIT := State(map[], None, {}, None, Absent)

  // ---- One process ----

  /** What a process has of its own, and the holder it acts on. */
  datatype View = View(c: Pc, guard: bool, claim: bool, exclusive: bool, holder: Holder)

  /** What the others have: the guard, some shared claim, the exclusive lock. */
  datatype Others = Others(guard: bool, claim: bool, exclusive: bool)

  /** The program counters at which the code holds the guard. */
  predicate HoldsGuard(c: Pc) {
    c != WantGuard && c != Entry && c != WantGuardToRelease && c != Done && c != Dying
  }

  /** What a podman command may leave behind; a stopped or failed one may have got half way. */
  predicate Leaves(c: Pc, before: Holder, ok: bool, after: Holder) {
    match c
    case RemoveLeftover => ok ==> after == Absent
    case Remove => ok ==> after == Absent
    case Create => before == Absent && (ok ==> after == Alive)
    case Start => if ok then before != Absent && after == Alive else after == before
    case _ => false
  }

  predicate Can(v: View, o: Others, a: Action) {
    match a
    case Launch => false
    case HolderDies => false
    case TakeGuard => (v.c == WantGuard || v.c == WantGuardToRelease) && !o.guard
    case GiveUpGuard => v.c == WantGuard || v.c == WantGuardToRelease
    case TryLock => v.c == TryClaim || v.c == Probe
    case Ask => v.c == AskLeftover || v.c == AskLeftoverAlive || v.c == AskExists || v.c == AskCreated || v.c == Verify
    case Run(ok, after) => Leaves(v.c, v.holder, ok, after)
    case Fail => v.c == TryClaim || v.c == AskLeftover || v.c == AskLeftoverAlive || v.c == AskExists || v.c == Create
                 || v.c == AskCreated || v.c == Start || v.c == Verify || v.c == ConvertLock || v.c == Probe
    case Unlock => v.c == ConvertUnlock
    case LockShared => v.c == ConvertLock && !o.exclusive
    case Drop => v.c == DropGuard || v.c == CloseLease || v.c == CloseGuard
    case EndEntry => v.c == Entry
    case Kill => v.c != Done && v.c != Dying
    case KernelClosesGuard => v.c == Dying
    case KernelClosesLease => v.c == Dying
  }

  function Act(v: View, o: Others, a: Action): View {
    match a
    case TakeGuard => v.(c := if v.c == WantGuard then TryClaim else Probe, guard := true)
    case GiveUpGuard => v.(c := Done)
    case TryLock =>
      if !o.claim && !o.exclusive then
        v.(c := if v.c == TryClaim then AskLeftover else Remove, exclusive := true)
      else
        v.(c := if v.c == TryClaim then AskExists else CloseLease)
    case Ask => v.(c := Answer(v))
    case Run(ok, after) => v.(c := Ran(v.c, ok), holder := after)
    case Fail => v.(c := CloseLease)
    case Unlock => v.(c := ConvertLock, exclusive := false)
    case LockShared => v.(c := DropGuard, exclusive := false, claim := true)
    case Drop =>
      (match v.c
       case DropGuard => v.(c := Entry, guard := false)
       case CloseLease => v.(c := CloseGuard, exclusive := false)
       case _ => v.(c := Done, guard := false))
    case EndEntry => v.(c := WantGuardToRelease, claim := false)
    case Kill => v.(c := Dying)
    case KernelClosesGuard => v.(guard := false)
    case KernelClosesLease => v.(claim := false, exclusive := false)
    case _ => v
  }

  function Answer(v: View): Pc {
    match v.c
    case AskLeftover => if v.holder != Absent then AskLeftoverAlive else AskExists
    case AskLeftoverAlive => if v.holder == Alive then AskExists else RemoveLeftover
    case AskExists => if v.holder != Absent then Start else Create
    case AskCreated => if v.holder != Absent then Start else CloseLease
    case _ => if v.holder != Alive then CloseLease else if v.exclusive then ConvertUnlock else ConvertLock
  }

  /** Removals ignore their exit status; creating and starting do not. */
  function Ran(c: Pc, ok: bool): Pc {
    match c
    case RemoveLeftover => AskExists
    case Remove => CloseLease
    case Create => if ok then Start else AskCreated
    case _ => if ok then Verify else CloseLease
  }

  // ---- All of them ----

  function ViewOf(s: State, p: Pid): View
    requires p in s.pc
  {
    View(s.pc[p], s.guard == Some(p), p in s.claims, s.exclusive == Some(p), s.holder)
  }

  function OthersOf(s: State, p: Pid): Others {
    Others(s.guard != None && s.guard != Some(p), s.claims - {p} != {}, s.exclusive != None && s.exclusive != Some(p))
  }

  predicate Enabled(s: State, p: Pid, a: Action) {
    match a
    case Launch => p !in s.pc
    case HolderDies => s.holder == Alive
    case _ => p in s.pc && Can(ViewOf(s, p), OthersOf(s, p), a)
  }

  function Put(s: State, p: Pid, v: View): State {
    State(s.pc[p := v.c],
          if v.guard then Some(p) else if s.guard == Some(p) then None else s.guard,
          if v.claim then s.claims + {p} else s.claims - {p},
          if v.exclusive then Some(p) else if s.exclusive == Some(p) then None else s.exclusive,
          v.holder)
  }

  function Next(s: State, p: Pid, a: Action): State
    requires Enabled(s, p, a)
  {
    match a
    case Launch => s.(pc := s.pc[p := WantGuard])
    case HolderDies => s.(holder := Dead)
    case _ => Put(s, p, Act(ViewOf(s, p), OthersOf(s, p), a))
  }

  datatype Event = Event(p: Pid, a: Action)

  /** `es` can happen from `s`, one event after the other. */
  predicate Possible(s: State, es: seq<Event>)
    decreases |es|
  {
    es == [] || (Enabled(s, es[0].p, es[0].a) && Possible(Next(s, es[0].p, es[0].a), es[1..]))
  }

  function After(s: State, es: seq<Event>): State
    requires Possible(s, es)
    decreases |es|
  {
    if es == [] then s else After(Next(s, es[0].p, es[0].a), es[1..])
  }

  lemma {:induction false} PrefixPossible(s: State, es: seq<Event>, k: nat)
    requires Possible(s, es) && k <= |es|
    ensures Possible(s, es[..k])
    decreases |es|
  {
    if k > 0 {
      PrefixPossible(Next(s, es[0].p, es[0].a), es[1..], k - 1);
      assert es[..k][1..] == es[1..][..k - 1];
    }
  }

  /** The state after the first `k` events of a run. */
  function Moment(es: seq<Event>, k: nat): State
    requires Possible(INIT, es) && k <= |es|
  {
    PrefixPossible(INIT, es, k);
    After(INIT, es[..k])
  }

  lemma {:induction false} Extend(s: State, es: seq<Event>, e: Event)
    requires Possible(s, es) && Enabled(After(s, es), e.p, e.a)
    ensures Possible(s, es + [e]) && After(s, es + [e]) == Next(After(s, es), e.p, e.a)
    decreases |es|
  {
    if es == [] {
      assert es + [e] == [e];
    } else {
      Extend(Next(s, es[0].p, es[0].a), es[1..], e);
      assert (es + [e])[1..] == es[1..] + [e];
    }
  }

  // ---- Safety ----

  predicate Removing(c: Pc) {
    c == RemoveLeftover || c == Remove
  }

  /** Between a successful `acquire_lease` and the release or death of the entry. */
  predicate Leased(c: Pc) {
    c == DropGuard || c == Entry
  }

  /** What a process's counter says about its own locks and about the holder. */
  predicate Consistent(v: View) {
    && (HoldsGuard(v.c) ==> v.guard)
    && (v.guard ==> HoldsGuard(v.c) || v.c == Dying)
    && (v.exclusive ==> v.c == Dying || (v.guard && v.c != TryClaim && v.c != Probe && v.c != ConvertLock
                                         && v.c != DropGuard && v.c != CloseGuard))
    && (Removing(v.c) || v.c == AskLeftover || v.c == AskLeftoverAlive ==> v.exclusive)
    && (v.claim ==> Leased(v.c) || v.c == Dying)
    && (Leased(v.c) ==> v.claim)
    && (v.c == Verify || v.c == ConvertUnlock || v.c == ConvertLock || Leased(v.c) ==> v.holder != Absent)
    && (v.c == AskLeftoverAlive || v.c == Start ==> v.holder != Absent)
    && (v.c == RemoveLeftover ==> v.holder == Dead)
    && (v.c == Create ==> v.holder == Absent)
  }

  /** What every reachable state satisfies. */
  predicate Inv(s: State) {
    && (forall p <- s.pc :: Consistent(ViewOf(s, p)))
    && (s.guard.Some? ==> s.guard.value in s.pc)
    && (s.exclusive.Some? ==> s.exclusive.value in s.pc && s.claims == {})
    && s.claims <= s.pc.Keys
  }

  lemma PodmanKeepsConsistent(v: View, o: Others, a: Action)
    requires a.Ask? || a.Run? || a.Fail?
    requires Consistent(v) && Can(v, o, a)
    ensures Consistent(Act(v, o, a))
  {}

  lemma LockKeepsConsistent(v: View, o: Others, a: Action)
    requires !(a.Ask? || a.Run? || a.Fail?)
    requires Consistent(v) && Can(v, o, a)
    ensures Consistent(Act(v, o, a))
  {}

  lemma ActKeepsConsistent(v: View, o: Others, a: Action)
    requires Consistent(v) && Can(v, o, a)
    ensures Consistent(Act(v, o, a))
  {
    if a.Ask? || a.Run? || a.Fail? {
      PodmanKeepsConsistent(v, o, a);
    } else {
      LockKeepsConsistent(v, o, a);
    }
  }

  /** A lock is taken only when the others leave it free; only a remover removes. */
  lemma ActTakesFreeLocks(v: View, o: Others, a: Action)
    requires Can(v, o, a)
    ensures var w := Act(v, o, a);
      && (w.guard && !v.guard ==> !o.guard)
      && (w.exclusive && !v.exclusive ==> !o.claim && !o.exclusive)
      && (w.claim && !v.claim ==> !o.exclusive && !w.exclusive)
      && (w.holder == Absent && v.holder != Absent ==> Removing(v.c))
  {}

  /** The only process that removes the holder is alone with it. */
  lemma RemoverIsAlone(s: State, p: Pid, q: Pid)
    requires Inv(s) && p in s.pc && Removing(s.pc[p])
    ensures s.guard == Some(p) && s.claims == {}
    ensures q in s.pc && q != p ==> !HoldsGuard(s.pc[q]) && !Leased(s.pc[q])
  {
    assert Consistent(ViewOf(s, p));
    if q in s.pc {
      assert Consistent(ViewOf(s, q));
    }
  }

  lemma StepKeepsLocks(s: State, p: Pid, a: Action)
    requires Inv(s) && Enabled(s, p, a)
    ensures var t := Next(s, p, a);
      && (t.guard.Some? ==> t.guard.value in t.pc)
      && (t.exclusive.Some? ==> t.exclusive.value in t.pc && t.claims == {})
      && t.claims <= t.pc.Keys
  {
    if !a.Launch? && !a.HolderDies? {
      ActTakesFreeLocks(ViewOf(s, p), OthersOf(s, p), a);
    }
  }

  /** No removal falls into the gap of the conversion: the converter owns the guard. */
  lemma StepKeepsInv(s: State, p: Pid, a: Action)
    requires Inv(s) && Enabled(s, p, a)
    ensures Inv(Next(s, p, a))
  {
    StepKeepsLocks(s, p, a);
    var t := Next(s, p, a);
    forall q <- t.pc
      ensures Consistent(ViewOf(t, q))
    {
      StepKeepsConsistent(s, p, a, q);
    }
  }

  lemma StepKeepsConsistent(s: State, p: Pid, a: Action, q: Pid)
    requires Inv(s) && Enabled(s, p, a) && q in Next(s, p, a).pc
    ensures Consistent(ViewOf(Next(s, p, a), q))
  {
    if a.Launch? {
      if q != p {
        assert ViewOf(Next(s, p, a), q) == ViewOf(s, q);
      }
    } else if a.HolderDies? {
      assert Consistent(ViewOf(s, q));
    } else if q == p {
      ActKeepsConsistent(ViewOf(s, p), OthersOf(s, p), a);
      assert ViewOf(Next(s, p, a), p) == Act(ViewOf(s, p), OthersOf(s, p), a) by { hide Act, Consistent; }
    } else {
      OtherKeepsConsistent(s, p, a, q);
    }
  }

  lemma OtherKeepsConsistent(s: State, p: Pid, a: Action, q: Pid)
    requires Inv(s) && Enabled(s, p, a) && !a.Launch? && !a.HolderDies? && q in s.pc && q != p
    ensures Consistent(ViewOf(Next(s, p, a), q))
  {
    ActTakesFreeLocks(ViewOf(s, p), OthersOf(s, p), a);
    if Removing(s.pc[p]) {
      RemoverIsAlone(s, p, q);
    }
    assert Consistent(ViewOf(s, q));
    PutLeavesOthers(s, p, Act(ViewOf(s, p), OthersOf(s, p), a), q);
  }

  /** Writing back a process that took only free locks leaves the others theirs. */
  lemma PutLeavesOthers(s: State, p: Pid, w: View, q: Pid)
    requires p in s.pc && q in s.pc && q != p
    requires w.guard ==> s.guard == None || s.guard == Some(p)
    requires w.exclusive ==> s.exclusive == None || s.exclusive == Some(p)
    ensures ViewOf(Put(s, p, w), q) == ViewOf(s, q).(holder := w.holder)
  {}

  lemma {:induction false} RunKeepsInv(s: State, es: seq<Event>)
    requires Inv(s) && Possible(s, es)
    ensures Inv(After(s, es))
    decreases |es|
  {
    if es != [] {
      StepKeepsInv(s, es[0].p, es[0].a);
      RunKeepsInv(Next(s, es[0].p, es[0].a), es[1..]);
    }
  }

  /** The event is a podman call that removes the holder. */
  predicate Removal(s: State, e: Event) {
    e.p in s.pc && Removing(s.pc[e.p]) && e.a.Run?
  }

  /**
    A runner removes the holder only while it owns the guard and nobody has a
    claim, in every interleaving: whatever events led to the removal.
  */
  lemma RemovalOnlyUnclaimed(es: seq<Event>, e: Event)
    requires Possible(INIT, es) && Enabled(After(INIT, es), e.p, e.a) && Removal(After(INIT, es), e)
    ensures var s := After(INIT, es);
      s.guard == Some(e.p) && s.claims == {} && forall q <- s.pc :: !Leased(s.pc[q])
  {
    RunKeepsInv(INIT, es);
    var s := After(INIT, es);
    forall q <- s.pc
      ensures !Leased(s.pc[q])
    {
      RemoverIsAlone(s, e.p, q);
    }
  }

  /**
    While an entry is leased no runner removes the holder, and the container
    exists even when its process has died: in every run, at every moment of it.
  */
  lemma LeasedEntryKeepsHolder(es: seq<Event>, k: nat, p: Pid)
    requires Possible(INIT, es) && k <= |es|
    requires p in Moment(es, k).pc && Leased(Moment(es, k).pc[p])
    ensures Moment(es, k).holder != Absent
    ensures k < |es| ==> !Removal(Moment(es, k), es[k])
  {
    PrefixPossible(INIT, es, k);
    RunKeepsInv(INIT, es[..k]);
    var s := Moment(es, k);
    assert Consistent(ViewOf(s, p));
    if k < |es| && Removal(s, es[k]) {
      RemoverIsAlone(s, es[k].p, p);
    }
  }

  // ---- The holder does not outlive its entries ----

  /** No crash, no failed acquisition, no failed final removal, no guard timeout. */
  predicate Calm(v: View, a: Action) {
    && !a.Kill? && !a.GiveUpGuard? && !a.Fail?
    && (a.Run? && (v.c == Remove || v.c == Start) ==> a.ok)
    && (a.Ask? && v.c == Verify ==> v.holder == Alive)
    && (a.Ask? && v.c == AskCreated ==> v.holder != Absent)
  }

  predicate CalmRun(s: State, es: seq<Event>)
    requires Possible(s, es)
    decreases |es|
  {
    es == [] || ((es[0].p in s.pc ==> Calm(ViewOf(s, es[0].p), es[0].a))
                 && CalmRun(Next(s, es[0].p, es[0].a), es[1..]))
  }

  /** Has a claim, owns the guard, or is about to take it to release: will see to the holder. */
  predicate Responsible(c: Pc) {
    c != WantGuard && c != CloseLease && c != CloseGuard && c != Done && c != Dying
  }

  predicate Attended(s: State) {
    && (forall p <- s.pc :: s.pc[p] != Dying)
    && (s.holder != Absent ==> exists p :: p in s.pc && Responsible(s.pc[p]))
  }

  lemma ProbeFailsForAReason(s: State, p: Pid) returns (q: Pid)
    requires Inv(s) && Attended(s) && p in s.pc && s.pc[p] == Probe
    requires OthersOf(s, p).claim || OthersOf(s, p).exclusive
    ensures q != p && q in s.pc && Responsible(s.pc[q])
  {
    assert Consistent(ViewOf(s, p));
    if s.claims - {p} != {} {
      q :| q in s.claims - {p};
    } else {
      q := s.exclusive.value;
    }
    assert Consistent(ViewOf(s, q));
  }

  /** An actor that gives up its responsibility leaves no holder behind, or found others at the probe. */
  lemma CalmActLeavesNothing(v: View, o: Others, a: Action)
    requires Consistent(v) && Can(v, o, a) && v.c != Dying
    requires Calm(v, a)
    ensures Act(v, o, a).c != Dying
    ensures Responsible(v.c) && !Responsible(Act(v, o, a).c) ==>
      Act(v, o, a).holder == Absent || (v.c == Probe && (o.claim || o.exclusive))
    ensures !Responsible(v.c) && !Responsible(Act(v, o, a).c) ==> Act(v, o, a).holder == v.holder
  {
    if a.Ask? || a.Run? || a.Fail? {
      CalmPodmanLeavesNothing(v, o, a);
    } else {
      CalmLockLeavesNothing(v, o, a);
    }
  }

  lemma CalmPodmanLeavesNothing(v: View, o: Others, a: Action)
    requires a.Ask? || a.Run? || a.Fail?
    requires Consistent(v) && Can(v, o, a) && v.c != Dying
    requires Calm(v, a)
    ensures var w := Act(v, o, a);
      && w.c != Dying
      && (Responsible(v.c) && !Responsible(w.c) ==> w.holder == Absent || (v.c == Probe && (o.claim || o.exclusive)))
      && (!Responsible(v.c) && !Responsible(w.c) ==> w.holder == v.holder)
  {}

  lemma CalmLockLeavesNothing(v: View, o: Others, a: Action)
    requires !(a.Ask? || a.Run? || a.Fail?)
    requires Consistent(v) && Can(v, o, a) && v.c != Dying
    requires Calm(v, a)
    ensures var w := Act(v, o, a);
      && w.c != Dying
      && (Responsible(v.c) && !Responsible(w.c) ==> w.holder == Absent || (v.c == Probe && (o.claim || o.exclusive)))
      && (!Responsible(v.c) && !Responsible(w.c) ==> w.holder == v.holder)
  {}

  /** What `CalmActLeavesNothing` says of one process, carried over to all of them. */
  lemma PutAttends(s: State, p: Pid, w: View)
    requires Inv(s) && Attended(s) && p in s.pc && w.c != Dying
    requires Responsible(s.pc[p]) && !Responsible(w.c) ==>
      w.holder == Absent || (s.pc[p] == Probe && (OthersOf(s, p).claim || OthersOf(s, p).exclusive))
    requires !Responsible(s.pc[p]) && !Responsible(w.c) ==> w.holder == s.holder
    ensures Attended(Put(s, p, w))
  {
    var t := Put(s, p, w);
    if t.holder != Absent && !Responsible(w.c) {
      var q: Pid;
      if Responsible(s.pc[p]) {
        q := ProbeFailsForAReason(s, p);
      } else {
        q :| q in s.pc && Responsible(s.pc[q]);
      }
      assert q in t.pc && Responsible(t.pc[q]);
    } else {
      assert p in t.pc && t.pc[p] == w.c;
    }
  }

  lemma CalmStepAttends(s: State, p: Pid, a: Action)
    requires Inv(s) && Attended(s) && Enabled(s, p, a) && (p in s.pc ==> Calm(ViewOf(s, p), a))
    ensures Attended(Next(s, p, a))
  {
    if a.HolderDies? || a.Launch? {
      if s.holder != Absent {
        var q :| q in s.pc && Responsible(s.pc[q]);
        assert q in Next(s, p, a).pc && Responsible(Next(s, p, a).pc[q]);
      }
    } else {
      CalmActLeavesNothing(ViewOf(s, p), OthersOf(s, p), a);
      PutAttends(s, p, Act(ViewOf(s, p), OthersOf(s, p), a));
    }
  }

  lemma {:induction false} CalmRunAttends(s: State, es: seq<Event>)
    requires Inv(s) && Attended(s) && Possible(s, es) && CalmRun(s, es)
    ensures Attended(After(s, es))
    decreases |es|
  {
    if es != [] {
      StepKeepsInv(s, es[0].p, es[0].a);
      CalmStepAttends(s, es[0].p, es[0].a);
      CalmRunAttends(Next(s, es[0].p, es[0].a), es[1..]);
    }
  }

  /** The last entry to end takes the holder with it. */
  lemma HolderGoneWhenAllDone(es: seq<Event>)
    requires Possible(INIT, es) && CalmRun(INIT, es)
    requires forall p <- After(INIT, es).pc :: After(INIT, es).pc[p] == Done
    ensures After(INIT, es).holder == Absent
  {
    CalmRunAttends(INIT, es);
  }

  /** Process 0 alone. */
  function Alone(v: View): State {
    State(map[0 := v.c], if v.guard then Some(0) else None, if v.claim then {0} else {},
          if v.exclusive then Some(0) else None, v.holder)
  }

  lemma AloneStep(v: View, w: View)
    ensures ViewOf(Alone(v), 0) == v && OthersOf(Alone(v), 0) == Others(false, false, false)
    ensures Put(Alone(v), 0, w) == Alone(w)
  {
    var s := Alone(v);
    assert s.claims - {0} == {};
    assert Put(s, 0, w).pc == Alone(w).pc;
    assert Put(s, 0, w).claims == Alone(w).claims;
  }

  /** `w` comes right after `v` when nobody else is there. */
  predicate Leads(v: View, a: Action, w: View) {
    Can(v, Others(false, false, false), a) && Act(v, Others(false, false, false), a) == w
  }

  lemma ReachAlone(es: seq<Event>, v: View, a: Action, w: View) returns (fs: seq<Event>)
    requires Possible(INIT, es) && After(INIT, es) == Alone(v) && Leads(v, a, w)
    ensures Possible(INIT, fs) && After(INIT, fs) == Alone(w)
  {
    AloneStep(v, w);
    assert !a.Launch? && !a.HolderDies?;
    fs := es + [Event(0, a)];
    Extend(INIT, es, Event(0, a));
  }

  lemma FirstLaunch() returns (fs: seq<Event>)
    ensures Possible(INIT, fs) && After(INIT, fs) == Alone(View(WantGuard, false, false, false, Absent))
  {
    fs := [Event(0, Launch)];
    hide Put, Act, ViewOf, OthersOf, Can;
    assert fs[1..] == [] && Next(INIT, 0, Launch).pc == map[0 := WantGuard];
    assert Possible(Next(INIT, 0, Launch), []);
    assert After(INIT, fs) == After(Next(INIT, 0, Launch), []);
  }

  lemma LaunchAlone() returns (fs: seq<Event>)
    ensures Possible(INIT, fs) && After(INIT, fs) == Alone(View(Verify, true, false, true, Alive))
  {
    fs := FirstLaunch();
    hide Possible, After, Alone, INIT;
    fs := ReachAlone(fs, View(WantGuard, false, false, false, Absent), TakeGuard, View(TryClaim, true, false, false, Absent));
    fs := ReachAlone(fs, View(TryClaim, true, false, false, Absent), TryLock, View(AskLeftover, true, false, true, Absent));
    fs := ReachAlone(fs, View(AskLeftover, true, false, true, Absent), Ask, View(AskExists, true, false, true, Absent));
    fs := ReachAlone(fs, View(AskExists, true, false, true, Absent), Ask, View(Create, true, false, true, Absent));
    fs := ReachAlone(fs, View(Create, true, false, true, Absent), Run(true, Alive), View(Start, true, false, true, Alive));
    fs := ReachAlone(fs, View(Start, true, false, true, Alive), Run(true, Alive), View(Verify, true, false, true, Alive));
  }

  /** Why the runs have to be calm: a launcher killed inside its entry leaves the holder running. */
  lemma KilledLauncherLeavesHolder() returns (fs: seq<Event>)
    ensures Possible(INIT, fs) && After(INIT, fs) == Alone(View(Dying, false, false, false, Alive))
  {
    fs := LaunchAlone();
    hide Possible, After, Alone, INIT;
    fs := ReachAlone(fs, View(Verify, true, false, true, Alive), Ask, View(ConvertUnlock, true, false, true, Alive));
    fs := ReachAlone(fs, View(ConvertUnlock, true, false, true, Alive), Unlock, View(ConvertLock, true, false, false, Alive));
    fs := ReachAlone(fs, View(ConvertLock, true, false, false, Alive), LockShared, View(DropGuard, true, true, false, Alive));
    fs := ReachAlone(fs, View(DropGuard, true, true, false, Alive), Drop, View(Entry, false, true, false, Alive));
    fs := ReachAlone(fs, View(Entry, false, true, false, Alive), Kill, View(Dying, false, true, false, Alive));
    fs := ReachAlone(fs, View(Dying, false, true, false, Alive), KernelClosesLease, View(Dying, false, false, false, Alive));
  }
}
