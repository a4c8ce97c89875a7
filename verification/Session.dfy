/**
  Joining and tearing down a develop session: the join script of
  nix/scripts/run/dispatch.nix against the inner watchdog of
  nix/container-module.nix.

  A shell registers a marker under the session lock, hands it over to its scope
  without the lock (the scope appears, then the marker goes), and ends. The
  watchdog, under the lock, reads whether there is a live scope and whether
  there is a marker, and tears down when there is neither. The two reads are two
  steps; `Order` says which comes first, for the watchdog and for the joiner's
  search of a free index alike.
*/
module Session {
  import opened Wrappers

  type Pid = nat

  /** The code reads `ScopesFirst`. */
  datatype Order = ScopesFirst | MarkersFirst

  const MAX_SHELLS := 64

  datatype Proc =
      // a shell: the join script, holding the lock from Looking to Exiting
    | Arriving
    | Looking
    | ScanFirst(i: nat, isNew: bool, gen: nat)
    | ScanSecond(i: nat, isNew: bool, gen: nat)
    | Marking(i: nat, isNew: bool, gen: nat)
    | Exiting(i: nat, isNew: bool, gen: nat)
    | Full
      // the rest of `develop`, then the shell inside its scope
    | Setup(i: nat, isNew: bool, gen: nat)
    | InScope(i: nat, isNew: bool, gen: nat)
    | Running(i: nat, isNew: bool, gen: nat)
    | Ended
      // a watchdog, holding the lock from DogLook on
    | DogIdle
    | DogPeek
    | DogWant
    | DogLook
    | DogConfirm
    | DogBusy
    | DogDecided
    | DogTeardown
    | DogDone

  /** `gen` counts teardown decisions, `entered` the shells let in since the last one. */
  datatype State = State(
    procs: map<Pid, Proc>,
    lock: Option<Pid>,
    live: bool,
    markers: set<nat>,
    scopes: set<nat>,
    gen: nat,
    entered: nat)

  const INIT := State(map[], None, false, {}, {}, 0, 0)

  datatype Action =
    | ArriveShell
    | ArriveDog
    | Lock
    | Look                    // `[ -f live ]`, then `: > live`
    | Read
    | Mark
    | Unlock
    | StartScope
    | DropMarker(ok: bool)    // `rm -f`, best effort
    | End
    | Die                     // killed, or failing, before the shell is in its scope
    | Decide                  // `rm -f live`
    | Sweep(i: nat)           // `find -mmin +5 -delete` removes marker `i`

  predicate HoldsLock(c: Proc) {
    c.Looking? || c.ScanFirst? || c.ScanSecond? || c.Marking? || c.Exiting? || c.Full?
    || c.DogLook? || c.DogConfirm? || c.DogBusy? || c.DogDecided? || c.DogTeardown?
  }

  /** Registered its marker and not yet ended. */
  predicate Unfinished(c: Proc) {
    c.Exiting? || c.Setup? || c.InScope? || c.Running?
  }

  predicate HasScope(c: Proc) {
    c.InScope? || c.Running?
  }

  /** Between its two reads, under the lock. */
  predicate MidRead(c: Proc) {
    c.ScanSecond? || c.DogConfirm?
  }

  predicate Can(s: State, c: Proc, a: Action) {
    match a
    case Lock => (c.Arriving? || c.DogWant?) && s.lock == None
    case Look => c.Looking?
    case Read => c.ScanFirst? || c.ScanSecond? || c.DogIdle? || c.DogPeek? || c.DogLook? || c.DogConfirm?
    case Mark => c.Marking?
    case Unlock => c.Exiting? || c.Full? || c.DogBusy? || c.DogTeardown?
    case StartScope => c.Setup? && c.i !in s.scopes
    case DropMarker(_) => c.InScope?
    case End => HasScope(c)
    case Die => !HasScope(c) && !c.Ended?
    case Decide => c.DogDecided?
    case _ => false
  }

  /** The sweep takes no marker of a shell still setting up: five minutes are longer than a setup. */
  predicate Enabled(s: State, p: Pid, a: Action) {
    match a
    case ArriveShell => p !in s.procs
    case ArriveDog => p !in s.procs
    case Sweep(i) => forall q <- s.procs :: (s.procs[q].Exiting? || s.procs[q].Setup?) ==> s.procs[q].i != i
    case _ => p in s.procs && Can(s, s.procs[p], a)
  }

  function FirstRead(o: Order, s: State): set<nat> {
    if o == ScopesFirst then s.scopes else s.markers
  }

  function SecondRead(o: Order, s: State): set<nat> {
    if o == ScopesFirst then s.markers else s.scopes
  }

  function NextIndex(i: nat, isNew: bool, gen: nat): Proc {
    if i < MAX_SHELLS then ScanFirst(i + 1, isNew, gen) else Full
  }

  function AfterRead(o: Order, s: State, c: Proc): Proc {
    match c
    case ScanFirst(i, f, g) => if i in FirstRead(o, s) then NextIndex(i, f, g) else ScanSecond(i, f, g)
    case ScanSecond(i, f, g) => if i in SecondRead(o, s) then NextIndex(i, f, g) else Marking(i, f, g)
    case DogIdle => if FirstRead(o, s) != {} then DogIdle else DogPeek
    case DogPeek => if SecondRead(o, s) != {} then DogIdle else DogWant
    case DogLook => if FirstRead(o, s) != {} then DogBusy else DogConfirm
    case DogConfirm => if SecondRead(o, s) != {} then DogBusy else DogDecided
    case _ => c
  }

  function Moved(o: Order, s: State, c: Proc, a: Action): Proc {
    match a
    case Lock => if c.Arriving? then Looking else DogLook
    case Look => ScanFirst(1, !s.live, s.gen)
    case Read => AfterRead(o, s, c)
    case Mark => if c.Marking? then Exiting(c.i, c.isNew, c.gen) else c
    case Unlock =>
      if c.Exiting? then Setup(c.i, c.isNew, c.gen) else if c.DogBusy? then DogIdle else if c.Full? then Ended else DogDone
    case StartScope => if c.Setup? then InScope(c.i, c.isNew, c.gen) else c
    case DropMarker(_) => if c.InScope? then Running(c.i, c.isNew, c.gen) else c
    case Decide => DogTeardown
    case _ => Ended
  }

  function MarkersAfter(s: State, c: Proc, a: Action): set<nat> {
    if a == Mark && c.Marking? then s.markers + {c.i}
    else if a == DropMarker(true) && c.InScope? then s.markers - {c.i}
    else s.markers
  }

  function ScopesAfter(s: State, c: Proc, a: Action): set<nat> {
    if a == StartScope && c.Setup? then s.scopes + {c.i}
    else if a == End && HasScope(c) then s.scopes - {c.i}
    else s.scopes
  }

  function Next(o: Order, s: State, p: Pid, a: Action): State
    requires Enabled(s, p, a)
  {
    match a
    case ArriveShell => s.(procs := s.procs[p := Arriving])
    case ArriveDog => s.(procs := s.procs[p := DogIdle])
    case Sweep(i) => s.(markers := s.markers - {i})
    case _ =>
      var c := s.procs[p];
      var d := Moved(o, s, c, a);
      State(s.procs[p := d],
            if HoldsLock(d) then Some(p) else if HoldsLock(c) then None else s.lock,
            if a == Look then true else if a == Decide then false else s.live,
            MarkersAfter(s, c, a),
            ScopesAfter(s, c, a),
            if a == Decide then s.gen + 1 else s.gen,
            if a == Look then s.entered + 1 else if a == Decide then 0 else s.entered)
  }

  datatype Event = Event(p: Pid, a: Action)

  predicate Possible(o: Order, s: State, es: seq<Event>)
    decreases |es|
  {
    es == [] || (Enabled(s, es[0].p, es[0].a) && Possible(o, Next(o, s, es[0].p, es[0].a), es[1..]))
  }

  function After(o: Order, s: State, es: seq<Event>): State
    requires Possible(o, s, es)
    decreases |es|
  {
    if es == [] then s else After(o, Next(o, s, es[0].p, es[0].a), es[1..])
  }

  lemma {:induction false} Extend(o: Order, s: State, es: seq<Event>, e: Event)
    requires Possible(o, s, es) && Enabled(After(o, s, es), e.p, e.a)
    ensures Possible(o, s, es + [e]) && After(o, s, es + [e]) == Next(o, After(o, s, es), e.p, e.a)
    decreases |es|
  {
    if es == [] {
      assert es + [e] == [e];
    } else {
      Extend(o, Next(o, s, es[0].p, es[0].a), es[1..], e);
      assert (es + [e])[1..] == es[1..] + [e];
    }
  }

  // ---- What both sides rely on ----

  /** Has decided to tear down, or is at it. */
  predicate TearsDown(c: Proc) {
    c.DogDecided? || c.DogTeardown?
  }

  /** Two shells do not share an index. */
  predicate Apart(c: Proc, d: Proc) {
    Unfinished(c) && Unfinished(d) ==> c.i != d.i
  }

  /**
    From the decision to tear down to the end of the teardown there is no unfinished
    shell, every shell belongs to the session that is up, and no two shells share an
    index.
  */
  predicate Safe(s: State) {
    && (forall d, p :: d in s.procs && p in s.procs && TearsDown(s.procs[d]) ==> !Unfinished(s.procs[p]))
    && (forall p :: p in s.procs && Unfinished(s.procs[p]) ==> s.procs[p].gen == s.gen)
    && (forall p, q :: p in s.procs && q in s.procs && p != q ==> Apart(s.procs[p], s.procs[q]))
  }

  /** Nobody hands its marker over (or loses it to the sweep) while someone is between two reads. */
  predicate Quiet(s: State, e: Event) {
    (exists q :: q in s.procs && MidRead(s.procs[q])) ==>
      match e.a
      case DropMarker(ok) => !ok
      case Sweep(i) => forall q :: q in s.procs && Unfinished(s.procs[q]) ==> s.procs[q].i != i
      case _ => true
  }

  predicate QuietRun(o: Order, s: State, es: seq<Event>)
    requires Possible(o, s, es)
    decreases |es|
  {
    es == [] || (Quiet(s, es[0]) && QuietRun(o, Next(o, s, es[0].p, es[0].a), es[1..]))
  }

  // ---- The invariant ----

  predicate LockHeld(s: State) {
    && (forall p :: p in s.procs && HoldsLock(s.procs[p]) ==> s.lock == Some(p))
    && (s.lock.Some? ==> s.lock.value in s.procs && HoldsLock(s.procs[s.lock.value]))
  }

  /** A registered shell shows: by its marker until its scope is there, by its scope from then on. */
  predicate Shows(s: State, c: Proc) {
    && (c.Exiting? || c.Setup? ==> c.i in s.markers)
    && (HasScope(c) ==> c.i in s.scopes)
    && (Unfinished(c) || c.ScanFirst? || c.ScanSecond? || c.Marking? ==> c.gen == s.gen)
  }

  /** What a reader between its two reads will still see of shell `c`. */
  predicate StillSeen(o: Order, s: State, c: Proc) {
    Unfinished(c) ==> if o == MarkersFirst then HasScope(c) else c.i in s.markers
  }

  /** What the lock holder `h` knows about another process `c` once it has read twice. */
  predicate Knows(h: Proc, c: Proc) {
    match h
    case Marking(i, _, _) => Unfinished(c) ==> c.i != i
    case DogDecided => !Unfinished(c)
    case DogTeardown => !Unfinished(c)
    case _ => true
  }

  /** What it will still see between its two reads. */
  predicate Sees(o: Order, s: State, h: Proc, c: Proc) {
    match h
    case ScanSecond(i, _, _) => Unfinished(c) && c.i == i ==> StillSeen(o, s, c)
    case DogConfirm => StillSeen(o, s, c)
    case _ => true
  }

  /** What holds as long as no read misses a shell. */
  predicate Core(s: State) {
    && LockHeld(s)
    && (forall p :: p in s.procs ==> Shows(s, s.procs[p]))
    && (forall p, q :: p in s.procs && q in s.procs && p != q ==> Apart(s.procs[p], s.procs[q]))
    && (forall h, p :: h in s.procs && p in s.procs ==> Knows(s.procs[h], s.procs[p]))
    && (s.live <==> s.entered > 0)
  }

  predicate Inv(o: Order, s: State) {
    Core(s) && forall h, p :: h in s.procs && p in s.procs ==> Sees(o, s, s.procs[h], s.procs[p])
  }

  /** A second read that does not see shell `q`, which is in the way of what the reader will do. */
  predicate Overlooks(o: Order, s: State, e: Event, q: Pid) {
    && e.a == Read && e.p in s.procs && q in s.procs && Unfinished(s.procs[q])
    && match s.procs[e.p]
       case ScanSecond(i, _, _) => i == s.procs[q].i && i !in SecondRead(o, s)
       case DogConfirm => SecondRead(o, s) == {}
       case _ => false
  }

  predicate Misses(o: Order, s: State, e: Event) {
    exists q :: q in s.procs && Overlooks(o, s, e, q)
  }

  /** The event is one the order tolerates: any for markers first, a quiet one for scopes first. */
  predicate Tolerated(o: Order, s: State, e: Event) {
    o == MarkersFirst || Quiet(s, e)
  }

  lemma LockIsExclusive(s: State, p: Pid, q: Pid)
    requires LockHeld(s) && p in s.procs && q in s.procs && HoldsLock(s.procs[p]) && HoldsLock(s.procs[q])
    ensures p == q
  {}

  lemma StepKeepsLock(o: Order, s: State, p: Pid, a: Action)
    requires LockHeld(s) && Enabled(s, p, a)
    ensures LockHeld(Next(o, s, p, a))
  {
    if a.ArriveShell? || a.ArriveDog? || a.Sweep? {
    } else {
      var c := s.procs[p];
      assert HoldsLock(Moved(o, s, c, a)) ==> HoldsLock(c) || s.lock == None;
    }
  }

  lemma MoverShows(o: Order, s: State, p: Pid, a: Action)
    requires Core(s) && Enabled(s, p, a) && p in s.procs && !a.Sweep?
    ensures Shows(Next(o, s, p, a), Next(o, s, p, a).procs[p])
  {
    assert Shows(s, s.procs[p]);
  }

  lemma OtherShows(o: Order, s: State, p: Pid, a: Action, q: Pid)
    requires Core(s) && Enabled(s, p, a) && q in s.procs && (q != p || a.Sweep?)
    ensures Shows(Next(o, s, p, a), s.procs[q])
  {
    assert Shows(s, s.procs[q]);
    if a == Decide {
      assert Knows(s.procs[p], s.procs[q]);
      if HoldsLock(s.procs[q]) {
        LockIsExclusive(s, p, q);
      }
    }
  }

  /** The lock holder keeps its knowledge of a shell that moves. */
  lemma HolderKeepsKnowing(o: Order, s: State, p: Pid, a: Action, h: Pid)
    requires Core(s) && Enabled(s, p, a) && !a.Sweep? && p in s.procs && h in s.procs && h != p
    ensures Knows(s.procs[h], Next(o, s, p, a).procs[p])
  {
    assert Knows(s.procs[h], s.procs[p]);
    if HoldsLock(s.procs[h]) && HoldsLock(s.procs[p]) {
      LockIsExclusive(s, p, h);
    }
    assert HoldsLock(s.procs[h]) ==> s.lock == Some(h);
  }

  /** A second read that misses nobody teaches its reader what the mark or the teardown relies on. */
  lemma ReaderLearns(o: Order, s: State, p: Pid, a: Action, q: Pid)
    requires Core(s) && Enabled(s, p, a) && !a.Sweep? && p in s.procs && q in s.procs
    requires !Overlooks(o, s, Event(p, a), q)
    ensures Knows(Next(o, s, p, a).procs[p], Next(o, s, p, a).procs[q])
  {
    assert Knows(s.procs[p], s.procs[q]);
    assert Shows(s, s.procs[q]);
  }

  lemma StepKeepsKnows(o: Order, s: State, p: Pid, a: Action)
    requires Core(s) && Enabled(s, p, a) && !Misses(o, s, Event(p, a))
    ensures var t := Next(o, s, p, a);
      forall h, q :: h in t.procs && q in t.procs ==> Knows(t.procs[h], t.procs[q])
  {
    var t := Next(o, s, p, a);
    forall h, q | h in t.procs && q in t.procs
      ensures Knows(t.procs[h], t.procs[q])
    {
      if a.ArriveShell? || a.ArriveDog? || a.Sweep? {
        if h in s.procs && q in s.procs {
          assert Knows(s.procs[h], s.procs[q]);
        }
      } else if h == p {
        assert !Overlooks(o, s, Event(p, a), q);
        ReaderLearns(o, s, p, a, q);
      } else if q == p {
        HolderKeepsKnowing(o, s, p, a, h);
      } else {
        assert Knows(s.procs[h], s.procs[q]);
      }
    }
  }

  /** The index a shell marks is nobody's. */
  lemma MarkIsUnshared(s: State, p: Pid, q: Pid)
    requires Core(s) && p in s.procs && s.procs[p].Marking? && q in s.procs && q != p
    ensures Unfinished(s.procs[q]) ==> s.procs[q].i != s.procs[p].i
  {
    assert Knows(s.procs[p], s.procs[q]);
  }

  lemma MoverStaysApart(o: Order, s: State, p: Pid, a: Action, q: Pid)
    requires Core(s) && Enabled(s, p, a) && p in s.procs && !a.Sweep? && q in s.procs && q != p
    ensures Apart(Next(o, s, p, a).procs[p], s.procs[q])
  {
    if a == Mark {
      MarkIsUnshared(s, p, q);
    }
  }

  lemma StepKeepsDistinct(o: Order, s: State, p: Pid, a: Action)
    requires Core(s) && Enabled(s, p, a)
    ensures var t := Next(o, s, p, a);
      forall q, r :: q in t.procs && r in t.procs && q != r ==> Apart(t.procs[q], t.procs[r])
  {
    var t := Next(o, s, p, a);
    forall q, r | q in t.procs && r in t.procs && q != r
      ensures Apart(t.procs[q], t.procs[r])
    {
      if q in s.procs && r in s.procs {
        assert Apart(s.procs[q], s.procs[r]);
        if q == p && !a.Sweep? {
          MoverStaysApart(o, s, p, a, r);
        } else if r == p && !a.Sweep? {
          MoverStaysApart(o, s, p, a, q);
        }
      }
    }
  }

  /** Every step keeps what the lock holders rely on, unless it is a read that misses a shell. */
  lemma StepKeepsCore(o: Order, s: State, p: Pid, a: Action)
    requires Core(s) && Enabled(s, p, a) && !Misses(o, s, Event(p, a))
    ensures Core(Next(o, s, p, a))
  {
    var t := Next(o, s, p, a);
    StepKeepsLock(o, s, p, a);
    StepKeepsKnows(o, s, p, a);
    StepKeepsDistinct(o, s, p, a);
    forall q | q in t.procs
      ensures Shows(t, t.procs[q])
    {
      if q == p && !a.Sweep? {
        if p in s.procs {
          MoverShows(o, s, p, a);
        }
      } else {
        OtherShows(o, s, p, a, q);
      }
    }
  }

  /** The lock holder between two reads will still see `c` while others move. */
  lemma BystanderStillSees(o: Order, s: State, p: Pid, a: Action, h: Pid, q: Pid)
    requires Inv(o, s) && Enabled(s, p, a) && Tolerated(o, s, Event(p, a))
    requires h in s.procs && q in s.procs && (a.Sweep? || (p in s.procs && h != p && q != p))
    ensures Sees(o, Next(o, s, p, a), s.procs[h], s.procs[q])
  {
    assert Sees(o, s, s.procs[h], s.procs[q]);
    assert Unfinished(s.procs[q]) && MidRead(s.procs[h]) ==> h in s.procs && q in s.procs;
  }

  /** And a shell that moves. */
  lemma HolderStillSees(o: Order, s: State, p: Pid, a: Action, h: Pid)
    requires Inv(o, s) && Enabled(s, p, a) && Tolerated(o, s, Event(p, a)) && !a.Sweep?
    requires p in s.procs && h in s.procs && h != p
    ensures Sees(o, Next(o, s, p, a), s.procs[h], Next(o, s, p, a).procs[p])
  {
    assert Sees(o, s, s.procs[h], s.procs[p]);
    if HoldsLock(s.procs[h]) {
      if HoldsLock(s.procs[p]) {
        LockIsExclusive(s, p, h);
      }
      assert s.lock == Some(h);
    }
  }

  /** A first read shows its reader whom the second will see. */
  lemma FirstReadShows(o: Order, s: State, p: Pid, a: Action, q: Pid)
    requires Inv(o, s) && Enabled(s, p, a) && !a.Sweep? && p in s.procs && q in s.procs
    ensures Sees(o, Next(o, s, p, a), Next(o, s, p, a).procs[p], Next(o, s, p, a).procs[q])
  {
    assert Sees(o, s, s.procs[p], s.procs[q]);
    assert Shows(s, s.procs[q]);
    if a == Read {
      assert Next(o, s, p, a).markers == s.markers && Next(o, s, p, a).scopes == s.scopes;
    }
  }

  lemma StepKeepsSees(o: Order, s: State, p: Pid, a: Action)
    requires Inv(o, s) && Enabled(s, p, a) && Tolerated(o, s, Event(p, a))
    ensures var t := Next(o, s, p, a);
      forall h, q :: h in t.procs && q in t.procs ==> Sees(o, t, t.procs[h], t.procs[q])
  {
    var t := Next(o, s, p, a);
    forall h, q | h in t.procs && q in t.procs
      ensures Sees(o, t, t.procs[h], t.procs[q])
    {
      if a.ArriveShell? || a.ArriveDog? {
        if h != p && q != p {
          assert Sees(o, s, s.procs[h], s.procs[q]);
        }
      } else if a.Sweep? {
        BystanderStillSees(o, s, p, a, h, q);
      } else if h == p {
        FirstReadShows(o, s, p, a, q);
      } else if q == p {
        HolderStillSees(o, s, p, a, h);
      } else {
        BystanderStillSees(o, s, p, a, h, q);
      }
    }
  }

  /** Who will see every shell misses none. */
  lemma InvMissesNobody(o: Order, s: State, e: Event)
    requires Inv(o, s)
    ensures !Misses(o, s, e)
  {
    if q :| q in s.procs && Overlooks(o, s, e, q) {
      assert Sees(o, s, s.procs[e.p], s.procs[q]);
      assert Shows(s, s.procs[q]);
    }
  }

  lemma StepKeepsInv(o: Order, s: State, p: Pid, a: Action)
    requires Inv(o, s) && Enabled(s, p, a) && Tolerated(o, s, Event(p, a))
    ensures Inv(o, Next(o, s, p, a))
  {
    InvMissesNobody(o, s, Event(p, a));
    StepKeepsCore(o, s, p, a);
    StepKeepsSees(o, s, p, a);
  }

  lemma {:induction false} RunKeepsInv(o: Order, s: State, es: seq<Event>)
    requires Inv(o, s) && Possible(o, s, es) && (o == MarkersFirst || QuietRun(o, s, es))
    ensures Inv(o, After(o, s, es))
    decreases |es|
  {
    if es != [] {
      StepKeepsInv(o, s, es[0].p, es[0].a);
      RunKeepsInv(o, Next(o, s, es[0].p, es[0].a), es[1..]);
    }
  }

  lemma CoreIsSafe(s: State)
    requires Core(s)
    ensures Safe(s)
  {
    forall d, p | d in s.procs && p in s.procs && TearsDown(s.procs[d])
      ensures !Unfinished(s.procs[p])
    {
      assert Knows(s.procs[d], s.procs[p]);
    }
    assert forall p :: p in s.procs ==> Shows(s, s.procs[p]);
  }

  /** Reading the markers first is safe in every run. */
  lemma MarkersFirstIsSafe(es: seq<Event>)
    requires Possible(MarkersFirst, INIT, es)
    ensures Safe(After(MarkersFirst, INIT, es))
  {
    RunKeepsInv(MarkersFirst, INIT, es);
    CoreIsSafe(After(MarkersFirst, INIT, es));
  }

  /** The code's order is safe as long as no handover falls between two reads, as when both are one observation. */
  lemma QuietScopesFirstIsSafe(es: seq<Event>)
    requires Possible(ScopesFirst, INIT, es) && QuietRun(ScopesFirst, INIT, es)
    ensures Safe(After(ScopesFirst, INIT, es))
  {
    RunKeepsInv(ScopesFirst, INIT, es);
    CoreIsSafe(After(ScopesFirst, INIT, es));
  }

  // ---- Which runs go wrong ----

  /** Safe, and no shell about to mark an index somebody has. */
  predicate Sound(s: State) {
    && Safe(s)
    && forall h, p :: h in s.procs && p in s.procs && s.procs[h].Marking? && Unfinished(s.procs[p]) ==>
         s.procs[p].i != s.procs[h].i
  }

  predicate SoundRun(o: Order, s: State, es: seq<Event>)
    requires Possible(o, s, es)
    decreases |es|
  {
    Sound(s) && (es == [] || SoundRun(o, Next(o, s, es[0].p, es[0].a), es[1..]))
  }

  predicate NoneMissed(o: Order, s: State, es: seq<Event>)
    requires Possible(o, s, es)
    decreases |es|
  {
    es == [] || (!Misses(o, s, es[0]) && NoneMissed(o, Next(o, s, es[0].p, es[0].a), es[1..]))
  }

  lemma CoreIsSound(s: State)
    requires Core(s)
    ensures Sound(s)
  {
    CoreIsSafe(s);
    forall h, p | h in s.procs && p in s.procs && s.procs[h].Marking? && Unfinished(s.procs[p])
      ensures s.procs[p].i != s.procs[h].i
    {
      assert Knows(s.procs[h], s.procs[p]);
    }
  }

  /** A read that misses a shell is at once unsound. */
  lemma MissIsUnsound(o: Order, s: State, e: Event)
    requires Enabled(s, e.p, e.a) && Misses(o, s, e)
    ensures !Sound(Next(o, s, e.p, e.a))
  {
    var q :| q in s.procs && Overlooks(o, s, e, q);
    var t := Next(o, s, e.p, e.a);
    assert t.procs[q] == s.procs[q];
    assert t.procs[e.p].DogDecided? || t.procs[e.p].Marking?;
  }

  lemma {:induction false} SoundRunIff(o: Order, s: State, es: seq<Event>)
    requires Core(s) && Possible(o, s, es)
    ensures SoundRun(o, s, es) <==> NoneMissed(o, s, es)
    decreases |es|
  {
    CoreIsSound(s);
    if es != [] {
      if Misses(o, s, es[0]) {
        MissIsUnsound(o, s, es[0]);
      } else {
        StepKeepsCore(o, s, es[0].p, es[0].a);
        SoundRunIff(o, Next(o, s, es[0].p, es[0].a), es[1..]);
      }
    }
  }

  /** In either order a run stays sound exactly as long as no second read misses a shell. */
  lemma RunIsSoundIffNoneMissed(o: Order, es: seq<Event>)
    requires Possible(o, INIT, es)
    ensures SoundRun(o, INIT, es) <==> NoneMissed(o, INIT, es)
  {
    SoundRunIff(o, INIT, es);
  }

  /** The shell that is missed in the code's order has handed over: it is in its scope and its marker is gone. */
  lemma MissedShellHandedOver(s: State, e: Event, q: Pid)
    requires Core(s) && q in s.procs && Overlooks(ScopesFirst, s, e, q)
    ensures HasScope(s.procs[q]) && s.procs[q].i in s.scopes && s.procs[q].i !in s.markers
  {
    assert Shows(s, s.procs[q]);
  }

  /** While somebody holds the lock between two reads nobody else registers. */
  lemma NobodyRegisters(o: Order, s: State, e: Event, h: Pid, q: Pid)
    requires LockHeld(s) && Enabled(s, e.p, e.a) && h in s.procs && MidRead(s.procs[h])
    requires e.p != h || e.a.Sweep?
    ensures var t := Next(o, s, e.p, e.a);
      && h in t.procs && t.procs[h] == s.procs[h]
      && (q in t.procs && Unfinished(t.procs[q]) ==>
            q in s.procs && Unfinished(s.procs[q]) && s.procs[q].i == t.procs[q].i)
  {
    if e.p in s.procs && HoldsLock(s.procs[e.p]) && e.p != h {
      LockIsExclusive(s, e.p, h);
    }
  }

  lemma {:induction false} UnfinishedAllAlong(o: Order, s: State, es: seq<Event>, h: Pid, q: Pid)
    requires LockHeld(s) && Possible(o, s, es) && h in s.procs && MidRead(s.procs[h])
    requires forall e <- es :: e.p != h || e.a.Sweep?
    ensures var t := After(o, s, es);
      && h in t.procs && t.procs[h] == s.procs[h]
      && (q in t.procs && Unfinished(t.procs[q]) ==>
            q in s.procs && Unfinished(s.procs[q]) && s.procs[q].i == t.procs[q].i)
    decreases |es|
  {
    hide LockHeld, HoldsLock, MidRead, Next;
    if es != [] {
      assert es[0] in es;
      NobodyRegisters(o, s, es[0], h, q);
      StepKeepsLock(o, s, es[0].p, es[0].a);
      UnfinishedAllAlong(o, Next(o, s, es[0].p, es[0].a), es[1..], h, q);
    }
  }

  /** What a first read of the scopes that lets its reader go on has found. */
  predicate FirstReadFree(s: State, h: Proc) {
    match h
    case ScanSecond(i, _, _) => i !in s.scopes
    case DogConfirm => s.scopes == {}
    case _ => false
  }

  /**
    In the code's order the shell a second read misses was setting up, with its marker,
    when the first read was made, and has handed over in between.
  */
  lemma MissedShellHandedOverBetween(s: State, es: seq<Event>, h: Pid, q: Pid)
    requires Core(s) && h in s.procs && FirstReadFree(s, s.procs[h])
    requires Possible(ScopesFirst, s, es) && forall e <- es :: e.p != h || e.a.Sweep?
    requires Overlooks(ScopesFirst, After(ScopesFirst, s, es), Event(h, Read), q)
    ensures q in s.procs && s.procs[q].Setup? && s.procs[q].i in s.markers
    ensures Core(After(ScopesFirst, s, es)) ==>
              var t := After(ScopesFirst, s, es);
              HasScope(t.procs[q]) && t.procs[q].i == s.procs[q].i && t.procs[q].i !in t.markers
  {
    UnfinishedAllAlong(ScopesFirst, s, es, h, q);
    var t := After(ScopesFirst, s, es);
    hide After, Possible;
    assert Shows(s, s.procs[q]);
    if HoldsLock(s.procs[q]) {
      LockIsExclusive(s, q, h);
    }
    if Core(t) {
      MissedShellHandedOver(t, Event(h, Read), q);
    }
  }

  // ---- A shell that arrives around a teardown ----

  /** Some shell took the lock since the last teardown decision. */
  predicate SessionUp(es: seq<Event>) {
    exists k :: 0 <= k < |es| && es[k].a == Look && forall j :: k < j < |es| ==> es[j].a != Decide
  }

  lemma SessionUpAfter(fs: seq<Event>, e: Event)
    ensures SessionUp(fs + [e]) <==> e.a == Look || (e.a != Decide && SessionUp(fs))
  {
    var es := fs + [e];
    if SessionUp(es) && e.a != Look {
      var k :| 0 <= k < |es| && es[k].a == Look && forall j :: k < j < |es| ==> es[j].a != Decide;
      assert k < |fs| && fs[k].a == Look && es[|fs|] == e;
      assert forall j :: k < j < |fs| ==> fs[j] == es[j];
    }
    if e.a == Look {
      assert es[|fs|].a == Look;
    } else if e.a != Decide && SessionUp(fs) {
      var k :| 0 <= k < |fs| && fs[k].a == Look && forall j :: k < j < |fs| ==> fs[j].a != Decide;
      assert es[k].a == Look && forall j :: k < j < |es| ==> es[j] == if j < |fs| then fs[j] else e;
    }
  }

  lemma {:induction false} LiveMeansUp(o: Order, es: seq<Event>)
    requires Possible(o, INIT, es)
    ensures After(o, INIT, es).live <==> SessionUp(es)
    decreases |es|
  {
    hide SessionUp;
    if es == [] {
      assert !SessionUp([]) by { NotUpAtFirst(); }
    } else {
      var fs, e := es[..|es| - 1], es[|es| - 1];
      assert es == fs + [e];
      PrefixPossible(o, INIT, fs, e);
      LiveMeansUp(o, fs);
      Extend(o, INIT, fs, e);
      SessionUpAfter(fs, e);
    }
  }

  lemma NotUpAtFirst()
    ensures !SessionUp([])
  {}

  lemma {:induction false} PrefixPossible(o: Order, s: State, es: seq<Event>, e: Event)
    requires Possible(o, s, es + [e])
    ensures Possible(o, s, es) && Enabled(After(o, s, es), e.p, e.a)
    decreases |es|
  {
    if es == [] {
      assert (es + [e])[0] == e;
    } else {
      assert (es + [e])[0] == es[0] && (es + [e])[1..] == es[1..] + [e];
      PrefixPossible(o, Next(o, s, es[0].p, es[0].a), es[1..], e);
    }
  }

  /**
    Whatever the order of reads: a shell let in gets a fresh session exactly when
    nobody was let in since the last teardown decision, and never while a
    watchdog is deciding or tearing down.
  */
  lemma ArrivalGetsFreshSession(o: Order, es: seq<Event>, p: Pid)
    requires Possible(o, INIT, es) && Enabled(After(o, INIT, es), p, Look)
    ensures var s := After(o, INIT, es);
      && Next(o, s, p, Look).procs[p] == ScanFirst(1, !SessionUp(es), s.gen)
      && forall d :: d in s.procs ==> !TearsDown(s.procs[d])
  {
    LiveMeansUp(o, es);
    RunKeepsLock(o, INIT, es);
  }

  lemma {:induction false} RunKeepsLock(o: Order, s: State, es: seq<Event>)
    requires LockHeld(s) && Possible(o, s, es)
    ensures LockHeld(After(o, s, es))
    decreases |es|
  {
    if es != [] {
      StepKeepsLock(o, s, es[0].p, es[0].a);
      RunKeepsLock(o, Next(o, s, es[0].p, es[0].a), es[1..]);
    }
  }

  // ---- The runs the code's order admits ----

  lemma Reach(o: Order, es: seq<Event>, s: State, p: Pid, a: Action, t: State) returns (fs: seq<Event>)
    requires Possible(o, INIT, es) && After(o, INIT, es) == s && Enabled(s, p, a) && Next(o, s, p, a) == t
    ensures Possible(o, INIT, fs) && After(o, INIT, fs) == t
  {
    Extend(o, INIT, es, Event(p, a));
    fs := es + [Event(p, a)];
  }

  function Two(dog: Proc, shell: Proc, lock: Option<Pid>, markers: set<nat>, scopes: set<nat>): State {
    State(map[1 := dog, 0 := shell], lock, true, markers, scopes, 0, 1)
  }

  function Three(shell: Proc, late: Proc, markers: set<nat>, scopes: set<nat>): State {
    State(map[1 := DogWant, 0 := shell, 2 := late], if late == Arriving then None else Some(2), true, markers, scopes, 0,
          if late.Arriving? || late.Looking? then 1 else 2)
  }

  /** A watchdog found nobody and waits for the lock. */
  lemma WatchdogWaits() returns (fs: seq<Event>)
    ensures Possible(ScopesFirst, INIT, fs)
    ensures After(ScopesFirst, INIT, fs) == State(map[1 := DogWant], None, false, {}, {}, 0, 0)
  {
    fs := [];
    fs := Reach(ScopesFirst, fs, INIT, 1, ArriveDog,
                State(map[1 := DogIdle], None, false, {}, {}, 0, 0));
    fs := Reach(ScopesFirst, fs, State(map[1 := DogIdle], None, false, {}, {}, 0, 0), 1, Read,
                State(map[1 := DogPeek], None, false, {}, {}, 0, 0));
    fs := Reach(ScopesFirst, fs, State(map[1 := DogPeek], None, false, {}, {}, 0, 0), 1, Read,
                State(map[1 := DogWant], None, false, {}, {}, 0, 0));
  }

  /** Shell 0 takes the lock first. */
  lemma ShellIsAhead() returns (fs: seq<Event>)
    ensures Possible(ScopesFirst, INIT, fs)
    ensures After(ScopesFirst, INIT, fs) == Two(DogWant, ScanFirst(1, true, 0), Some(0), {}, {})
  {
    fs := WatchdogWaits();
    fs := Reach(ScopesFirst, fs, State(map[1 := DogWant], None, false, {}, {}, 0, 0), 0, ArriveShell,
                State(map[1 := DogWant, 0 := Arriving], None, false, {}, {}, 0, 0));
    fs := Reach(ScopesFirst, fs, State(map[1 := DogWant, 0 := Arriving], None, false, {}, {}, 0, 0), 0, Lock,
                State(map[1 := DogWant, 0 := Looking], Some(0), false, {}, {}, 0, 0));
    fs := Reach(ScopesFirst, fs, State(map[1 := DogWant, 0 := Looking], Some(0), false, {}, {}, 0, 0), 0, Look,
                Two(DogWant, ScanFirst(1, true, 0), Some(0), {}, {}));
  }

  lemma ShellFindsIndex() returns (fs: seq<Event>)
    ensures Possible(ScopesFirst, INIT, fs)
    ensures After(ScopesFirst, INIT, fs) == Two(DogWant, Marking(1, true, 0), Some(0), {}, {})
  {
    fs := ShellIsAhead();
    fs := Reach(ScopesFirst, fs, Two(DogWant, ScanFirst(1, true, 0), Some(0), {}, {}), 0, Read,
                Two(DogWant, ScanSecond(1, true, 0), Some(0), {}, {}));
    fs := Reach(ScopesFirst, fs, Two(DogWant, ScanSecond(1, true, 0), Some(0), {}, {}), 0, Read,
                Two(DogWant, Marking(1, true, 0), Some(0), {}, {}));
  }

  lemma ShellSettingUp() returns (fs: seq<Event>)
    ensures Possible(ScopesFirst, INIT, fs)
    ensures After(ScopesFirst, INIT, fs) == Two(DogWant, Setup(1, true, 0), None, {1}, {})
  {
    fs := ShellFindsIndex();
    fs := Reach(ScopesFirst, fs, Two(DogWant, Marking(1, true, 0), Some(0), {}, {}), 0, Mark,
                Two(DogWant, Exiting(1, true, 0), Some(0), {1}, {}));
    fs := Reach(ScopesFirst, fs, Two(DogWant, Exiting(1, true, 0), Some(0), {1}, {}), 0, Unlock,
                Two(DogWant, Setup(1, true, 0), None, {1}, {}));
  }

  lemma WatchdogLooks() returns (fs: seq<Event>)
    ensures Possible(ScopesFirst, INIT, fs)
    ensures After(ScopesFirst, INIT, fs) == Two(DogLook, Setup(1, true, 0), Some(1), {1}, {})
  {
    fs := ShellSettingUp();
    fs := Reach(ScopesFirst, fs, Two(DogWant, Setup(1, true, 0), None, {1}, {}), 1, Lock,
                Two(DogLook, Setup(1, true, 0), Some(1), {1}, {}));
  }

  lemma WatchdogMidRead() returns (fs: seq<Event>)
    ensures Possible(ScopesFirst, INIT, fs)
    ensures After(ScopesFirst, INIT, fs) == Two(DogConfirm, Setup(1, true, 0), Some(1), {1}, {})
  {
    fs := WatchdogLooks();
    fs := Reach(ScopesFirst, fs, Two(DogLook, Setup(1, true, 0), Some(1), {1}, {}), 1, Read,
                Two(DogConfirm, Setup(1, true, 0), Some(1), {1}, {}));
  }

  lemma ScopeAppears() returns (fs: seq<Event>)
    ensures Possible(ScopesFirst, INIT, fs)
    ensures After(ScopesFirst, INIT, fs) == Two(DogConfirm, InScope(1, true, 0), Some(1), {1}, {1})
  {
    fs := WatchdogMidRead();
    fs := Reach(ScopesFirst, fs, Two(DogConfirm, Setup(1, true, 0), Some(1), {1}, {}), 0, StartScope,
                Two(DogConfirm, InScope(1, true, 0), Some(1), {1}, {1}));
  }

  lemma MarkerGoes() returns (fs: seq<Event>)
    ensures Possible(ScopesFirst, INIT, fs)
    ensures After(ScopesFirst, INIT, fs) == Two(DogConfirm, Running(1, true, 0), Some(1), {}, {1})
  {
    fs := ScopeAppears();
    fs := Reach(ScopesFirst, fs, Two(DogConfirm, InScope(1, true, 0), Some(1), {1}, {1}), 0, DropMarker(true),
                Two(DogConfirm, Running(1, true, 0), Some(1), {}, {1}));
  }

  /** The handover falls between the watchdog's two reads: it decides to tear down under a running shell. */
  lemma ScopesFirstTearsDownRunningShell() returns (fs: seq<Event>)
    ensures Possible(ScopesFirst, INIT, fs)
    ensures After(ScopesFirst, INIT, fs) == Two(DogDecided, Running(1, true, 0), Some(1), {}, {1})
  {
    fs := MarkerGoes();
    fs := Reach(ScopesFirst, fs, Two(DogConfirm, Running(1, true, 0), Some(1), {}, {1}), 1, Read,
                Two(DogDecided, Running(1, true, 0), Some(1), {}, {1}));
  }

  lemma SecondShellArrives() returns (fs: seq<Event>)
    ensures Possible(ScopesFirst, INIT, fs)
    ensures After(ScopesFirst, INIT, fs) == Three(Setup(1, true, 0), Looking, {1}, {})
  {
    fs := ShellSettingUp();
    fs := Reach(ScopesFirst, fs, Two(DogWant, Setup(1, true, 0), None, {1}, {}), 2, ArriveShell,
                Three(Setup(1, true, 0), Arriving, {1}, {}));
    fs := Reach(ScopesFirst, fs, Three(Setup(1, true, 0), Arriving, {1}, {}), 2, Lock,
                Three(Setup(1, true, 0), Looking, {1}, {}));
  }

  lemma SecondShellMidRead() returns (fs: seq<Event>)
    ensures Possible(ScopesFirst, INIT, fs)
    ensures After(ScopesFirst, INIT, fs) == Three(Setup(1, true, 0), ScanSecond(1, false, 0), {1}, {})
  {
    fs := SecondShellArrives();
    fs := Reach(ScopesFirst, fs, Three(Setup(1, true, 0), Looking, {1}, {}), 2, Look,
                Three(Setup(1, true, 0), ScanFirst(1, false, 0), {1}, {}));
    fs := Reach(ScopesFirst, fs, Three(Setup(1, true, 0), ScanFirst(1, false, 0), {1}, {}), 2, Read,
                Three(Setup(1, true, 0), ScanSecond(1, false, 0), {1}, {}));
  }

  lemma ScopeAppearsMidRead() returns (fs: seq<Event>)
    ensures Possible(ScopesFirst, INIT, fs)
    ensures After(ScopesFirst, INIT, fs) == Three(InScope(1, true, 0), ScanSecond(1, false, 0), {1}, {1})
  {
    fs := SecondShellMidRead();
    fs := Reach(ScopesFirst, fs, Three(Setup(1, true, 0), ScanSecond(1, false, 0), {1}, {}), 0, StartScope,
                Three(InScope(1, true, 0), ScanSecond(1, false, 0), {1}, {1}));
  }

  lemma HandoverMidRead() returns (fs: seq<Event>)
    ensures Possible(ScopesFirst, INIT, fs)
    ensures After(ScopesFirst, INIT, fs) == Three(Running(1, true, 0), ScanSecond(1, false, 0), {}, {1})
  {
    fs := ScopeAppearsMidRead();
    fs := Reach(ScopesFirst, fs, Three(InScope(1, true, 0), ScanSecond(1, false, 0), {1}, {1}), 0, DropMarker(true),
                Three(Running(1, true, 0), ScanSecond(1, false, 0), {}, {1}));
  }

  /** The handover falls between a joiner's two reads: two shells have index 1. */
  lemma ScopesFirstSharesIndex() returns (fs: seq<Event>)
    ensures Possible(ScopesFirst, INIT, fs)
    ensures After(ScopesFirst, INIT, fs) == Three(Running(1, true, 0), Exiting(1, false, 0), {1}, {1})
  {
    fs := HandoverMidRead();
    fs := Reach(ScopesFirst, fs, Three(Running(1, true, 0), ScanSecond(1, false, 0), {}, {1}), 2, Read,
                Three(Running(1, true, 0), Marking(1, false, 0), {}, {1}));
    fs := Reach(ScopesFirst, fs, Three(Running(1, true, 0), Marking(1, false, 0), {}, {1}), 2, Mark,
                Three(Running(1, true, 0), Exiting(1, false, 0), {1}, {1}));
  }

  /** An order is safe in every run exactly when it reads the markers first. */
  lemma OrderIsSafeIffMarkersFirst(o: Order)
    ensures (forall es: seq<Event> :: Possible(o, INIT, es) ==> Safe(After(o, INIT, es))) <==> o == MarkersFirst
  {
    if o == MarkersFirst {
      forall es: seq<Event> | Possible(o, INIT, es)
        ensures Safe(After(o, INIT, es))
      {
        MarkersFirstIsSafe(es);
      }
    } else {
      var es := ScopesFirstTearsDownRunningShell();
      var s := After(o, INIT, es);
      assert s.procs[1].DogDecided? && Unfinished(s.procs[0]);
      assert Possible(o, INIT, es) && !Safe(s);
    }
  }
}
