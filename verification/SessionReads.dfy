/**
  What a joiner and a watchdog of a develop session have seen when they act, in
  any run of any number of them (nix/scripts/run/dispatch.nix:451-473,
  nix/container-module.nix:274-287), in the order in which the code reads.
*/
module SessionReads {
  import opened Session
  import opened Wrappers

  /** A read, of what, and what it found; or the lock being taken. */
  datatype Note = Saw(reader: Proc, scopes: set<nat>, markers: set<nat>) | Locked

  function NotesIn(h: Pid, s: State, e: Event): seq<Note> {
    if e.p != h || h !in s.procs then []
    else if e.a == Read then [Saw(s.procs[h], s.scopes, s.markers)]
    else if e.a == Lock then [Locked]
    else []
  }

  /** The notes of process `h` in a run. */
  function Log(h: Pid, s: State, es: seq<Event>): seq<Note>
    requires Possible(ScopesFirst, s, es)
    decreases |es|
  {
    if es == [] then []
    else NotesIn(h, s, es[0]) + Log(h, Next(ScopesFirst, s, es[0].p, es[0].a), es[1..])
  }

  /** The state at the end of a run in the code's order. */
  function Then(s: State, es: seq<Event>): State
    requires Possible(ScopesFirst, s, es)
  {
    After(ScopesFirst, s, es)
  }

  // ---- A joiner ----

  /** A read about index `j` found it taken: its scope loaded or, at the second read, its marker there. */
  predicate FoundTaken(n: Note, j: nat) {
    n.Saw? && ((n.reader.ScanFirst? && n.reader.i == j && j in n.scopes) ||
               (n.reader.ScanSecond? && n.reader.i == j && j in n.markers))
  }

  predicate FoundNoScope(n: Note, j: nat) {
    n.Saw? && n.reader.ScanFirst? && n.reader.i == j && j !in n.scopes
  }

  predicate FoundNoMarker(n: Note, j: nat) {
    n.Saw? && n.reader.ScanSecond? && n.reader.i == j && j !in n.markers
  }

  ghost predicate WasTaken(log: seq<Note>, j: nat) {
    exists n :: n in log && FoundTaken(n, j)
  }

  /** Every index from 1 on and below `i` was found taken. */
  ghost predicate TakenBelow(log: seq<Note>, i: nat) {
    forall j :: 1 <= j < i ==> WasTaken(log, j)
  }

  /** An index between 1 and 64 that was found free, scope and marker, and is the first such. */
  ghost predicate FirstFree(log: seq<Note>, i: nat) {
    && 1 <= i <= 64 && TakenBelow(log, i)
    && |log| >= 2 && FoundNoScope(log[|log| - 2], i) && FoundNoMarker(log[|log| - 1], i)
  }

  /** Where a shell let in stands, by what it has seen since; `isNew` and `gen` are what it was told. */
  ghost predicate Stands(c: Proc, isNew: bool, gen: nat, log: seq<Note>) {
    match c
    case ScanFirst(i, f, g) => f == isNew && g == gen && 1 <= i <= 64 && TakenBelow(log, i)
    case ScanSecond(i, f, g) =>
      f == isNew && g == gen && 1 <= i <= 64 && TakenBelow(log, i) && log != [] && FoundNoScope(log[|log| - 1], i)
    case Marking(i, f, g) => f == isNew && g == gen && FirstFree(log, i)
    case Exiting(i, f, g) => f == isNew && g == gen && FirstFree(log, i)
    case Setup(i, f, g) => f == isNew && g == gen && FirstFree(log, i)
    case InScope(i, f, g) => f == isNew && g == gen && FirstFree(log, i)
    case Running(i, f, g) => f == isNew && g == gen && FirstFree(log, i)
    case Full => TakenBelow(log, 65)
    case Ended => true
    case _ => false
  }

  lemma TakenStays(log: seq<Note>, n: Note, i: nat)
    requires TakenBelow(log, i)
    ensures TakenBelow(log + [n], i)
    ensures FoundTaken(n, i) ==> TakenBelow(log + [n], i + 1)
  {
    forall j | 1 <= j < i
      ensures WasTaken(log + [n], j)
    {
      assert WasTaken(log, j);
      var m :| m in log && FoundTaken(m, j);
      assert m in log + [n];
    }
    if FoundTaken(n, i) {
      assert n in log + [n] && WasTaken(log + [n], i);
    }
  }

  lemma ReadStands(s: State, c: Proc, isNew: bool, gen: nat, log: seq<Note>)
    requires Can(s, c, Read) && Stands(c, isNew, gen, log)
    ensures Stands(Moved(ScopesFirst, s, c, Read), isNew, gen, log + [Saw(c, s.scopes, s.markers)])
  {
    var n := Saw(c, s.scopes, s.markers);
    TakenStays(log, n, c.i);
    assert (log + [n])[|log|] == n;
    hide TakenBelow;
  }

  lemma StepStands(s: State, e: Event, h: Pid, isNew: bool, gen: nat, log: seq<Note>)
    requires Enabled(s, e.p, e.a) && h in s.procs && Stands(s.procs[h], isNew, gen, log)
    ensures var t := Next(ScopesFirst, s, e.p, e.a);
      h in t.procs && Stands(t.procs[h], isNew, gen, log + NotesIn(h, s, e))
  {
    assert log + [] == log;
    if e.p == h && e.a == Read {
      ReadStands(s, s.procs[h], isNew, gen, log);
    } else {
      hide TakenBelow, FirstFree;
    }
  }

  // ---- Whole runs ----

  lemma {:induction false} LastEvent(s: State, es: seq<Event>) returns (init: seq<Event>, e: Event)
    requires Possible(ScopesFirst, s, es) && es != []
    ensures es == init + [e] && |init| == |es| - 1
    ensures Possible(ScopesFirst, s, init) && Enabled(Then(s, init), e.p, e.a)
    ensures Then(s, es) == Next(ScopesFirst, Then(s, init), e.p, e.a)
  {
    init, e := es[..|es| - 1], es[|es| - 1];
    assert es == init + [e];
    PrefixPossible(ScopesFirst, s, init, e);
    Extend(ScopesFirst, s, init, e);
  }

  lemma {:induction false} LogExtends(h: Pid, s: State, es: seq<Event>, e: Event)
    requires Possible(ScopesFirst, s, es) && Enabled(Then(s, es), e.p, e.a) && Possible(ScopesFirst, s, es + [e])
    ensures Log(h, s, es + [e]) == Log(h, s, es) + NotesIn(h, Then(s, es), e)
    decreases |es|
  {
    hide Enabled, Next, NotesIn;
    if es == [] {
      assert es + [e] == [e] && [e][1..] == [];
      assert Log(h, s, [e]) == NotesIn(h, s, e) + [];
    } else {
      assert (es + [e])[1..] == es[1..] + [e];
      LogExtends(h, Next(ScopesFirst, s, es[0].p, es[0].a), es[1..], e);
    }
  }

  lemma {:induction false} StandsInRun(s: State, h: Pid, es: seq<Event>)
    requires h in s.procs && s.procs[h].Looking?
    requires es != [] && es[0] == Event(h, Look) && Possible(ScopesFirst, s, es)
    ensures var t := Then(s, es);
      h in t.procs && Stands(t.procs[h], !s.live, s.gen, Log(h, s, es))
    decreases |es|
  {
    hide Stands, Next, NotesIn, Enabled;
    var init, e := LastEvent(s, es);
    LogExtends(h, s, init, e);
    if init == [] {
      assert es == [Event(h, Look)];
      LookStands(s, h);
      assert Then(s, []) == s;
    } else {
      StandsInRun(s, h, init);
      StepStands(Then(s, init), e, h, !s.live, s.gen, Log(h, s, init));
    }
  }

  lemma LookStands(s: State, h: Pid)
    requires h in s.procs && s.procs[h].Looking? && Enabled(s, h, Look)
    ensures var t := Next(ScopesFirst, s, h, Look);
      h in t.procs && Stands(t.procs[h], !s.live, s.gen, [] + NotesIn(h, s, Event(h, Look)))
  {}

  /**
    In every run, from the moment a shell is let in: the index it goes on with is
    between 1 and 64, was found free, scope and marker, in its last two reads, and
    each one below was found taken at one of its reads; it finds no index only if
    all of the 64 were found taken. Whether it is to build the session is what it
    was told when it was let in.
  */
  lemma SearchFindsFirstFree(s: State, h: Pid, es: seq<Event>)
    requires h in s.procs && s.procs[h].Looking?
    requires es != [] && es[0] == Event(h, Look) && Possible(ScopesFirst, s, es)
    ensures h in Then(s, es).procs
    ensures var c, log := Then(s, es).procs[h], Log(h, s, es);
      && (c.Marking? || Unfinished(c) ==> c.isNew == !s.live && c.gen == s.gen && FirstFree(log, c.i))
      && (c.Full? ==> forall j :: 1 <= j <= 64 ==> WasTaken(log, j))
  {
    StandsInRun(s, h, es);
    hide FirstFree, WasTaken;
  }

  // ---- A joiner on its own ----

  predicate Free(scopes: set<nat>, markers: set<nat>, j: nat) {
    j !in scopes && j !in markers
  }

  /** The first free index from `i` to 64, and 65 if there is none. */
  function LeastFree(scopes: set<nat>, markers: set<nat>, i: nat): (r: nat)
    requires 1 <= i <= 65
    ensures i <= r <= 65 && (r <= 64 ==> Free(scopes, markers, r))
    ensures forall j | i <= j < r :: !Free(scopes, markers, j)
    decreases 65 - i
  {
    if i == 65 || Free(scopes, markers, i) then i else LeastFree(scopes, markers, i + 1)
  }

  predicate OnlyReads(h: Pid, es: seq<Event>) {
    forall e | e in es :: e == Event(h, Read)
  }

  function At(s: State, h: Pid, c: Proc): State {
    s.(procs := s.procs[h := c])
  }

  /** A search from index `i` on, when nobody else moves. */
  function Outcome(s: State, i: nat, isNew: bool, gen: nat): Proc
    requires 1 <= i <= 65
  {
    var r := LeastFree(s.scopes, s.markers, i);
    if r == 65 then Full else Marking(r, isNew, gen)
  }

  /** One read by the lock holder, before others. */
  lemma OneRead(s: State, h: Pid, c: Proc, es: seq<Event>)
    requires h in s.procs && Can(s, s.procs[h], Read) && HoldsLock(s.procs[h]) && s.lock == Some(h)
    requires c == Moved(ScopesFirst, s, s.procs[h], Read) && HoldsLock(c)
    requires OnlyReads(h, es) && Possible(ScopesFirst, At(s, h, c), es)
    ensures var all := [Event(h, Read)] + es;
      OnlyReads(h, all) && Possible(ScopesFirst, s, all) && Then(s, all) == Then(At(s, h, c), es)
  {
    assert Next(ScopesFirst, s, h, Read) == At(s, h, c);
    assert ([Event(h, Read)] + es)[1..] == es;
  }

  lemma NoReads(s: State, h: Pid)
    ensures OnlyReads(h, []) && Possible(ScopesFirst, s, []) && Then(s, []) == s
  {}

  lemma {:induction false} SearchFrom(s: State, h: Pid, i: nat, isNew: bool, gen: nat) returns (es: seq<Event>)
    requires h in s.procs && s.procs[h] == ScanFirst(i, isNew, gen) && 1 <= i <= 64 && s.lock == Some(h)
    ensures OnlyReads(h, es) && Possible(ScopesFirst, s, es)
    ensures Then(s, es) == At(s, h, Outcome(s, i, isNew, gen))
    decreases 65 - i
  {
    hide Possible, OnlyReads, Then;
    var second := ScanSecond(i, isNew, gen);
    var next := if i == 64 then Full else ScanFirst(i + 1, isNew, gen);
    es := [];
    if Free(s.scopes, s.markers, i) {
      NoReads(At(s, h, Marking(i, isNew, gen)), h);
    } else if i == 64 {
      NoReads(At(s, h, Full), h);
    } else {
      es := SearchFrom(At(s, h, next), h, i + 1, isNew, gen);
      assert At(At(s, h, next), h, Outcome(s, i + 1, isNew, gen)) == At(s, h, Outcome(s, i, isNew, gen));
    }
    if i !in s.scopes {
      var last := if i in s.markers then next else Marking(i, isNew, gen);
      assert At(At(s, h, second), h, last) == At(s, h, last);
      OneRead(At(s, h, second), h, last, es);
      es := [Event(h, Read)] + es;
      OneRead(s, h, second, es);
    } else {
      OneRead(s, h, next, es);
    }
    es := [Event(h, Read)] + es;
  }

  /**
    A shell that is let in and left alone gets the least of the indices 1 to 64 that
    has neither a scope nor a marker, and finds the session full exactly if there is
    none.
  */
  lemma SearchAlone(s: State, h: Pid) returns (es: seq<Event>)
    requires h in s.procs && s.procs[h].Looking? && s.lock == Some(h)
    ensures es != [] && es[0] == Event(h, Look) && OnlyReads(h, es[1..]) && Possible(ScopesFirst, s, es)
    ensures h in Then(s, es).procs
    ensures var c := Then(s, es).procs[h];
      && (c == Full <==> forall j :: 1 <= j <= 64 ==> !Free(s.scopes, s.markers, j))
      && (c != Full ==> c.Marking? && 1 <= c.i <= 64 && Free(s.scopes, s.markers, c.i) && c.isNew == !s.live
                        && forall j :: 1 <= j < c.i ==> !Free(s.scopes, s.markers, j))
  {
    var told := Next(ScopesFirst, s, h, Look);
    es := SearchFrom(told, h, 1, !s.live, s.gen);
    assert ([Event(h, Look)] + es)[1..] == es;
    es := [Event(h, Look)] + es;
    hide Next, Moved, OnlyReads;
  }

  // ---- A watchdog ----

  predicate NoScopes(n: Note) {
    n.Saw? && n.scopes == {}
  }

  predicate NoMarkers(n: Note) {
    n.Saw? && n.markers == {}
  }

  /** Two reads in a row found no scope and then no marker. */
  predicate FoundNobody(log: seq<Note>) {
    |log| >= 2 && NoScopes(log[|log| - 2]) && NoMarkers(log[|log| - 1])
  }

  /** The last read found a scope, or a marker. */
  predicate FoundSomebody(log: seq<Note>) {
    log != [] && log[|log| - 1].Saw? && (log[|log| - 1].scopes != {} || log[|log| - 1].markers != {})
  }

  /** Where a watchdog stands, by what it has seen. */
  predicate Watches(c: Proc, log: seq<Note>) {
    match c
    case DogIdle => true
    case DogPeek => log != [] && NoScopes(log[|log| - 1])
    case DogWant => FoundNobody(log)
    case DogLook => |log| >= 3 && log[|log| - 1] == Locked && FoundNobody(log[..|log| - 1])
    case DogConfirm => |log| >= 2 && log[|log| - 2] == Locked && NoScopes(log[|log| - 1])
    case DogBusy => FoundSomebody(log)
    case DogDecided => |log| >= 3 && log[|log| - 3] == Locked && FoundNobody(log)
    case DogTeardown => |log| >= 3 && log[|log| - 3] == Locked && FoundNobody(log)
    case DogDone => |log| >= 3 && log[|log| - 3] == Locked && FoundNobody(log)
    case Ended => true
    case _ => false
  }

  lemma LastNote(log: seq<Note>, n: Note)
    ensures var all := log + [n]; all[|all| - 1] == n && all[..|all| - 1] == log && n in all
    ensures forall k | 0 <= k < |log| :: (log + [n])[k] == log[k]
  {}

  lemma ReadWatches(s: State, c: Proc, log: seq<Note>)
    requires Can(s, c, Read) && Watches(c, log)
    ensures Watches(Moved(ScopesFirst, s, c, Read), log + [Saw(c, s.scopes, s.markers)])
  {
    LastNote(log, Saw(c, s.scopes, s.markers));
  }

  lemma LockWatches(s: State, c: Proc, log: seq<Note>)
    requires Can(s, c, Lock) && Watches(c, log)
    ensures Watches(Moved(ScopesFirst, s, c, Lock), log + [Locked])
  {
    LastNote(log, Locked);
  }

  lemma StepWatches(s: State, e: Event, h: Pid, log: seq<Note>)
    requires Enabled(s, e.p, e.a) && h in s.procs && Watches(s.procs[h], log)
    ensures var t := Next(ScopesFirst, s, e.p, e.a);
      h in t.procs && Watches(t.procs[h], log + NotesIn(h, s, e))
  {
    assert log + [] == log;
    if e.p == h && e.a == Read {
      ReadWatches(s, s.procs[h], log);
      hide Watches;
    } else if e.p == h && e.a == Lock {
      LockWatches(s, s.procs[h], log);
      hide Watches;
    } else {
      hide FoundNobody, FoundSomebody, NoScopes;
    }
  }

  lemma {:induction false} WatchesInRun(s: State, h: Pid, es: seq<Event>)
    requires h in s.procs && s.procs[h] == DogIdle && Possible(ScopesFirst, s, es)
    ensures var t := Then(s, es);
      h in t.procs && Watches(t.procs[h], Log(h, s, es))
    decreases |es|
  {
    hide Next, NotesIn, Enabled;
    if es == [] {
      assert Then(s, es) == s;
    } else {
      hide Watches;
      var init, e := LastEvent(s, es);
      LogExtends(h, s, init, e);
      WatchesInRun(s, h, init);
      StepWatches(Then(s, init), e, h, Log(h, s, init));
    }
  }

  /**
    In every run a watchdog that has decided to tear down has seen no scope and then
    no marker in two reads in a row right after it took the lock, and one that gives
    the lock back has seen a scope or a marker.
  */
  lemma TeardownFoundNobody(s: State, h: Pid, es: seq<Event>)
    requires h in s.procs && s.procs[h] == DogIdle && Possible(ScopesFirst, s, es)
    ensures h in Then(s, es).procs
    ensures var c, log := Then(s, es).procs[h], Log(h, s, es);
      && (TearsDown(c) ==> |log| >= 3 && log[|log| - 3] == Locked && FoundNobody(log))
      && (c == DogBusy ==> FoundSomebody(log))
  {
    WatchesInRun(s, h, es);
    hide FoundNobody, FoundSomebody;
  }

  predicate Alone(h: Pid, es: seq<Event>) {
    forall e | e in es :: e.p == h && !e.a.Sweep? && !e.a.Die?
  }

  /** Left alone with somebody in the session, a watchdog goes on waiting. */
  lemma {:induction false} WaitsAlone(s: State, h: Pid, es: seq<Event>)
    requires h in s.procs && (s.procs[h].DogIdle? || (s.procs[h].DogPeek? && s.scopes == {}))
    requires (s.scopes != {} || s.markers != {}) && Alone(h, es) && Possible(ScopesFirst, s, es)
    ensures h in Then(s, es).procs && (Then(s, es).procs[h].DogIdle? || Then(s, es).procs[h].DogPeek?)
    decreases |es|
  {
    if es != [] {
      assert es[0] in es && forall e <- es[1..] :: e in es;
      assert es[0].a == Read;
      WaitsAlone(Next(ScopesFirst, s, h, Read), h, es[1..]);
    }
  }

  /** One more step in front. */
  lemma Before(s: State, h: Pid, a: Action, t: State, es: seq<Event>) returns (all: seq<Event>)
    requires Enabled(s, h, a) && Next(ScopesFirst, s, h, a) == t && Possible(ScopesFirst, t, es)
    requires Alone(h, es) && !a.Sweep? && !a.Die?
    ensures Alone(h, all) && Possible(ScopesFirst, s, all) && Then(s, all) == Then(t, es)
  {
    hide Enabled, Next;
    all := [Event(h, a)] + es;
    assert all[1..] == es;
  }

  /** A read that finds nobody. */
  lemma ReadsNobody(s: State, h: Pid, c: Proc)
    requires h in s.procs && s.scopes == {} && s.markers == {} && (HoldsLock(s.procs[h]) ==> s.lock == Some(h))
    requires (s.procs[h] == DogIdle && c == DogPeek) || (s.procs[h] == DogPeek && c == DogWant)
             || (s.procs[h] == DogLook && c == DogConfirm) || (s.procs[h] == DogConfirm && c == DogDecided)
    ensures Enabled(s, h, Read) && Next(ScopesFirst, s, h, Read) == At(s, h, c)
  {}

  /** The steps of a watchdog that has the lock and finds nobody. */
  lemma TeardownLocked(s: State, h: Pid) returns (es: seq<Event>)
    requires h in s.procs && s.procs[h].DogLook? && s.lock == Some(h) && s.scopes == {} && s.markers == {}
    ensures Alone(h, es) && Possible(ScopesFirst, s, es)
    ensures h in Then(s, es).procs && Then(s, es).procs[h] == DogTeardown
  {
    var confirming := At(s, h, DogConfirm);
    var decided := At(confirming, h, DogDecided);
    var gone := Next(ScopesFirst, decided, h, Decide);
    assert Alone(h, []) && Possible(ScopesFirst, gone, []) && Then(gone, []) == gone && gone.procs[h] == DogTeardown;
    ReadsNobody(s, h, DogConfirm);
    ReadsNobody(confirming, h, DogDecided);
    hide Alone, Possible, Then, Next;
    es := Before(decided, h, Decide, gone, []);
    es := Before(confirming, h, Read, decided, es);
    es := Before(s, h, Read, confirming, es);
  }

  /** The steps of a watchdog that finds nobody. */
  lemma TeardownAlone(s: State, h: Pid) returns (es: seq<Event>)
    requires h in s.procs && s.procs[h].DogIdle? && s.lock == None && s.scopes == {} && s.markers == {}
    ensures Alone(h, es) && Possible(ScopesFirst, s, es)
    ensures h in Then(s, es).procs && Then(s, es).procs[h] == DogTeardown
  {
    var peeked := At(s, h, DogPeek);
    var waiting := At(peeked, h, DogWant);
    var locked := At(waiting, h, DogLook).(lock := Some(h));
    assert Enabled(waiting, h, Lock) && Next(ScopesFirst, waiting, h, Lock) == locked;
    ReadsNobody(s, h, DogPeek);
    ReadsNobody(peeked, h, DogWant);
    hide Alone, Possible, Then, Next, Enabled;
    es := TeardownLocked(locked, h);
    es := Before(waiting, h, Lock, locked, es);
    es := Before(peeked, h, Read, waiting, es);
    es := Before(s, h, Read, peeked, es);
  }

  ghost predicate TearsDownAlone(s: State, h: Pid, es: seq<Event>) {
    && Alone(h, es) && Possible(ScopesFirst, s, es)
    && h in Then(s, es).procs && TearsDown(Then(s, es).procs[h])
  }

  /** A waiting watchdog, left alone, can come to tear down exactly if there is neither a scope nor a marker. */
  lemma TeardownAloneIff(s: State, h: Pid)
    requires h in s.procs && s.procs[h].DogIdle? && s.lock == None
    ensures (exists es :: TearsDownAlone(s, h, es)) <==> s.scopes == {} && s.markers == {}
  {
    if s.scopes == {} && s.markers == {} {
      var es := TeardownAlone(s, h);
      assert TearsDownAlone(s, h, es);
    } else {
      forall es | Alone(h, es) && Possible(ScopesFirst, s, es)
        ensures !TearsDownAlone(s, h, es)
      {
        WaitsAlone(s, h, es);
      }
    }
  }

  // ---- What may happen ----

  /**
    A shell may end once it is in its scope, its marker gone or not, and anybody else
    may die at any point. The sweep takes any marker but that of a shell setting up.
  */
  lemma AnyoneMayDie(s: State, p: Pid)
    requires p in s.procs
    ensures s.procs[p].InScope? || s.procs[p].Running? <==> Enabled(s, p, End)
    ensures s.procs[p].InScope? ==> Enabled(s, p, DropMarker(true)) && Enabled(s, p, DropMarker(false))
    ensures s.procs[p].InScope? || s.procs[p].Running? || s.procs[p].Ended? || Enabled(s, p, Die)
  {}

  lemma SweepTakesTheRest(s: State, p: Pid, i: nat)
    ensures Enabled(s, p, Sweep(i)) ||
            exists q :: q in s.procs && (s.procs[q].Exiting? || s.procs[q].Setup?) && s.procs[q].i == i
    ensures Enabled(s, p, Sweep(i)) ==> Next(ScopesFirst, s, p, Sweep(i)) == s.(markers := s.markers - {i})
  {}

  /** Waits for the lock, or for its scope to be free. */
  predicate Waits(s: State, c: Proc) {
    || ((c.Arriving? || c.DogWant?) && s.lock.Some?)
    || (c.Setup? && c.i in s.scopes)
  }

  /** The step that a process is at. */
  function Onward(c: Proc): Action {
    match c
    case Arriving => Lock
    case DogWant => Lock
    case Looking => Look
    case Marking(_, _, _) => Mark
    case Exiting(_, _, _) => Unlock
    case Full => Unlock
    case DogBusy => Unlock
    case DogTeardown => Unlock
    case Setup(_, _, _) => StartScope
    case InScope(_, _, _) => DropMarker(true)
    case Running(_, _, _) => End
    case DogDecided => Decide
    case _ => Read
  }

  /** Whoever does not wait for another can go on: to the end, or to the watchdog's next look. */
  lemma NobodyIsStuck(s: State, p: Pid)
    requires p in s.procs && !s.procs[p].Ended? && !s.procs[p].DogDone? && !Waits(s, s.procs[p])
    ensures Enabled(s, p, Onward(s.procs[p]))
  {}
}
