/**
  Which podman commands one launcher makes, in any run of any number of them
  (nix/app/runner.rs:624-716): from the moment it asks for the exclusive lock to
  the moment its entry starts or is refused, and again when the entry ends.
*/
module LeaseCommands {
  import opened Wrappers
  import opened Lease

  datatype Kind = Removes | Creates | Starts

  /** A command with the holder before and after it. */
  datatype Command = Command(kind: Kind, before: Holder, ok: bool, after: Holder)

  /** What a launcher gets to know and does, in order. */
  datatype Note = Did(command: Command) | Saw(holder: Holder) | Failed | Ended

  function KindOf(c: Pc): Kind {
    if Removing(c) then Removes else if c == Create then Creates else Starts
  }

  function NoteOf(v: View, a: Action): seq<Note> {
    match a
    case Run(ok, after) => [Did(Command(KindOf(v.c), v.holder, ok, after))]
    case Ask => [Saw(v.holder)]
    case Fail => [Failed]
    case EndEntry => [Ended]
    case _ => []
  }

  /** The notes of launcher `p` in a run. */
  function Log(p: Pid, s: State, es: seq<Event>): seq<Note>
    requires Possible(s, es)
    decreases |es|
  {
    if es == [] then []
    else NotesIn(p, s, es[0]) + Log(p, Next(s, es[0].p, es[0].a), es[1..])
  }

  function NotesIn(p: Pid, s: State, e: Event): seq<Note> {
    if e.p == p && p in s.pc then NoteOf(ViewOf(s, p), e.a) else []
  }

  function Commands(log: seq<Note>): seq<Command> {
    if log == [] then [] else (if log[0].Did? then [log[0].command] else []) + Commands(log[1..])
  }

  predicate Died(es: seq<Event>) {
    exists e | e in es :: e.a.HolderDies?
  }

  // ---- What an acquisition does ----

  /** What was the case when the launcher asked for the exclusive lock, and whether the holder died since. */
  datatype Found = Found(free: bool, holder: Holder, died: bool)

  /**
    A leftover is removed when nobody has a claim and it is dead; one that was dead
    from the start always is, one that lives and stays alive never.
  */
  predicate Cleared(f: Found, cs: seq<Command>) {
    if cs == [] then !(f.free && f.holder == Dead)
    else
      && |cs| == 1 && f.free && cs[0].kind == Removes && cs[0].before == Dead
      && (f.holder == Dead || (f.holder == Alive && f.died))
  }

  /** A container is created only when there is none. */
  predicate Made(f: Found, cs: seq<Command>) {
    || Cleared(f, cs)
    || (cs != [] && cs[|cs| - 1].kind == Creates && cs[|cs| - 1].before == Absent && Cleared(f, cs[..|cs| - 1]))
  }

  /** One that exists is started; the command before that says what came of it. */
  predicate Started(f: Found, cs: seq<Command>, ok: bool) {
    && cs != []
    && (var last := cs[|cs| - 1];
        last.kind == Starts && last.before != Absent && last.ok == ok && (ok ==> last.after == Alive))
    && Made(f, cs[..|cs| - 1])
  }

  predicate Underway(f: Found, cs: seq<Command>) {
    cs == [] || Made(f, cs) || Started(f, cs, true)
  }

  predicate EndsWith(log: seq<Note>, notes: seq<Note>) {
    |notes| <= |log| && log[|log| - |notes|..] == notes
  }

  /** The entry starts: the last command started the holder, and after it the launcher saw it alive. */
  predicate Acquired(f: Found, log: seq<Note>) {
    var cs := Commands(log);
    Started(f, cs, true) && EndsWith(log, [Did(cs[|cs| - 1]), Saw(Alive)])
  }

  /**
    The entry is refused for one of these reasons: a lock or a podman call that gave
    no answer, a start that failed, a creation that failed and left nothing, or a
    holder that was started and is not alive.
  */
  predicate Refused(f: Found, log: seq<Note>) {
    var cs := Commands(log);
    || (EndsWith(log, [Failed]) && Underway(f, cs))
    || (Started(f, cs, false) && EndsWith(log, [Did(cs[|cs| - 1])]))
    || (cs != [] && Made(f, cs) && cs[|cs| - 1].kind == Creates && !cs[|cs| - 1].ok
        && EndsWith(log, [Did(cs[|cs| - 1]), Saw(Absent)]))
    || (Started(f, cs, true) && EndsWith(log, [Did(cs[|cs| - 1]), Saw(Dead)]))
  }

  // ---- Where the launcher stands, by what it has done ----

  /** The holder is as it was found, but that it may have died. */
  predicate AsFound(f: Found, h: Holder) {
    h == f.holder || (f.holder == Alive && h == Dead && f.died)
  }

  predicate Stands(f: Found, c: Pc, h: Holder, log: seq<Note>) {
    var cs := Commands(log);
    match c
    case AskLeftover => f.free && AsFound(f, h) && cs == []
    case AskLeftoverAlive => f.free && AsFound(f, h) && h != Absent && cs == []
    case RemoveLeftover => f.free && AsFound(f, h) && h == Dead && cs == []
    case AskExists => Cleared(f, cs)
    case Create => Cleared(f, cs) && h == Absent
    case AskCreated =>
      Made(f, cs) && cs != [] && cs[|cs| - 1].kind == Creates && !cs[|cs| - 1].ok && EndsWith(log, [Did(cs[|cs| - 1])])
    case Start => Made(f, cs) && h != Absent
    case Verify => Started(f, cs, true) && EndsWith(log, [Did(cs[|cs| - 1])])
    case ConvertUnlock => Acquired(f, log)
    case ConvertLock => Acquired(f, log)
    case DropGuard => Acquired(f, log)
    case Entry => Acquired(f, log)
    case CloseLease => Ended in log || Refused(f, log)
    case CloseGuard => Ended in log || Refused(f, log)
    case Done => Ended in log || Refused(f, log)
    case WantGuardToRelease => Ended in log
    case Probe => Ended in log
    case Remove => Ended in log
    case Dying => true
    case _ => false
  }

  // ---- Logs of longer runs ----

  lemma {:induction false} CommandsAppend(a: seq<Note>, b: seq<Note>)
    ensures Commands(a + b) == Commands(a) + Commands(b)
    decreases |a|
  {
    if a == [] {
      assert a + b == b;
    } else {
      assert (a + b)[0] == a[0] && (a + b)[1..] == a[1..] + b;
      CommandsAppend(a[1..], b);
      var first := if a[0].Did? then [a[0].command] else [];
      assert Commands(a + b) == first + Commands(a[1..] + b);
      assert first + (Commands(a[1..]) + Commands(b)) == first + Commands(a[1..]) + Commands(b);
    }
  }

  lemma CommandsOne(note: Note)
    ensures Commands([note]) == if note.Did? then [note.command] else []
  {
    assert [note][1..] == [];
  }

  lemma {:induction false} LogExtends(p: Pid, s: State, es: seq<Event>, e: Event)
    requires Possible(s, es) && Enabled(After(s, es), e.p, e.a) && Possible(s, es + [e])
    ensures Log(p, s, es + [e]) == Log(p, s, es) + NotesIn(p, After(s, es), e)
    decreases |es|
  {
    hide Enabled, Next, NotesIn;
    if es == [] {
      assert es + [e] == [e] && [e][1..] == [];
      LogOfOne(p, s, e);
      assert [] + Log(p, s, [e]) == Log(p, s, [e]);
    } else {
      assert (es + [e])[1..] == es[1..] + [e];
      LogExtends(p, Next(s, es[0].p, es[0].a), es[1..], e);
    }
  }

  lemma LogOfOne(p: Pid, s: State, e: Event)
    requires Possible(s, [e])
    ensures Log(p, s, [e]) == NotesIn(p, s, e)
  {
    hide Next, NotesIn;
    assert [e][1..] == [];
    assert Log(p, Next(s, e.p, e.a), []) == [];
  }

  // ---- One step ----

  /** Notes that are no commands keep what is said of the commands. */
  lemma Noted(log: seq<Note>, note: Note)
    ensures Commands(log + [note]) == Commands(log) + if note.Did? then [note.command] else []
    ensures EndsWith(log + [note], [note])
    ensures forall n :: EndsWith(log, [n]) ==> EndsWith(log + [note], [n, note])
  {
    CommandsAppend(log, [note]);
    CommandsOne(note);
    forall n | EndsWith(log, [n])
      ensures EndsWith(log + [note], [n, note])
    {
      assert log[|log| - 1..] == [n] && log[|log| - 1] == n;
    }
  }

  lemma AskStands(f: Found, v: View, o: Others, log: seq<Note>)
    requires Consistent(v) && Can(v, o, Ask) && Stands(f, v.c, v.holder, log)
    ensures var w := Act(v, o, Ask); Stands(f, w.c, w.holder, log + [Saw(v.holder)])
  {
    Noted(log, Saw(v.holder));
    if v.c == AskLeftover || v.c == AskLeftoverAlive {
      hide EndsWith, Made, Started, Acquired, Refused;
    } else if v.c == AskExists {
      hide Cleared, EndsWith, Started, Acquired, Refused;
    } else {
      hide Cleared, Made;
    }
    hide Commands;
  }

  /** The commands after one more. */
  lemma OneMoreCommand(log: seq<Note>, command: Command)
    ensures var after := log + [Did(command)];
      && Commands(after) == Commands(log) + [command] && Commands(after)[..|Commands(log)|] == Commands(log)
      && EndsWith(after, [Did(command)])
  {
    Noted(log, Did(command));
  }

  lemma RunStands(f: Found, v: View, o: Others, ok: bool, after: Holder, log: seq<Note>)
    requires Consistent(v) && Can(v, o, Run(ok, after)) && Stands(f, v.c, v.holder, log)
    ensures var w := Act(v, o, Run(ok, after));
      Stands(f, w.c, w.holder, log + [Did(Command(KindOf(v.c), v.holder, ok, after))])
  {
    OneMoreCommand(log, Command(KindOf(v.c), v.holder, ok, after));
    hide Commands, EndsWith;
    if v.c == RemoveLeftover {
      hide Made, Started, Acquired, Refused;
    } else if v.c == Remove {
      hide Cleared, Made, Started, Acquired, Refused;
    } else if v.c == Create {
      hide Cleared, Started, Acquired, Refused;
    } else {
      hide Cleared, Made, Acquired;
    }
  }

  lemma StandsUnderway(f: Found, c: Pc, h: Holder, log: seq<Note>)
    requires Stands(f, c, h, log) && HoldsGuard(c)
    requires c != Probe && c != Remove && c != CloseLease && c != CloseGuard
    ensures Underway(f, Commands(log))
  {
    hide Commands, EndsWith, Cleared;
  }

  lemma FailedIsRefused(f: Found, log: seq<Note>)
    requires Underway(f, Commands(log))
    ensures Refused(f, log + [Failed])
  {
    hide Underway, Commands, EndsWith;
    Noted(log, Failed);
    assert Commands(log) + [] == Commands(log);
  }

  lemma FailCloses(v: View, o: Others)
    requires Can(v, o, Fail)
    ensures Act(v, o, Fail) == v.(c := CloseLease) && HoldsGuard(v.c)
    ensures v.c != Remove && v.c != CloseLease && v.c != CloseGuard
  {}

  lemma FailStands(f: Found, v: View, o: Others, log: seq<Note>)
    requires Can(v, o, Fail) && Stands(f, v.c, v.holder, log)
    ensures var w := Act(v, o, Fail); Stands(f, w.c, w.holder, log + [Failed])
  {
    hide *;
    FailCloses(v, o);
    if v.c == Probe {
      ProbeStands(f, v.holder, log);
    } else {
      StandsUnderway(f, v.c, v.holder, log);
      FailedIsRefused(f, log);
      ClosesRefused(f, v.holder, log + [Failed]);
    }
  }

  lemma ProbeStands(f: Found, h: Holder, log: seq<Note>)
    requires Stands(f, Probe, h, log)
    ensures Stands(f, CloseLease, h, log + [Failed])
  {
    hide Refused;
  }

  lemma ClosesRefused(f: Found, h: Holder, log: seq<Note>)
    requires Refused(f, log)
    ensures Stands(f, CloseLease, h, log)
  {
    hide Refused;
  }

  lemma LockStands(f: Found, v: View, o: Others, a: Action, log: seq<Note>)
    requires Can(v, o, a) && !a.Ask? && !a.Run? && !a.Fail? && Stands(f, v.c, v.holder, log)
    ensures var w := Act(v, o, a); Stands(f, w.c, w.holder, log + NoteOf(v, a))
  {
    hide Commands, EndsWith, Made, Started, Acquired, Refused, Cleared;
    if a.EndEntry? {
      assert Ended in log + [Ended];
    } else {
      assert NoteOf(v, a) == [] && log + [] == log;
      hide NoteOf;
    }
  }

  lemma OwnStands(f: Found, v: View, o: Others, a: Action, log: seq<Note>)
    requires Consistent(v) && Can(v, o, a) && Stands(f, v.c, v.holder, log)
    ensures var w := Act(v, o, a); Stands(f, w.c, w.holder, log + NoteOf(v, a))
  {
    match a
    case Ask => AskStands(f, v, o, log);
    case Run(ok, after) => RunStands(f, v, o, ok, after, log);
    case Fail => FailStands(f, v, o, log);
    case _ => LockStands(f, v, o, a, log);
  }

  /** When the holder dies, or another launcher moves, this one stands as before. */
  lemma DeathStands(f: Found, c: Pc, h: Holder, log: seq<Note>, died: bool)
    requires Stands(f, c, h, log) && (f.died ==> died)
    ensures Stands(f.(died := died), c, h, log)
    ensures died && h == Alive ==> Stands(f.(died := died), c, Dead, log)
  {
    hide Commands, EndsWith;
  }

  /** Only the owner of the guard makes podman change anything. */
  lemma OtherKeepsHolder(s: State, p: Pid, a: Action, q: Pid)
    requires Inv(s) && Enabled(s, p, a) && !a.Launch? && !a.HolderDies? && q in s.pc && q != p
    ensures Next(s, p, a).pc[q] == s.pc[q]
    ensures HoldsGuard(s.pc[q]) ==> Next(s, p, a).holder == s.holder
  {
    assert Consistent(ViewOf(s, p)) && Consistent(ViewOf(s, q));
    hide Answer, Ran;
  }

  // ---- Whole runs ----

  lemma {:induction false} LastEvent(s: State, es: seq<Event>) returns (init: seq<Event>, e: Event)
    requires Possible(s, es) && es != []
    ensures es == init + [e] && Possible(s, init) && Enabled(After(s, init), e.p, e.a)
    ensures After(s, es) == Next(After(s, init), e.p, e.a)
    decreases |es|
  {
    hide Enabled, Next;
    if |es| == 1 {
      init, e := [], es[0];
      assert es[1..] == [] && es == [] + [e];
    } else {
      var next := Next(s, es[0].p, es[0].a);
      init, e := LastEvent(next, es[1..]);
      assert es == [es[0]] + init + [e];
      init := [es[0]] + init;
      assert init[1..] == es[1..|es| - 1];
    }
  }

  /** What launcher `p` finds in `s`, when `es` happens from there. */
  function FoundIn(s: State, es: seq<Event>): Found {
    Found(s.claims == {} && s.exclusive == None, s.holder, Died(es))
  }

  lemma StandsAfter(f: Found, s: State, e: Event, p: Pid, log: seq<Note>)
    requires Inv(s) && Enabled(s, e.p, e.a) && p in s.pc && Stands(f, s.pc[p], s.holder, log)
    requires e.a.HolderDies? ==> f.died
    ensures var t := Next(s, e.p, e.a);
      p in t.pc && Stands(f, t.pc[p], t.holder, log + NotesIn(p, s, e))
  {
    assert log + [] == log;
    if e.a.HolderDies? {
      hide Stands;
      DeathStands(f, s.pc[p], s.holder, log, true);
    } else if e.a.Launch? {
      hide Stands;
    } else if e.p == p {
      hide Stands, NoteOf, Act, Can;
      OwnStands(f, ViewOf(s, p), OthersOf(s, p), e.a, log);
    } else {
      OtherKeepsHolder(s, e.p, e.a, p);
      IdleStands(f, s.pc[p], s.holder, Next(s, e.p, e.a).holder, log);
    }
  }

  /** Without the guard it does not matter what becomes of the holder. */
  lemma IdleStands(f: Found, c: Pc, h: Holder, after: Holder, log: seq<Note>)
    requires Stands(f, c, h, log) && (HoldsGuard(c) ==> after == h)
    ensures Stands(f, c, after, log)
  {
    hide Commands, EndsWith, Made, Started, Acquired, Refused, Cleared;
  }

  lemma AsksForLock(s: State, p: Pid)
    requires Inv(s) && Enabled(s, p, TryLock) && s.pc[p] == TryClaim
    ensures var t := Next(s, p, TryLock);
      p in t.pc && Stands(FoundIn(s, [Event(p, TryLock)]), t.pc[p], t.holder, [])
  {
    assert Consistent(ViewOf(s, p));
    assert s.claims - {p} == s.claims;
  }

  lemma {:induction false} StandsInRun(s: State, p: Pid, es: seq<Event>)
    requires Inv(s) && p in s.pc && s.pc[p] == TryClaim
    requires es != [] && es[0] == Event(p, TryLock) && Possible(s, es)
    ensures var t := After(s, es);
      Inv(t) && p in t.pc && Stands(FoundIn(s, es), t.pc[p], t.holder, Log(p, s, es))
    decreases |es|
  {
    hide Stands, Inv, Next, Enabled, NotesIn, Died;
    RunKeepsInv(s, es);
    var init, e := LastEvent(s, es);
    LogExtends(p, s, init, e);
    if init == [] {
      assert es == [Event(p, TryLock)];
      FirstLog(s, p);
      AsksForLock(s, p);
    } else {
      StandsInRun(s, p, init);
      var t := After(s, init);
      DiedLater(init, e);
      DeathStands(FoundIn(s, init), t.pc[p], t.holder, Log(p, s, init), Died(es));
      StandsAfter(FoundIn(s, es), t, e, p, Log(p, s, init));
    }
  }

  lemma FirstLog(s: State, p: Pid)
    requires Possible(s, [Event(p, TryLock)])
    ensures Log(p, s, [Event(p, TryLock)]) == []
    ensures After(s, [Event(p, TryLock)]) == Next(s, p, TryLock)
  {
    LogOfOne(p, s, Event(p, TryLock));
    hide Next, Log;
    var es := [Event(p, TryLock)];
    assert es[1..] == [] && After(Next(s, p, TryLock), []) == Next(s, p, TryLock);
  }

  lemma DiedLater(init: seq<Event>, e: Event)
    ensures Died(init + [e]) <==> Died(init) || e.a.HolderDies?
  {
    if e.a.HolderDies? {
      assert e in init + [e];
    }
  }

  /**
    In every run, from the moment a launcher asks for the exclusive lock: once its
    entry starts, the commands it has made are those of `Acquired`, and once it is
    refused there is one of the reasons of `Refused`.
  */
  lemma AcquisitionCommands(past: seq<Event>, p: Pid, es: seq<Event>)
    requires Possible(INIT, past) && p in After(INIT, past).pc && After(INIT, past).pc[p] == TryClaim
    requires es != [] && es[0] == Event(p, TryLock) && Possible(After(INIT, past), es)
    ensures p in After(After(INIT, past), es).pc
    ensures var s := After(INIT, past);
      var c, log := After(s, es).pc[p], Log(p, s, es);
      && (Leased(c) ==> Acquired(FoundIn(s, es), log))
      && (c == Done && Ended !in log ==> Refused(FoundIn(s, es), log))
  {
    hide Inv, Acquired, Refused;
    RunKeepsInv(INIT, past);
    StandsInRun(After(INIT, past), p, es);
  }

  /**
    In the same runs: a launcher that got the lock and found a dead holder makes a
    removal its first command; one that did not get it, or found none, or one that
    stayed alive, removes nothing.
  */
  lemma LeftoverIsRemovedFirst(past: seq<Event>, p: Pid, es: seq<Event>)
    requires Possible(INIT, past) && p in After(INIT, past).pc && After(INIT, past).pc[p] == TryClaim
    requires es != [] && es[0] == Event(p, TryLock) && Possible(After(INIT, past), es)
    requires p in After(After(INIT, past), es).pc
    requires After(After(INIT, past), es).pc[p] != Dying && Ended !in Log(p, After(INIT, past), es)
    ensures var s := After(INIT, past);
      var cs, free := Commands(Log(p, s, es)), s.claims == {} && s.exclusive == None;
      && (free && s.holder == Dead && cs != [] ==> cs[0].kind == Removes && cs[0].before == Dead)
      && (!free || s.holder == Absent || (s.holder == Alive && !Died(es)) ==> forall c <- cs :: c.kind != Removes)
  {
    hide Inv;
    RunKeepsInv(INIT, past);
    var s := After(INIT, past);
    StandsInRun(s, p, es);
    var t := After(s, es);
    hide Possible, After, Log, Commands;
    CommandsOfStand(FoundIn(s, es), t.pc[p], t.holder, Log(p, s, es));
  }

  lemma CommandsOfStand(f: Found, c: Pc, h: Holder, log: seq<Note>)
    requires Stands(f, c, h, log) && c != Dying && Ended !in log
    ensures var cs := Commands(log);
      && (f.free && f.holder == Dead && cs != [] ==> cs[0].kind == Removes && cs[0].before == Dead)
      && (!f.free || f.holder == Absent || (f.holder == Alive && !f.died) ==> forall c <- cs :: c.kind != Removes)
  {
    hide Commands, EndsWith;
    var cs := Commands(log);
    assert cs == [] || Made(f, cs) || Started(f, cs, true) || Started(f, cs, false);
  }

  // ---- What a release does ----

  /** One removal if nobody else has a claim, whatever comes of it, and nothing otherwise. */
  predicate Released(free: bool, log: seq<Note>) {
    if free then |log| == 1 && log[0].Did? && log[0].command.kind == Removes else log == []
  }

  predicate Releases(free: bool, c: Pc, log: seq<Note>) {
    match c
    case Remove => free && log == []
    case CloseLease => Released(free, log)
    case CloseGuard => Released(free, log)
    case Done => Released(free, log)
    case Dying => true
    case _ => false
  }

  lemma ActReleases(free: bool, v: View, o: Others, a: Action, log: seq<Note>)
    requires Can(v, o, a) && Releases(free, v.c, log)
    ensures Releases(free, Act(v, o, a).c, log + NoteOf(v, a))
  {
    assert log + [] == log;
    assert [] + NoteOf(v, a) == NoteOf(v, a);
  }

  lemma {:induction false} ReleasesInRun(s: State, p: Pid, es: seq<Event>)
    requires Inv(s) && p in s.pc && s.pc[p] == Probe
    requires es != [] && es[0] == Event(p, TryLock) && Possible(s, es)
    ensures var t := After(s, es);
      p in t.pc && Releases(s.claims == {} && s.exclusive == None, t.pc[p], Log(p, s, es))
    decreases |es|
  {
    hide Releases, Inv, Next, Enabled, NotesIn;
    var free := s.claims == {} && s.exclusive == None;
    var init, e := LastEvent(s, es);
    LogExtends(p, s, init, e);
    if init == [] {
      assert es == [Event(p, TryLock)];
      FirstLog(s, p);
      ProbesLock(s, p);
    } else {
      ReleasesInRun(s, p, init);
      RunKeepsInv(s, init);
      ReleasesAfter(free, After(s, init), e, p, Log(p, s, init));
    }
  }

  lemma ProbesLock(s: State, p: Pid)
    requires Inv(s) && Enabled(s, p, TryLock) && s.pc[p] == Probe
    ensures var t := Next(s, p, TryLock);
      p in t.pc && Releases(s.claims == {} && s.exclusive == None, t.pc[p], [])
  {
    assert Consistent(ViewOf(s, p));
    assert s.claims - {p} == s.claims;
  }

  lemma ReleasesAfter(free: bool, s: State, e: Event, p: Pid, log: seq<Note>)
    requires Inv(s) && Enabled(s, e.p, e.a) && p in s.pc && Releases(free, s.pc[p], log)
    ensures var t := Next(s, e.p, e.a);
      p in t.pc && Releases(free, t.pc[p], log + NotesIn(p, s, e))
  {
    assert log + [] == log;
    hide Releases;
    if e.p == p && !e.a.HolderDies? && !e.a.Launch? {
      hide NoteOf, Act, Can;
      ActReleases(free, ViewOf(s, p), OthersOf(s, p), e.a, log);
    } else if !e.a.HolderDies? && !e.a.Launch? {
      OtherKeepsHolder(s, e.p, e.a, p);
    }
  }

  /** In every run, from the moment a launcher whose entry has ended probes the lock. */
  lemma ReleaseCommands(past: seq<Event>, p: Pid, es: seq<Event>)
    requires Possible(INIT, past) && p in After(INIT, past).pc && After(INIT, past).pc[p] == Probe
    requires es != [] && es[0] == Event(p, TryLock) && Possible(After(INIT, past), es)
    ensures p in After(After(INIT, past), es).pc
    ensures var s := After(INIT, past);
      After(s, es).pc[p] == Done ==> Released(s.claims == {} && s.exclusive == None, Log(p, s, es))
  {
    hide Inv, Released;
    RunKeepsInv(INIT, past);
    ReleasesInRun(After(INIT, past), p, es);
  }

  // ---- A live holder is never removed as a leftover ----

  /**
    In every reachable state a leftover that is about to be removed is dead, and a
    container is created only where there is none and started only where there is one.
  */
  lemma CommandsFitTheHolder(es: seq<Event>, p: Pid)
    requires Possible(INIT, es) && p in After(INIT, es).pc
    ensures var s := After(INIT, es);
      && (s.pc[p] == RemoveLeftover ==> s.holder == Dead)
      && (s.pc[p] == Create ==> s.holder == Absent)
      && (s.pc[p] == Start ==> s.holder != Absent)
  {
    RunKeepsInv(INIT, es);
    assert Consistent(ViewOf(After(INIT, es), p));
  }

  // ---- What may happen ----

  /** In every state any launcher may start, and the holder's process may die. */
  lemma AnyoneMayStart(s: State, p: Pid)
    ensures p !in s.pc ==> Enabled(s, p, Launch)
    ensures s.holder == Alive ==> Enabled(s, p, HolderDies)
  {}

  /** A running launcher may be killed at any point, and then the kernel closes its files in any order. */
  lemma AnyoneMayBeKilled(s: State, p: Pid)
    ensures p in s.pc && s.pc[p] != Done && s.pc[p] != Dying ==> Enabled(s, p, Kill)
    ensures p in s.pc && s.pc[p] == Dying ==> Enabled(s, p, KernelClosesGuard) && Enabled(s, p, KernelClosesLease)
  {}

  /** The kernel closes the files of a killed launcher: its locks are free and nothing else changes. */
  lemma FilesOfTheKilled(s: State, p: Pid)
    requires p in s.pc && s.pc[p] == Dying
    ensures var t := Next(s, p, KernelClosesGuard);
      t == s.(guard := t.guard) && t.guard == if s.guard == Some(p) then None else s.guard
    ensures var t := Next(s, p, KernelClosesLease);
      && t == s.(claims := s.claims - {p}, exclusive := t.exclusive)
      && t.exclusive == if s.exclusive == Some(p) then None else s.exclusive
  {
    assert s.pc[p := s.pc[p]] == s.pc;
    assert p in s.claims ==> s.claims + {p} == s.claims;
    assert p !in s.claims ==> s.claims - {p} == s.claims;
  }

  predicate NeedsNoAnswer(c: Pc) {
    c == ConvertUnlock || c == DropGuard || c == CloseLease || c == CloseGuard
  }

  /** Whoever holds the guard and awaits a lock or an answer may get an error; a wait for the guard may run out. */
  lemma AnyCallMayFail(s: State, p: Pid)
    requires p in s.pc
    ensures s.pc[p] == WantGuard || s.pc[p] == WantGuardToRelease ==> Enabled(s, p, GiveUpGuard)
    ensures HoldsGuard(s.pc[p]) && !Removing(s.pc[p]) && !NeedsNoAnswer(s.pc[p]) ==> Enabled(s, p, Fail)
  {}

  /** A failed removal or creation may leave anything behind, a failed start leaves what was there. */
  lemma AnyCommandMayFail(s: State, p: Pid, h: Holder)
    requires p in s.pc
    ensures Removing(s.pc[p]) ==> Enabled(s, p, Run(false, h)) && Enabled(s, p, Run(true, Absent))
    ensures s.pc[p] == Create && s.holder == Absent ==> Enabled(s, p, Run(false, h)) && Enabled(s, p, Run(true, Alive))
    ensures s.pc[p] == Start && s.holder != Absent ==>
              Enabled(s, p, Run(false, s.holder)) && Enabled(s, p, Run(true, Alive))
  {}

  /** A lock, an answer or a step of its own that goes well. */
  predicate GoesWell(a: Action) {
    a.TakeGuard? || a.TryLock? || a.Ask? || (a.Run? && a.ok) || a.Unlock? || a.LockShared? || a.Drop? || a.EndEntry?
  }

  /** Somebody else has what `p` waits for. */
  predicate Waits(s: State, p: Pid)
    requires p in s.pc
  {
    || ((s.pc[p] == WantGuard || s.pc[p] == WantGuardToRelease) && OthersOf(s, p).guard)
    || (s.pc[p] == ConvertLock && OthersOf(s, p).exclusive)
  }

  function Onward(c: Pc): Action {
    match c
    case WantGuard => TakeGuard
    case WantGuardToRelease => TakeGuard
    case TryClaim => TryLock
    case Probe => TryLock
    case RemoveLeftover => Run(true, Absent)
    case Remove => Run(true, Absent)
    case Create => Run(true, Alive)
    case Start => Run(true, Alive)
    case ConvertUnlock => Unlock
    case ConvertLock => LockShared
    case DropGuard => Drop
    case CloseLease => Drop
    case CloseGuard => Drop
    case Entry => EndEntry
    case _ => Ask
  }

  lemma OnwardCan(v: View, o: Others)
    requires Consistent(v) && v.c != Done && v.c != Dying
    requires (v.c == WantGuard || v.c == WantGuardToRelease) ==> !o.guard
    requires v.c == ConvertLock ==> !o.exclusive
    ensures Can(v, o, Onward(v.c))
  {
    assert v.c == Create ==> v.holder == Absent;
    assert v.c == Start ==> v.holder != Absent;
    hide Consistent;
  }

  /** In every reachable state a launcher that is not waiting for another's lock can go on. */
  lemma NobodyIsStuck(es: seq<Event>, p: Pid) returns (a: Action)
    requires Possible(INIT, es) && p in After(INIT, es).pc
    requires After(INIT, es).pc[p] != Done && After(INIT, es).pc[p] != Dying && !Waits(After(INIT, es), p)
    ensures GoesWell(a) && Enabled(After(INIT, es), p, a)
  {
    hide Can, Possible, After;
    var s := After(INIT, es);
    RunKeepsInv(INIT, es);
    OnwardCan(ViewOf(s, p), OthersOf(s, p));
    a := Onward(s.pc[p]);
  }

  /** How many steps of its own a launcher has left at most. */
  function StepsLeft(c: Pc): nat {
    match c
    case WantGuard => 20
    case TryClaim => 19
    case AskLeftover => 18
    case AskLeftoverAlive => 17
    case RemoveLeftover => 16
    case AskExists => 15
    case Create => 14
    case AskCreated => 13
    case Start => 12
    case Verify => 11
    case ConvertUnlock => 10
    case ConvertLock => 9
    case DropGuard => 8
    case Entry => 7
    case WantGuardToRelease => 6
    case Probe => 5
    case Remove => 4
    case CloseLease => 3
    case CloseGuard => 2
    case Done => 1
    case Dying => 0
  }

  lemma AnswerGoesForward(v: View)
    requires Can(v, Others(false, false, false), Ask)
    ensures StepsLeft(Answer(v)) < StepsLeft(v.c)
  {}

  lemma CommandGoesForward(v: View, ok: bool, after: Holder)
    requires Leaves(v.c, v.holder, ok, after)
    ensures StepsLeft(Ran(v.c, ok)) < StepsLeft(v.c)
  {}

  lemma LockGoesForward(v: View, o: Others, a: Action)
    requires Can(v, o, a) && !a.Ask? && !a.Run? && !a.Fail? && v.c != Dying
    ensures StepsLeft(Act(v, o, a).c) < StepsLeft(v.c)
  {
    hide Answer, Ran;
  }

  lemma FailureGoesForward(v: View, o: Others)
    requires Can(v, o, Fail)
    ensures StepsLeft(CloseLease) < StepsLeft(v.c)
  {}

  /** Every step of a launcher's own brings it nearer to its end, so that it makes at most twenty. */
  lemma EveryStepGoesForward(v: View, o: Others, a: Action)
    requires Can(v, o, a) && v.c != Dying
    ensures StepsLeft(Act(v, o, a).c) < StepsLeft(v.c)
  {
    match a
    case Ask => AnswerGoesForward(v);
    case Run(ok, after) => CommandGoesForward(v, ok, after);
    case Fail => FailureGoesForward(v, o);
    case _ => LockGoesForward(v, o, a);
  }
}
