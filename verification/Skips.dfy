/**
  The store view check of a unit start (prison-store-check/src/lib.rs): what a view
  serves, the count of skipped starts, and the recheck that a skip arms.
*/
module Skips {
  import opened Wrappers
  import Text

  const MAX_SKIPS := 3
  const U32_MAX := 0xffff_ffff

  // ---- Numbers as text ----

  function Digit(d: nat): char
    requires d < 10
  {
    ('0' as nat + d) as char
  }

  function Decimal(n: nat): string {
    if n < 10 then [Digit(n)] else Decimal(n / 10) + [Digit(n % 10)]
  }

  function DigitOf(c: char): Option<nat> {
    if '0' <= c <= '9' then Some(c as nat - '0' as nat) else None
  }

  function Number(s: string): Option<nat>
    decreases |s|
  {
    if s == "" then None
    else
      var last := DigitOf(s[|s| - 1]);
      if last.None? then None
      else if |s| == 1 then last
      else
        match Number(s[..|s| - 1])
        case None => None
        case Some(n) => Some(n * 10 + last.value)
  }

  /** What `trim` takes: the characters with the property White_Space. */
  predicate IsSpace(c: char) {
    var n := c as int;
    || n == 0x20 || 9 <= n <= 13 || n == 0x85 || n == 0xa0 || n == 0x1680 || 0x2000 <= n <= 0x200a
    || n == 0x2028 || n == 0x2029 || n == 0x202f || n == 0x205f || n == 0x3000
  }

  function Trim(s: string): string
    decreases |s|
  {
    if s == "" then ""
    else if IsSpace(s[0]) then Trim(s[1..])
    else if IsSpace(s[|s| - 1]) then Trim(s[..|s| - 1])
    else s
  }

  /** `text.trim().parse().unwrap_or(0)` for a `u32`; a plus sign in front is allowed. */
  function ParseCount(text: string): nat {
    var t := Trim(text);
    var digits := if "+" <= t then t[1..] else t;
    match Number(digits)
    case None => 0
    case Some(n) => if n <= U32_MAX then n else 0
  }

  lemma DigitRoundTrip(d: nat)
    requires d < 10
    ensures DigitOf(Digit(d)) == Some(d) && '0' <= Digit(d) <= '9'
  {}

  lemma {:induction false} DecimalRoundTrip(n: nat)
    ensures Number(Decimal(n)) == Some(n)
    ensures forall i :: 0 <= i < |Decimal(n)| ==> '0' <= Decimal(n)[i] <= '9'
    ensures Decimal(n) != ""
    decreases n
  {
    DigitRoundTrip(n % 10);
    hide Digit, DigitOf;
    if n >= 10 {
      DecimalRoundTrip(n / 10);
      var s := Decimal(n);
      assert s[..|s| - 1] == Decimal(n / 10);
      assert n == n / 10 * 10 + n % 10;
    }
  }

  /** A count that was written is read back. */
  lemma CountRoundTrip(n: nat)
    requires n <= U32_MAX
    ensures ParseCount(Decimal(n) + "\n") == n
  {
    DecimalRoundTrip(n);
    var d := Decimal(n);
    var text := d + "\n";
    hide Decimal, Number;
    assert text[..|text| - 1] == d;
    assert text[0] == d[0] && d[|d| - 1] >= '0';
    assert Trim(d) == d;
    assert Trim(text) == d;
  }

  /** The number that decimal digits spell. */
  function ValueOf(digits: string): nat
    requires forall i | 0 <= i < |digits| :: '0' <= digits[i] <= '9'
  {
    if digits == "" then 0
    else ValueOf(digits[..|digits| - 1]) * 10 + (digits[|digits| - 1] as int - '0' as int)
  }

  predicate AllDigits(s: string) {
    forall i | 0 <= i < |s| :: '0' <= s[i] <= '9'
  }

  lemma {:induction false} NumberIs(s: string)
    ensures Number(s) == if s != "" && AllDigits(s) then Some(ValueOf(s)) else None
    decreases |s|
  {
    if s != "" {
      var init := s[..|s| - 1];
      NumberIs(init);
      if AllDigits(init) && DigitOf(s[|s| - 1]).Some? {
        assert s == init + [s[|s| - 1]];
      }
      if AllDigits(s) {
        assert forall i | 0 <= i < |init| :: init[i] == s[i];
      } else if AllDigits(init) {
        assert forall i | 0 <= i < |init| :: s[i] == init[i];
      }
    }
  }

  /** Space, the controls from tab to carriage return, and the wide and other spaces of Unicode. */
  predicate White(c: char) {
    c as int in {
      0x09, 0x0a, 0x0b, 0x0c, 0x0d, 0x20, 0x85, 0xa0, 0x1680, 0x2000, 0x2001, 0x2002, 0x2003, 0x2004, 0x2005, 0x2006,
      0x2007, 0x2008, 0x2009, 0x200a, 0x2028, 0x2029, 0x202f, 0x205f, 0x3000}
  }

  predicate Blank(s: string) {
    forall i | 0 <= i < |s| :: White(s[i])
  }

  lemma WhiteIsSpace(c: char)
    ensures White(c) <==> IsSpace(c)
  {}

  lemma BlankOne(c: char, s: string)
    ensures Blank("") && (IsSpace(c) && Blank(s) ==> Blank([c] + s) && Blank(s + [c]))
  {
    WhiteIsSpace(c);
    hide White, IsSpace;
  }

  lemma BlankEnds(s: string)
    requires Blank(s) && s != ""
    ensures IsSpace(s[0]) && IsSpace(s[|s| - 1]) && Blank(s[1..]) && Blank(s[..|s| - 1])
  {
    WhiteIsSpace(s[0]);
    WhiteIsSpace(s[|s| - 1]);
    hide White, IsSpace;
  }

  /** A text that begins and ends with no space is what trimming leaves, whatever blanks are around it. */
  lemma {:induction false} TrimIs(lead: string, middle: string, tail: string)
    requires Blank(lead) && Blank(tail)
    requires middle != "" ==> !IsSpace(middle[0]) && !IsSpace(middle[|middle| - 1])
    ensures Trim(lead + middle + tail) == middle
    decreases |lead| + |tail|
  {
    hide Blank, IsSpace;
    var s := lead + middle + tail;
    if lead != "" {
      BlankEnds(lead);
      assert s[1..] == lead[1..] + middle + tail;
      TrimIs(lead[1..], middle, tail);
    } else if tail != "" {
      BlankEnds(tail);
      if middle == "" {
        assert s == tail && s[1..] == lead + middle + tail[1..];
        TrimIs(lead, middle, tail[1..]);
      } else {
        assert s[..|s| - 1] == lead + middle + tail[..|tail| - 1];
        TrimIs(lead, middle, tail[..|tail| - 1]);
      }
    } else {
      assert s == middle;
    }
  }

  lemma {:induction false} TrimTakesBlanks(s: string) returns (lead: string, tail: string)
    ensures Blank(lead) && Blank(tail) && s == lead + Trim(s) + tail
    decreases |s|
  {
    hide Blank, IsSpace;
    BlankOne(' ', "");
    lead, tail := "", "";
    if s != "" && IsSpace(s[0]) {
      lead, tail := TrimTakesBlanks(s[1..]);
      BlankOne(s[0], lead);
      lead := [s[0]] + lead;
      assert s == [s[0]] + s[1..];
    } else if s != "" && IsSpace(s[|s| - 1]) {
      lead, tail := TrimTakesBlanks(s[..|s| - 1]);
      BlankOne(s[|s| - 1], tail);
      tail := tail + [s[|s| - 1]];
      assert s == s[..|s| - 1] + [s[|s| - 1]];
    } else {
      assert s == "" + s + "";
    }
  }

  /** A number in a file: digits, with a plus sign or without, and blanks around them. */
  ghost predicate Spells(text: string, digits: string) {
    exists lead, tail :: Blank(lead) && Blank(tail) &&
      (text == lead + digits + tail || text == lead + ("+" + digits) + tail)
  }

  /** A file counts as the number it spells, up to 4294967295, and as 0 if it spells none or a larger one. */
  lemma CountOfText(text: string, digits: string)
    ensures digits != "" && AllDigits(digits) && Spells(text, digits) ==>
              ParseCount(text) == if ValueOf(digits) <= 4294967295 then ValueOf(digits) else 0
    ensures (forall d :: d != "" && AllDigits(d) ==> !Spells(text, d)) ==> ParseCount(text) == 0
  {
    hide Number, Trim, Blank, ValueOf;
    if digits != "" && AllDigits(digits) && Spells(text, digits) {
      var lead, tail :| Blank(lead) && Blank(tail) &&
        (text == lead + digits + tail || text == lead + ("+" + digits) + tail);
      NumberIs(digits);
      TrimIs(lead, digits, tail);
      TrimIs(lead, "+" + digits, tail);
      assert ("+" + digits)[1..] == digits;
    }
    var lead, tail := TrimTakesBlanks(text);
    var t := Trim(text);
    var read := if "+" <= t then t[1..] else t;
    NumberIs(read);
    if read != "" && AllDigits(read) {
      assert t == read || t == "+" + read;
      assert Spells(text, read);
    }
  }

  // ---- Unit names and file names ----

  predicate NameChar(c: char) {
    '0' <= c <= '9' || 'A' <= c <= 'Z' || 'a' <= c <= 'z' || c in {':', '_', '.', '@', '-', '\\'}
  }

  /** `check_unit_name`. */
  predicate ValidUnit(unit: string) {
    && unit != "" && |unit| <= 255 && unit[0] != '.' && unit[0] != '-'
    && forall i :: 0 <= i < |unit| ==> NameChar(unit[i])
  }

  function CounterFile(unit: string): string {
    unit + ".skips"
  }

  function StagingFile(unit: string): string {
    "." + unit + ".skips.new"
  }

  /** No unit's counter or staging file is another's, and no counter is a staging file. */
  lemma FilesAreApart(u: string, v: string)
    requires ValidUnit(u) && ValidUnit(v)
    ensures CounterFile(u) == CounterFile(v) <==> u == v
    ensures StagingFile(u) == StagingFile(v) <==> u == v
    ensures CounterFile(u) != StagingFile(v)
    ensures '/' !in CounterFile(u) && '/' !in StagingFile(u)
  {
    if CounterFile(u) == CounterFile(v) {
      assert CounterFile(u)[..|u|] == u && CounterFile(v)[..|v|] == v;
    }
    if StagingFile(u) == StagingFile(v) {
      assert StagingFile(u)[1..1 + |u|] == u && StagingFile(v)[1..1 + |v|] == v;
    }
    assert CounterFile(u)[0] == u[0] && StagingFile(v)[0] == '.';
    assert '/' !in u;
  }

  // ---- The check ----

  /** Where the host fails: reading the count, writing it (leaving this much), renaming, removing, restarting, arming. */
  datatype Faults = Faults(read: bool, write: Option<string>, rename: bool, remove: bool, restart: bool, arm: bool)

  const NO_FAULTS := Faults(false, None, false, false, false, false)

  datatype Outcome = Fresh | Restarting(stale: seq<string>) | GaveUp(stale: seq<string>)

  /** The files of the counter directory, the restarts queued, and the unit each armed timer starts again. */
  datatype State = State(files: map<string, string>, restarts: seq<seq<string>>, timers: map<string, string>)

  function Count(s: State, unit: string): nat {
    if CounterFile(unit) in s.files then ParseCount(s.files[CounterFile(unit)]) else 0
  }

  function Saturating(n: nat): nat {
    if n + 1 <= U32_MAX then n + 1 else U32_MAX
  }

  /** `Skips::bump`; `None` is the error. */
  function Bump(s: State, unit: string, faults: Faults): (State, Option<nat>) {
    if !ValidUnit(unit) || faults.read then (s, None)
    else
      var count := Saturating(Count(s, unit));
      var text := Decimal(count) + "\n";
      if faults.write.Some? then (s.(files := s.files[StagingFile(unit) := faults.write.value]), None)
      else if faults.rename then (s.(files := s.files[StagingFile(unit) := text]), None)
      else (s.(files := (s.files - {StagingFile(unit)})[CounterFile(unit) := text]), Some(count))
  }

  /** `Skips::clear`. */
  function Clear(s: State, unit: string, faults: Faults): (State, bool) {
    if !ValidUnit(unit) || (faults.remove && CounterFile(unit) in s.files) then (s, false)
    else (s.(files := s.files - {CounterFile(unit)}), true)
  }

  /** The transient timer that rechecks a unit. */
  function Stem(unit: string): string {
    Dashed(if |unit| >= 8 && unit[|unit| - 8..] == ".service" then unit[..|unit| - 8] else unit)
  }

  function Dashed(s: string): string {
    if s == "" then ""
    else
      [if '0' <= s[0] <= '9' || 'A' <= s[0] <= 'Z' || 'a' <= s[0] <= 'z' || s[0] == '-' || s[0] == '_' then s[0] else '-'] +
      Dashed(s[1..])
  }

  function RecheckUnit(unit: string): string {
    "prison-store-recheck-" + Stem(unit)
  }

  /** Arming a timer that is already armed succeeds and changes nothing. */
  function Arm(s: State, unit: string, faults: Faults): (State, bool) {
    if !ValidUnit(unit) || faults.arm then (s, false)
    else if RecheckUnit(unit) in s.timers then (s, true)
    else (s.(timers := s.timers[RecheckUnit(unit) := unit]), true)
  }

  /** `check`, given the stale views; `None` if asking about a view failed. A result of `None` is the error. */
  function Check(s: State, unit: string, stale: Option<seq<string>>, faults: Faults): (State, Option<Outcome>) {
    if stale.None? then (s, None)
    else if stale.value == [] then
      var (t, ok) := Clear(s, unit, faults);
      (t, if ok then Some(Fresh) else None)
    else
      var (t, count) := Bump(s, unit, faults);
      if count.None? || faults.restart then (t, None)
      else
        var queued := t.(restarts := t.restarts + [stale.value + [unit]]);
        if count.value > MAX_SKIPS then (queued, Some(GaveUp(stale.value)))
        else
          var (armed, ok) := Arm(queued, unit, faults);
          (armed, if ok then Some(Restarting(stale.value)) else None)
  }

  // ---- What a view serves ----

  type Bytes = seq<char>

  const FLAG: Bytes := "--bind-target"

  /** Does this argument name the bind target? */
  predicate Names(arg: Bytes) {
    arg == FLAG || FLAG + "=" <= arg
  }

  /** `bind_target`: the value behind the flag, or the next argument. */
  function BindTarget(argv: seq<Bytes>): Option<Bytes> {
    if argv == [] then None
    else if argv[0] == FLAG then if |argv| > 1 then Some(argv[1]) else None
    else if FLAG + "=" <= argv[0] then Some(argv[0][|FLAG| + 1..])
    else BindTarget(argv[1..])
  }

  /** Only the first argument that names a target counts. */
  lemma {:induction false} FirstNamingDecides(before: seq<Bytes>, rest: seq<Bytes>)
    requires forall arg <- before :: !Names(arg)
    ensures BindTarget(before + rest) == BindTarget(rest)
    decreases |before|
  {
    if before == [] {
      assert before + rest == rest;
    } else {
      assert before[0] in before;
      assert (before + rest)[0] == before[0] && (before + rest)[1..] == before[1..] + rest;
      FirstNamingDecides(before[1..], rest);
    }
  }

  /** `System::cmdline`: the arguments end in a zero byte each. */
  function Cmdline(raw: Bytes): Option<seq<Bytes>> {
    if raw == [] then None
    else Some(Text.Split(if raw[|raw| - 1] == '\0' then raw[..|raw| - 1] else raw, '\0'))
  }

  /** What the kernel shows for an argument list. */
  function Shown(argv: seq<Bytes>): Bytes {
    if argv == [] then [] else argv[0] + ['\0'] + Shown(argv[1..])
  }

  lemma {:induction false} ShownIsJoined(argv: seq<Bytes>)
    requires argv != []
    ensures Shown(argv) == Text.Join(argv, '\0') + ['\0']
    decreases |argv|
  {
    if |argv| > 1 {
      ShownIsJoined(argv[1..]);
      assert argv[0] + ['\0'] + (Text.Join(argv[1..], '\0') + ['\0']) ==
             argv[0] + ['\0'] + Text.Join(argv[1..], '\0') + ['\0'];
    } else {
      assert Shown(argv[1..]) == [];
      assert argv[0] + ['\0'] + [] == argv[0] + ['\0'];
    }
  }

  /** Every argument list is read back from what the kernel shows, empty arguments and all. */
  lemma CmdlineReadsArguments(argv: seq<Bytes>)
    requires forall arg <- argv :: '\0' !in arg
    ensures Cmdline(Shown(argv)) == if argv == [] then None else Some(argv)
  {
    if argv != [] {
      ShownIsJoined(argv);
      Text.SplitJoin(argv, '\0');
      var raw, joined := Shown(argv), Text.Join(argv, '\0');
      assert raw[..|raw| - 1] == joined;
      hide Shown, Text.Split, Text.Join;
    }
  }

  datatype Served = Expected | NotRunning | Other(target: Option<Bytes>)

  datatype View = View(unit: string, target: Bytes)

  /** What the host answers: a unit's main process, and the raw command line of a process. */
  datatype Host = Host(mainPid: string -> Option<nat>, cmdline: nat -> Bytes)

  /** `served`; `None` is the error. */
  function ServedBy(host: Host, view: View): Option<Served> {
    match host.mainPid(view.unit)
    case None => None
    case Some(pid) =>
      if pid == 0 || Cmdline(host.cmdline(pid)).None? then Some(NotRunning)
      else
        var t := BindTarget(Cmdline(host.cmdline(pid)).value);
        Some(if t == Some(view.target) then Expected else Other(t))
  }

  /** The views that are not as expected, in order. */
  function Stale(host: Host, views: seq<View>): Option<seq<string>> {
    if views == [] then Some([])
    else
      match ServedBy(host, views[0])
      case None => None
      case Some(served) =>
        match Stale(host, views[1..])
        case None => None
        case Some(rest) => Some((if served == Expected then [] else [views[0].unit]) + rest)
  }

  /** A start is fresh exactly when every view serves what is expected of it. */
  lemma {:induction false} FreshIfAllExpected(host: Host, views: seq<View>)
    ensures Stale(host, views).Some? <==> forall v <- views :: ServedBy(host, v).Some?
    ensures Stale(host, views) == Some([]) <==> forall v <- views :: ServedBy(host, v) == Some(Expected)
    decreases |views|
  {
    hide ServedBy;
    if views != [] {
      FreshIfAllExpected(host, views[1..]);
      assert forall v :: v in views <==> v == views[0] || v in views[1..];
      var first, rest := ServedBy(host, views[0]), Stale(host, views[1..]);
      assert views[0] in views;
      if first.Some? && rest.Some? {
        var named := if first.value == Expected then [] else [views[0].unit];
        assert Stale(host, views) == Some(named + rest.value);
        assert named + rest.value == [] <==> named == [] && rest.value == [];
      }
    }
  }

  /** The stale views are those that do not serve what is expected of them, in order. */
  lemma {:induction false} StaleAreTheUnexpected(host: Host, views: seq<View>)
    requires Stale(host, views).Some?
    ensures Stale(host, views).value == Units(Unexpected(host, views))
    decreases |views|
  {
    hide ServedBy;
    if views != [] {
      StaleAreTheUnexpected(host, views[1..]);
      var rest := Unexpected(host, views[1..]);
      assert ([views[0]] + rest)[1..] == rest;
      assert [] + rest == rest && [] + Units(rest) == Units(rest);
    }
  }

  function Units(views: seq<View>): seq<string> {
    if views == [] then [] else [views[0].unit] + Units(views[1..])
  }

  /** The views that do not serve what is expected of them. */
  ghost function Unexpected(host: Host, views: seq<View>): (some: seq<View>)
    ensures forall v :: v in some <==> v in views && ServedBy(host, v) != Some(Expected)
  {
    if views == [] then []
    else (if ServedBy(host, views[0]) == Some(Expected) then [] else [views[0]]) + Unexpected(host, views[1..])
  }

  /** A running daemon is what it was started with: expected exactly when its first naming argument names the target. */
  lemma StartedWithIsServed(host: Host, view: View, pid: nat, before: seq<Bytes>, rest: seq<Bytes>, target: Bytes)
    requires host.mainPid(view.unit) == Some(pid) && pid != 0
    requires host.cmdline(pid) == Shown(before + [FLAG, target] + rest)
    requires forall arg <- before :: !Names(arg) && '\0' !in arg
    requires '\0' !in target && forall arg <- rest :: '\0' !in arg
    ensures ServedBy(host, view) == Some(if target == view.target then Expected else Other(Some(target)))
  {
    var argv := before + [FLAG, target] + rest;
    assert '\0' !in FLAG;
    CmdlineReadsArguments(argv);
    assert argv == before + ([FLAG, target] + rest);
    FirstNamingDecides(before, [FLAG, target] + rest);
    hide Cmdline, Shown, Names;
  }

  /** The same when flag and target are one argument, with `=` between them; a flag at the end names none. */
  lemma TargetBehindEquals(target: Bytes, rest: seq<Bytes>)
    ensures BindTarget(["--bind-target=" + target] + rest) == Some(target)
    ensures BindTarget(["--bind-target"]) == None && BindTarget([]) == None
  {
    var argv := ["--bind-target=" + target] + rest;
    assert argv[0] == FLAG + "=" + target;
    assert |argv[0]| > |FLAG| && argv[0][|FLAG| + 1..] == target;
    assert FLAG + "=" <= argv[0];
  }

  /** A view without a main process, or whose process has no command line any more, is not running. */
  lemma NotRunningIff(host: Host, view: View)
    requires host.mainPid(view.unit).Some?
    ensures var pid := host.mainPid(view.unit).value;
      ServedBy(host, view) == Some(NotRunning) <==> pid == 0 || host.cmdline(pid) == ""
  {
    hide BindTarget, Text.Split;
  }

  // ---- The code ----

  class Checker {
    var files: map<string, string>
    var restarts: seq<seq<string>>
    var timers: map<string, string>

    ghost function Now(): State
      reads this
    {
      State(files, restarts, timers)
    }

    method CountSkips(unit: string, readFails: bool) returns (count: Option<nat>)
      ensures count == if !ValidUnit(unit) || readFails then None else Some(Count(Now(), unit))
    {
      if !ValidUnit(unit) || readFails {
        return None;
      }
      if CounterFile(unit) !in files {
        return Some(0);
      }
      return Some(ParseCount(files[CounterFile(unit)]));
    }

    method BumpSkips(unit: string, faults: Faults) returns (count: Option<nat>)
      modifies this`files
      ensures (Now(), count) == Bump(old(Now()), unit, faults)
    {
      hide Decimal, ParseCount, ValidUnit;
      var before := CountSkips(unit, faults.read);
      if before.None? {
        return None;
      }
      var next := Saturating(before.value);
      if faults.write.Some? {
        files := files[StagingFile(unit) := faults.write.value];
        return None;
      }
      files := files[StagingFile(unit) := Decimal(next) + "\n"];
      if faults.rename {
        return None;
      }
      ghost var without := files - {StagingFile(unit)};
      var text := files[StagingFile(unit)];
      files := files - {StagingFile(unit)};
      assert files == old(files) - {StagingFile(unit)};
      files := files[CounterFile(unit) := text];
      return Some(next);
    }

    method ClearSkips(unit: string, faults: Faults) returns (ok: bool)
      modifies this`files
      ensures (Now(), ok) == Clear(old(Now()), unit, faults)
    {
      if !ValidUnit(unit) {
        return false;
      }
      if CounterFile(unit) !in files {
        assert files - {CounterFile(unit)} == files;
        return true;
      }
      if faults.remove {
        return false;
      }
      files := files - {CounterFile(unit)};
      return true;
    }

    method ArmRecheck(unit: string, faults: Faults) returns (ok: bool)
      modifies this`timers
      ensures (Now(), ok) == Arm(old(Now()), unit, faults)
    {
      if !ValidUnit(unit) || faults.arm {
        return false;
      }
      if RecheckUnit(unit) in timers {
        return true;
      }
      timers := timers[RecheckUnit(unit) := unit];
      return true;
    }

    /** `check`. */
    method CheckUnit(host: Host, unit: string, views: seq<View>, faults: Faults) returns (r: Option<Outcome>)
      modifies this
      ensures (Now(), r) == Check(old(Now()), unit, Stale(host, views), faults)
    {
      hide ServedBy, Bump, Clear, Arm;
      var stale: seq<string> := [];
      var i := 0;
      ghost var all := Stale(host, views);
      assert views[0..] == views;
      assert all.Some? ==> [] + all.value == all.value;
      while i < |views|
        invariant 0 <= i <= |views|
        invariant all == if Stale(host, views[i..]).None? then None else Some(stale + Stale(host, views[i..]).value)
        invariant Now() == old(Now())
      {
        assert views[i..][1..] == views[i + 1..] && views[i..][0] == views[i];
        var served := ServedBy(host, views[i]);
        if served.None? {
          return None;
        }
        ghost var rest := Stale(host, views[i + 1..]);
        if served.value != Expected {
          assert rest.Some? ==> stale + ([views[i].unit] + rest.value) == stale + [views[i].unit] + rest.value;
          stale := stale + [views[i].unit];
        } else {
          assert rest.Some? ==> stale + ([] + rest.value) == stale + rest.value;
        }
        i := i + 1;
      }
      assert stale + [] == stale;
      if stale == [] {
        var ok := ClearSkips(unit, faults);
        return if ok then Some(Fresh) else None;
      }
      var count := BumpSkips(unit, faults);
      if count.None? || faults.restart {
        return None;
      }
      restarts := restarts + [stale + [unit]];
      if count.value > MAX_SKIPS {
        return Some(GaveUp(stale));
      }
      var ok := ArmRecheck(unit, faults);
      return if ok then Some(Restarting(stale)) else None;
    }
  }

  // ---- Whole histories ----

  /** One check: the unit, the views found stale if all could be asked, and where the host failed. */
  datatype Event = Event(unit: string, stale: Option<seq<string>>, faults: Faults)

  function After(s: State, events: seq<Event>): State
    decreases |events|
  {
    if events == [] then s
    else
      var last := events[|events| - 1];
      Check(After(s, events[..|events| - 1]), last.unit, last.stale, last.faults).0
  }

  /** A stale check that got as far as recording itself, whatever became of its restart. */
  predicate CountsAsSkip(e: Event) {
    e.stale.Some? && e.stale.value != [] && !e.faults.read && e.faults.write.None? && !e.faults.rename
  }

  /** A check that found every view fresh and could forget the skips. */
  predicate CountsAsFresh(e: Event) {
    e.stale == Some([]) && !e.faults.remove
  }

  /** The stale checks of a unit since its last fresh one. */
  function Streak(events: seq<Event>, unit: string): nat
    decreases |events|
  {
    if events == [] then 0
    else
      var last, before := events[|events| - 1], Streak(events[..|events| - 1], unit);
      if last.unit != unit then before
      else if CountsAsFresh(last) then 0
      else if CountsAsSkip(last) then before + 1
      else before
  }

  function Capped(n: nat): nat {
    if n <= 4294967295 then n else 4294967295
  }

  lemma BumpCounts(s: State, unit: string, faults: Faults, other: string)
    requires ValidUnit(unit) && ValidUnit(other) && Count(s, unit) <= U32_MAX
    ensures var (t, count) := Bump(s, unit, faults);
      && (other != unit ==> Count(t, other) == Count(s, other))
      && (count.Some? ==> count.value == Count(t, unit) == Saturating(Count(s, unit)))
      && (count.None? ==> Count(t, unit) == Count(s, unit))
      && (count.Some? <==> !faults.read && faults.write.None? && !faults.rename)
      && t.restarts == s.restarts && t.timers == s.timers
  {
    FilesAreApart(unit, other);
    FilesAreApart(other, unit);
    FilesAreApart(unit, unit);
    CountRoundTrip(Saturating(Count(s, unit)));
    hide ValidUnit, CounterFile, StagingFile, ParseCount, Decimal;
  }

  lemma ClearCounts(s: State, unit: string, faults: Faults, other: string)
    requires ValidUnit(unit) && ValidUnit(other)
    ensures var (t, ok) := Clear(s, unit, faults);
      && (other != unit ==> Count(t, other) == Count(s, other))
      && Count(t, unit) == (if ok then 0 else Count(s, unit))
      && (ok <==> !faults.remove || CounterFile(unit) !in s.files)
      && (CounterFile(unit) !in s.files ==> Count(s, unit) == 0)
  {
    FilesAreApart(unit, other);
    hide ValidUnit, CounterFile, ParseCount;
  }

  lemma CheckCounts(s: State, e: Event, other: string)
    requires ValidUnit(e.unit) && ValidUnit(other) && Count(s, e.unit) <= U32_MAX
    ensures var t := Check(s, e.unit, e.stale, e.faults).0;
      && (other != e.unit ==> Count(t, other) == Count(s, other))
      && Count(t, e.unit) ==
         (if CountsAsFresh(e) then 0 else if CountsAsSkip(e) then Saturating(Count(s, e.unit)) else Count(s, e.unit))
  {
    BumpCounts(s, e.unit, e.faults, other);
    ClearCounts(s, e.unit, e.faults, other);
    var bumped := Bump(s, e.unit, e.faults).0;
    assert forall r, x :: Count(bumped.(restarts := r), x) == Count(bumped, x);
    assert forall r, x, m :: Count(bumped.(restarts := r, timers := m), x) == Count(bumped, x);
    hide Bump, Clear, ValidUnit, CounterFile, ParseCount, Count, RecheckUnit;
    CheckKeepsCounter(s, e, other);
    CheckKeepsCounter(s, e, e.unit);
  }

  /** After the bump or the removal the check leaves the files alone. */
  lemma CheckKeepsCounter(s: State, e: Event, other: string)
    requires ValidUnit(e.unit)
    ensures var t := Check(s, e.unit, e.stale, e.faults).0;
      Count(t, other) ==
      if e.stale.None? then Count(s, other)
      else if e.stale.value == [] then Count(Clear(s, e.unit, e.faults).0, other)
      else Count(Bump(s, e.unit, e.faults).0, other)
  {
    hide Bump, Clear, ValidUnit, ParseCount, RecheckUnit, CounterFile;
  }

  /**
    After any checks of any units, from an empty directory, a unit's count is the number
    of its stale checks since its last fresh one, as far as a `u32` goes.
  */
  lemma {:induction false} CountIsStreak(s: State, events: seq<Event>, unit: string)
    requires ValidUnit(unit) && (forall e <- events :: ValidUnit(e.unit))
    requires s.files == map[]
    ensures Count(After(s, events), unit) == Capped(Streak(events, unit))
    decreases |events|
  {
    if events != [] {
      var before, last := events[..|events| - 1], events[|events| - 1];
      assert last in events && forall e <- before :: e in events;
      hide ValidUnit, Check, Count;
      CountIsStreak(s, before, unit);
      CountIsStreak(s, before, last.unit);
      CheckCounts(After(s, before), last, unit);
    } else {
      hide ValidUnit;
    }
  }

  /**
    What a check answers. All fresh, it lets the start go, if the skips can be forgotten.
    Otherwise it needs the skip recorded and the restart queued, and gives up from the
    fourth skip in a row on; up to the third it also needs the recheck armed.
  */
  lemma OutcomeFollowsStreak(s: State, events: seq<Event>, unit: string, stale: seq<string>, faults: Faults)
    requires ValidUnit(unit) && (forall e <- events :: ValidUnit(e.unit))
    requires s.files == map[]
    ensures var streak := Streak(events + [Event(unit, Some(stale), faults)], unit);
      var r := Check(After(s, events), unit, Some(stale), faults).1;
      && (stale == [] && !faults.remove ==> r == Some(Fresh))
      && (stale == [] && faults.remove && Streak(events, unit) > 0 ==> r == None)
      && (stale != [] ==>
            r == if faults.read || faults.write.Some? || faults.rename || faults.restart then None
                 else if streak > 3 then Some(GaveUp(stale))
                 else if faults.arm then None else Some(Restarting(stale)))
  {
    var e := Event(unit, Some(stale), faults);
    var all := events + [e];
    assert all[..|all| - 1] == events && all[|all| - 1] == e;
    var before := After(s, events);
    hide ValidUnit, After;
    CountIsStreak(s, events, unit);
    BumpCounts(before, unit, faults, unit);
    ClearCounts(before, unit, faults, unit);
    hide Bump, Clear, Count, RecheckUnit, CounterFile;
    StreakGrows(events, e);
    hide Streak;
  }

  /** The characters of a unit name. */
  predicate Usable(c: char) {
    || c in "0123456789" || c in "ABCDEFGHIJKLMNOPQRSTUVWXYZ" || c in "abcdefghijklmnopqrstuvwxyz"
    || c in ":_.@-\\"
  }

  /** A unit name the checker takes: up to 255 of them, and no dot or dash in front. */
  predicate Acceptable(unit: string) {
    1 <= |unit| <= 255 && unit[0] != '.' && unit[0] != '-' && forall i | 0 <= i < |unit| :: Usable(unit[i])
  }

  lemma UsableIsNameChar(c: char)
    ensures Usable(c) <==> NameChar(c)
  {
    Text.InRange("0123456789", '0', '9', c);
    Text.InRange("ABCDEFGHIJKLMNOPQRSTUVWXYZ", 'A', 'Z', c);
    Text.InRange("abcdefghijklmnopqrstuvwxyz", 'a', 'z', c);
    var marks := ":_.@-\\";
    assert marks[0] == ':' && marks[1] == '_' && marks[2] == '.' && marks[3] == '@' && marks[4] == '-' && marks[5] == '\\';
  }

  /** Letters, digits, dashes and underscores are kept in a timer's name. */
  predicate Kept(c: char) {
    || c in "0123456789" || c in "ABCDEFGHIJKLMNOPQRSTUVWXYZ" || c in "abcdefghijklmnopqrstuvwxyz"
    || c in "-_"
  }

  lemma KeptStays(c: char)
    ensures Dashed([c]) == [if Kept(c) then c else '-']
  {
    Text.InRange("0123456789", '0', '9', c);
    Text.InRange("ABCDEFGHIJKLMNOPQRSTUVWXYZ", 'A', 'Z', c);
    Text.InRange("abcdefghijklmnopqrstuvwxyz", 'a', 'z', c);
    var marks := "-_";
    assert marks[0] == '-' && marks[1] == '_' && [c][1..] == "";
  }

  lemma {:induction false} DashedIs(s: string)
    ensures |Dashed(s)| == |s| && forall i | 0 <= i < |s| :: Dashed(s)[i] == if Kept(s[i]) then s[i] else '-'
    decreases |s|
  {
    hide Kept;
    if s != "" {
      KeptStays(s[0]);
      assert [s[0]][1..] == "" && Dashed([s[0]]) == [Dashed([s[0]])[0]];
      DashedIs(s[1..]);
    }
  }

  /** The timer of a unit: its name without a final `.service`, every other character a dash, behind a fixed text. */
  lemma TimerNameIs(stem: string) returns (name: string)
    ensures |name| == |stem| && forall i | 0 <= i < |stem| :: name[i] == if Kept(stem[i]) then stem[i] else '-'
    ensures RecheckUnit(stem + ".service") == "prison-store-recheck-" + name
    ensures !(|stem| >= |".service"| && stem[|stem| - |".service"|..] == ".service") ==>
              RecheckUnit(stem) == "prison-store-recheck-" + name
  {
    hide Kept, Dashed;
    DashedIs(stem);
    name := Dashed(stem);
    var unit := stem + ".service";
    assert unit[|unit| - 8..] == ".service" && unit[..|unit| - 8] == stem;
  }

  /** Any other name is refused before anything happens. */
  lemma BadNameChangesNothing(s: State, unit: string, stale: Option<seq<string>>, faults: Faults)
    ensures ValidUnit(unit) <==> Acceptable(unit)
    ensures !Acceptable(unit) ==> Check(s, unit, stale, faults) == (s, None)
  {
    forall i | 0 <= i < |unit|
      ensures Usable(unit[i]) <==> NameChar(unit[i])
    {
      UsableIsNameChar(unit[i]);
    }
    hide NameChar, Usable, CounterFile, StagingFile, Decimal, Count, RecheckUnit;
  }

  lemma StreakGrows(events: seq<Event>, e: Event)
    ensures Streak(events + [e], e.unit) ==
            if CountsAsFresh(e) then 0 else if CountsAsSkip(e) then Streak(events, e.unit) + 1 else Streak(events, e.unit)
  {
    var all := events + [e];
    assert all[..|all| - 1] == events && all[|all| - 1] == e;
  }

  /**
    A start that is let go queues nothing; one that is skipped or given up queues
    exactly one restart, of the stale views and the unit.
  */
  lemma OneRestartEach(s: State, unit: string, stale: Option<seq<string>>, faults: Faults)
    ensures var (t, r) := Check(s, unit, stale, faults);
      && (r.Some? && r.value != Fresh ==>
            stale.Some? && stale.value == r.value.stale && t.restarts == s.restarts + [stale.value + [unit]])
      && (r == Some(Fresh) ==> stale == Some([]) && t.restarts == s.restarts && t.timers == s.timers)
      && (r.None? ==> t.restarts == s.restarts || (stale.Some? && t.restarts == s.restarts + [stale.value + [unit]]))
  {
    hide ValidUnit, Count, Decimal, CounterFile, StagingFile, RecheckUnit;
  }

  /** A skipped start has armed a recheck of this very unit, unless the timer's name was already taken by another. */
  lemma SkipIsRechecked(s: State, unit: string, stale: Option<seq<string>>, faults: Faults)
    requires Check(s, unit, stale, faults).1.Some? && Check(s, unit, stale, faults).1.value.Restarting?
    ensures var t := Check(s, unit, stale, faults).0;
      && RecheckUnit(unit) in t.timers
      && (t.timers[RecheckUnit(unit)] == unit <==>
          !(RecheckUnit(unit) in s.timers && s.timers[RecheckUnit(unit)] != unit))
  {
    hide ValidUnit, Count, Decimal, CounterFile, StagingFile, RecheckUnit;
  }

  /**
    That can happen: an instance of one unit and a plain unit share a timer, so that no
    recheck of the second is armed. Its restart is queued all the same. Timers here stay
    armed; none goes off.
  */
  lemma SharedTimerForgetsTheSecond(s: State)
    requires s == State(map[], [], map[])
    ensures var t := After(s, [Event("a@b.service", Some(["v"]), NO_FAULTS), Event("a-b.service", Some(["v"]), NO_FAULTS)]);
      && Check(After(s, [Event("a@b.service", Some(["v"]), NO_FAULTS)]), "a-b.service", Some(["v"]), NO_FAULTS).1 ==
         Some(Restarting(["v"]))
      && "a-b.service" !in t.timers.Values
  {
    var first, second := Event("a@b.service", Some(["v"]), NO_FAULTS), Event("a-b.service", Some(["v"]), NO_FAULTS);
    NamesCollide();
    var events := [first, second];
    assert events[..1] == [first] && [first][..0] == [];
    var s1 := After(s, [first]);
    assert After(s, []) == s;
    assert s1 == Check(s, first.unit, first.stale, first.faults).0;
    assert Check(s, first.unit, first.stale, first.faults).1 == Some(Restarting(["v"])) &&
           Check(s1, second.unit, second.stale, second.faults).1 == Some(Restarting(["v"])) by {
      hide After, Check, ValidUnit;
      OutcomeFollowsStreak(s, [], first.unit, ["v"], NO_FAULTS);
      OutcomeFollowsStreak(s, [first], second.unit, ["v"], NO_FAULTS);
      StreakOfFirst(first, second);
    }
    hide After, ValidUnit;
    FirstTimer(s, first.unit);
    SecondTimer(s1, second.unit);
    assert After(s, events) == Check(s1, second.unit, second.stale, second.faults).0 by { AfterTwo(s, first, second); }
    hide Check;
    assert s1.timers == map[RecheckUnit(first.unit) := first.unit];
  }

  lemma AfterTwo(s: State, first: Event, second: Event)
    ensures After(s, [first, second]) == Check(After(s, [first]), second.unit, second.stale, second.faults).0
  {
    assert [first, second][..1] == [first];
  }

  lemma FirstTimer(s: State, unit: string)
    requires s == State(map[], [], map[])
    requires Check(s, unit, Some(["v"]), NO_FAULTS).1 == Some(Restarting(["v"]))
    ensures Check(s, unit, Some(["v"]), NO_FAULTS).0.timers == map[RecheckUnit(unit) := unit]
  {
    hide ValidUnit, Count, Decimal, CounterFile, StagingFile, RecheckUnit;
  }

  lemma SecondTimer(s: State, unit: string)
    requires RecheckUnit(unit) in s.timers
    ensures Check(s, unit, Some(["v"]), NO_FAULTS).0.timers == s.timers
  {
    hide ValidUnit, Count, Decimal, CounterFile, StagingFile, RecheckUnit;
  }

  lemma StreakOfFirst(first: Event, second: Event)
    requires first.unit != second.unit
    ensures Streak([], first.unit) == 0 && Streak([first], second.unit) == 0
  {
    assert [first][..0] == [];
  }

  lemma NamesCollide()
    ensures ValidUnit("a@b.service") && ValidUnit("a-b.service")
    ensures "a@b.service" != "a-b.service"
    ensures RecheckUnit("a@b.service") == RecheckUnit("a-b.service")
  {
    var u, v := "a@b.service", "a-b.service";
    assert u[|u| - 8..] == ".service" && v[|v| - 8..] == ".service";
    assert u[..|u| - 8] == "a@b" && v[..|v| - 8] == "a-b";
    assert u[1] == '@' && v[1] == '-';
    hide Dashed;
    SameDashed();
  }

  lemma SameDashed()
    ensures Dashed("a@b") == Dashed("a-b")
  {
    assert "a@b"[1..] == "@b" && "@b"[1..] == "b" && "b"[1..] == "";
    assert "a-b"[1..] == "-b" && "-b"[1..] == "b";
    assert Dashed("b") == "b";
    assert Dashed("@b") == "-b" && Dashed("-b") == "-b";
  }
}
