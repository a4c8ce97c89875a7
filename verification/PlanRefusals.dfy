/**
  Which plan texts the parser takes (nix/app/runner.rs:112-251) and which launches
  the printer refuses (nix/app/plan.nix:14-20, 57-177), in characters and numbers.
*/
module PlanRefusals {
  import opened Wrappers
  import opened Text
  import opened Plan

  // ---- The checks on values ----

  /** A character by its number. */
  predicate Holds(s: string, code: nat) {
    exists i | 0 <= i < |s| :: s[i] as int == code
  }

  lemma HoldsIff(s: string, c: char)
    ensures Holds(s, c as nat) <==> c in s
  {
    if Holds(s, c as nat) {
      var i :| 0 <= i < |s| && s[i] as int == c as int;
      assert s[i] == c;
    }
  }

  /** A holder's name is nonempty, without slash and NUL. */
  lemma HolderNameIs(v: string)
    ensures ValidHolder(v) <==> v != "" && !Holds(v, 47) && !Holds(v, 0)
  {
    HoldsIff(v, '/');
    HoldsIff(v, '\0');
    hide Holds;
  }

  lemma WidthIs(c: char)
    ensures var n := c as int;
      && (n < 0x80 ==> Utf8Width(c) == 1)
      && (0x80 <= n < 0x800 ==> Utf8Width(c) == 2)
      && (0x800 <= n < 0x1_0000 ==> Utf8Width(c) == 3)
      && (0x1_0000 <= n ==> Utf8Width(c) == 4)
  {}

  lemma {:induction false} LengthAdds(a: string, b: string)
    ensures Utf8Length(a + b) == Utf8Length(a) + Utf8Length(b)
    decreases |a|
  {
    hide Utf8Width;
    if a == "" {
      assert a + b == b;
    } else {
      assert (a + b)[1..] == a[1..] + b;
      LengthAdds(a[1..], b);
    }
  }

  lemma {:induction false} AsciiLength(v: string)
    requires forall i | 0 <= i < |v| :: v[i] as int < 0x80
    ensures Utf8Length(v) == |v|
    decreases |v|
  {
    if v != "" {
      WidthIs(v[0]);
      hide Utf8Width;
      AsciiLength(v[1..]);
    }
  }

  /** A holder process has a nonempty name without a slash, of at most 15 bytes of UTF-8. */
  lemma ProcessNameIs(v: string)
    ensures ValidProcess(v) ==> v != "" && !Holds(v, 47)
    ensures v != "" && !Holds(v, 47) && (forall i | 0 <= i < |v| :: v[i] as int < 0x80) ==>
              (ValidProcess(v) <==> |v| <= 15)
    ensures v != "" && !Holds(v, 47) ==> (ValidProcess(v) <==> Utf8Length(v) <= 15)
  {
    HoldsIff(v, '/');
    hide Holds;
    if forall i | 0 <= i < |v| :: v[i] as int < 0x80 {
      AsciiLength(v);
    }
    hide Utf8Length;
  }

  predicate Wild(c: char) {
    c as int == 42 || c as int == 63
  }

  /** A pattern has a slash, and no wildcard before its last one. */
  lemma PatternIs(pattern: string)
    ensures ValidPattern(pattern) <==>
            Holds(pattern, 47) && forall i, j | 0 <= i < j < |pattern| && pattern[j] == '/' :: !Wild(pattern[i])
  {
    HoldsIff(pattern, '/');
    hide Holds;
    match LastIndexOf(pattern, '/') {
      case None =>
      case Some(k) =>
        hide LastIndexOf;
        forall j | k < j < |pattern|
          ensures pattern[j] != '/'
        {
          assert pattern[j] in pattern[k + 1..] by { assert pattern[k + 1..][j - k - 1] == pattern[j]; }
        }
        assert pattern[k] == '/';
        assert forall i | 0 <= i < k :: pattern[..k][i] == pattern[i];
    }
  }

  /** A variable's name is nonempty, without `=` and NUL. */
  lemma EnvNameIs(name: string)
    ensures ValidEnvName(name) <==> name != "" && !Holds(name, 61) && !Holds(name, 0)
  {
    HoldsIff(name, '=');
    HoldsIff(name, '\0');
    hide Holds;
  }

  // ---- Octal modes ----

  function Power8(n: nat): nat {
    if n == 0 then 1 else 8 * Power8(n - 1)
  }

  lemma OctalDigits()
    ensures OctalValue("") == 0
    ensures forall c | '0' <= c <= '7' :: OctalValue([c]) == c as int - 48
  {
    forall c | '0' <= c <= '7'
      ensures OctalValue([c]) == c as int - 48
    {
      assert [c][..0] == "";
    }
  }

  lemma IsOctalParts(a: string, b: string)
    ensures IsOctal(a + b) <==> IsOctal(a) && IsOctal(b)
  {
    if IsOctal(a + b) {
      assert forall i | 0 <= i < |a| :: (a + b)[i] == a[i];
      assert forall i | 0 <= i < |b| :: (a + b)[|a| + i] == b[i];
    }
  }

  lemma Distributes(a: nat, b: nat, d: nat, p: nat)
    ensures 8 * (a * p + b) + d == a * (8 * p) + (8 * b + d)
  {}

  /** Digits are weighted by their place. */
  lemma {:induction false} OctalPlaces(a: string, b: string)
    requires IsOctal(a) && IsOctal(b)
    ensures IsOctal(a + b) && OctalValue(a + b) == OctalValue(a) * Power8(|b|) + OctalValue(b)
    decreases |b|
  {
    IsOctalParts(a, b);
    if b == "" {
      assert a + b == a;
    } else {
      var init, last := b[..|b| - 1], b[|b| - 1];
      assert (a + b)[..|a + b| - 1] == a + init && (a + b)[|a + b| - 1] == last;
      assert forall i | 0 <= i < |init| :: init[i] == b[i];
      OctalPlaces(a, init);
      Distributes(OctalValue(a), OctalValue(init), last as int - '0' as int, Power8(|init|));
    }
  }

  lemma {:induction false} OctalBelow(s: string)
    requires IsOctal(s)
    ensures OctalValue(s) < Power8(|s|)
    decreases |s|
  {
    if s != "" {
      OctalBelow(s[..|s| - 1]);
    }
  }

  lemma Powers()
    ensures Power8(10) == 0x4000_0000 && Power8(11) == 0x2_0000_0000
  {
    assert Power8(4) == 4096;
    assert Power8(7) == 4096 * 512;
    assert Power8(10) == 4096 * 512 * 512;
  }

  lemma {:induction false} Power8Grows(m: nat, n: nat)
    requires m <= n
    ensures 1 <= Power8(m) <= Power8(n)
    decreases n
  {
    if m < n {
      Power8Grows(m, n - 1);
    } else if n > 0 {
      Power8Grows(n - 1, n - 1);
    }
  }

  lemma TimesPower(d: nat, p: nat, low: nat, r: nat)
    requires r < p
    ensures d >= low ==> d * p + r >= low * p
    ensures d < low ==> d * p + r < low * p
  {
    if d < low {
      assert (d + 1) * p <= low * p;
    } else {
      assert d * p >= low * p;
    }
  }

  /** With no zero in front an octal number fits 32 bits up to eleven digits, of which a first of eleven is at most 3. */
  lemma OctalFits(s: string)
    requires IsOctal(s) && s != "" && s[0] != '0'
    ensures OctalValue(s) < 0x1_0000_0000 <==> |s| < 11 || (|s| == 11 && s[0] <= '3')
  {
    var rest := s[1..];
    assert s == [s[0]] + rest;
    assert IsOctal(rest) by { IsOctalParts([s[0]], rest); }
    OctalPlaces([s[0]], rest);
    OctalDigits();
    OctalBelow(rest);
    OctalBelow(s);
    Powers();
    var d, p := s[0] as int - 48, Power8(|rest|);
    hide OctalValue, Power8;
    if |s| < 11 {
      Power8Grows(|s|, 10);
    } else if |s| == 11 {
      TimesPower(d, p, 4, OctalValue(rest));
    } else {
      Power8Grows(11, |rest|);
      TimesPower(d, p, 1, OctalValue(rest));
    }
  }

  /** A mode is octal digits, with a plus sign or without, whose number fits 32 bits. */
  lemma ModeIs(digits: string)
    requires digits != "" && digits[0] != '+'
    ensures ParseMode("+" + digits) == ParseMode(digits)
    ensures ParseMode(digits) ==
            if IsOctal(digits) && OctalValue(digits) < 0x1_0000_0000 then Some(OctalValue(digits)) else None
    ensures ParseMode("") == ParseMode("+") == ParseMode("++" + digits) == None
  {
    assert ("+" + digits)[1..] == digits && ("++" + digits)[1..] == "+" + digits;
    assert "+"[1..] == "" && !IsOctal("+" + digits) by { assert ("+" + digits)[0] == '+'; }
  }

  // ---- Which lines are taken ----

  /** The fields an entry of a section may have. */
  predicate EntryOk(section: Section, f: seq<string>)
    requires f != []
  {
    match section
    case NoSection => false
    case Meta =>
      |f| == 2 &&
      (f[0] == "name" || f[0] == "podman"
       || (f[0] == "holder" && ValidHolder(f[1])) || (f[0] == "holder-process" && ValidProcess(f[1]))
       || (f[0] == "tty" && (f[1] == "auto" || f[1] == "never")))
    case Vars => |f| == 2 && f[0] != ""
    case Require => |f| == 2
    case EnsureDir => |f| == 2 && ParseMode(f[0]).Some?
    case Provider => (|f| == 3 && f[0] == "mount" && ValidPattern(f[1])) || (|f| == 4 && f[0] == "mount-as")
    case DbusSection => |f| == 2 && (f[0] == "proxy" || f[0] == "upstream" || f[0] == "socket" || f[0] == "arg")
    case PodmanSection => (|f| == 2 && f[0] == "arg") || (|f| == 3 && f[0] == "env" && ValidEnvName(f[1]))
    case _ => (f[0] == "s" && |f| <= 2) || (f[0] == "r" && |f| == 4) || (f[0] == "a" && |f| == 2)
  }

  lemma EntryTakenIff(p: Plan, section: Section, provider: string, f: seq<string>)
    requires f != []
    ensures EntryLine(p, section, provider, f).Some? <==> EntryOk(section, f)
  {
    hide ValidHolder, ValidProcess, ValidPattern, ValidEnvName, ParseMode;
  }

  /** The words a section header may begin with. */
  predicate SectionName(head: string) {
    || head == "meta" || head == "vars" || head == "require" || head == "ensure-dir"
    || head == "dbus" || head == "podman" || head == "holder" || head == "run"
  }

  predicate Opens(raw: string, head: string, rest: string) {
    raw == "[" + head + "]" || raw == "[" + head + " " + rest + "]"
  }

  predicate OpensProvider(raw: string, name: string) {
    name != "" && raw == "[provider " + name + "]"
  }

  /** `[NAME]` or `[NAME anything]`, and `[provider NAME]` with a nonempty name. */
  ghost predicate HeaderOk(raw: string) {
    || (exists head, rest :: SectionName(head) && Opens(raw, head, rest))
    || (exists name :: OpensProvider(raw, name))
  }

  lemma WordsOf(head: string, rest: string)
    requires ' ' !in head
    ensures HeaderWords("[" + head + "]") == Some((head, ""))
    ensures HeaderWords("[" + head + " " + rest + "]") == Some((head, rest))
  {
    var one, two := "[" + head + "]", "[" + head + " " + rest + "]";
    assert one[1..|one| - 1] == head && two[1..|two| - 1] == head + " " + rest;
    FirstSpace(head, rest);
    hide IndexOf;
    assert (head + " " + rest)[..|head|] == head && (head + " " + rest)[|head| + 1..] == rest;
  }

  lemma FirstSpace(head: string, rest: string)
    requires ' ' !in head
    ensures IndexOf(head, ' ') == None && IndexOf(head + " " + rest, ' ') == Some(|head|)
  {
    var s := head + " " + rest;
    assert s[|head|] == ' ';
    assert forall i | 0 <= i < |head| :: s[i] == head[i] && head[i] in head;
    FirstIs(s, |head|);
  }

  lemma FirstIs(s: string, k: nat)
    requires k < |s| && s[k] == ' ' && forall i | 0 <= i < k :: s[i] != ' '
    ensures IndexOf(s, ' ') == Some(k)
  {
    var found := IndexOf(s, ' ').value;
    assert s[found] == ' ' && forall i | 0 <= i < found :: s[i] in s[..found] by {
      assert forall i | 0 <= i < found :: s[..found][i] == s[i];
    }
  }

  lemma WordsBack(raw: string)
    requires HeaderWords(raw).Some?
    ensures var (head, rest) := HeaderWords(raw).value;
      && ' ' !in head
      && ((raw == "[" + head + "]" && rest == "") || raw == "[" + head + " " + rest + "]")
  {
    var inner := raw[1..|raw| - 1];
    assert raw == "[" + inner + "]";
    if IndexOf(inner, ' ').Some? {
      var k := IndexOf(inner, ' ').value;
      assert inner == inner[..k] + " " + inner[k + 1..];
    }
  }

  lemma NamesAreWords()
    ensures forall head :: SectionName(head) || head == "provider" ==> ' ' !in head && ']' !in head
  {}

  lemma TakenByWords(st: Parser, raw: string)
    ensures HeaderLine(st, raw).Some? <==>
            HeaderWords(raw).Some? &&
            (SectionName(HeaderWords(raw).value.0) ||
             (HeaderWords(raw).value.0 == "provider" && HeaderWords(raw).value.1 != ""))
  {
    hide HeaderWords;
  }

  lemma HeaderTakenIff(st: Parser, raw: string)
    ensures HeaderLine(st, raw).Some? <==> HeaderOk(raw)
  {
    TakenByWords(st, raw);
    NamesAreWords();
    hide HeaderLine, SectionName, HeaderWords;
    if HeaderWords(raw).Some? {
      WordsBack(raw);
      var (head, rest) := HeaderWords(raw).value;
      assert Opens(raw, head, rest);
      if head == "provider" && rest != "" {
        assert OpensProvider(raw, rest);
      }
    }
    if name :| OpensProvider(raw, name) {
      WordsOf("provider", name);
      assert "[provider " == "[" + "provider" + " ";
    } else if HeaderOk(raw) {
      var head, rest :| SectionName(head) && Opens(raw, head, rest);
      WordsOf(head, rest);
    }
  }

  /** Opening a section again, a provider's or the bus's too, forgets nothing; a new one begins empty. */
  lemma HeaderKeeps(st: Parser, raw: string)
    requires HeaderLine(st, raw).Some?
    ensures var p := HeaderLine(st, raw).value.plan;
      && p == st.plan.(dbus := p.dbus, providers := p.providers)
      && (p.dbus == st.plan.dbus || (st.plan.dbus.None? && p.dbus == Some(Dbus("", "", "", []))))
      && (forall name <- st.plan.providers :: name in p.providers && p.providers[name] == st.plan.providers[name])
      && (forall name <- p.providers :: name in st.plan.providers || p.providers[name] == [])
  {
    hide HeaderWords;
  }

  /** A text item may leave its text out. */
  lemma TextLeftOut()
    ensures ParseItem(["s"]) == Some(Lit("")) && ParseItem(["s", ""]) == Some(Lit(""))
  {}

  // ---- Whole texts ----

  predicate Comment(raw: string) {
    raw == "" || raw[0] == '#'
  }

  predicate Bracketed(raw: string) {
    raw != "" && raw[0] == '['
  }

  predicate Names(raw: string, word: string) {
    raw == "[" + word + "]" || "[" + word + " " <= raw
  }

  /** The section that a header opens. */
  function SectionOf(raw: string): Section {
    if Names(raw, "meta") then Meta
    else if Names(raw, "vars") then Vars
    else if Names(raw, "require") then Require
    else if Names(raw, "ensure-dir") then EnsureDir
    else if Names(raw, "provider") then Provider
    else if Names(raw, "dbus") then DbusSection
    else if Names(raw, "podman") then PodmanSection
    else if Names(raw, "holder") then Holder
    else if Names(raw, "run") then Run
    else NoSection
  }

  /** The section that line `n` belongs to: that of the last header before it. */
  function SectionAt(lines: seq<string>, n: nat): Section
    requires n <= |lines|
  {
    if n == 0 then NoSection
    else if Bracketed(lines[n - 1]) then SectionOf(lines[n - 1])
    else SectionAt(lines, n - 1)
  }

  /** A comment, a header, an entry of the section it is in, or `plan 1` before any section. */
  ghost predicate LineOk(lines: seq<string>, n: nat)
    requires n < |lines|
  {
    || Comment(lines[n])
    || (Bracketed(lines[n]) && HeaderOk(lines[n]))
    || (!Bracketed(lines[n]) && SectionAt(lines, n) == NoSection && lines[n] == "plan 1")
    || (!Bracketed(lines[n]) && EntryOk(SectionAt(lines, n), Split(lines[n], '\t')))
  }

  function ByHead(head: string): Section {
    if head == "meta" then Meta
    else if head == "vars" then Vars
    else if head == "require" then Require
    else if head == "ensure-dir" then EnsureDir
    else if head == "provider" then Provider
    else if head == "dbus" then DbusSection
    else if head == "podman" then PodmanSection
    else if head == "holder" then Holder
    else if head == "run" then Run
    else NoSection
  }

  lemma HeaderSection(st: Parser, raw: string)
    requires HeaderLine(st, raw).Some?
    ensures HeaderLine(st, raw).value.section == SectionOf(raw) && HeaderLine(st, raw).value.header == st.header
  {
    TakenByWords(st, raw);
    WordsBack(raw);
    NamesAreWords();
    var (head, rest) := HeaderWords(raw).value;
    assert Opens(raw, head, rest);
    SectionByHead(raw, head, rest);
    LineByHead(st, raw);
  }

  lemma LineByHead(st: Parser, raw: string)
    requires HeaderLine(st, raw).Some?
    ensures HeaderWords(raw).Some? && HeaderLine(st, raw).value.section == ByHead(HeaderWords(raw).value.0)
    ensures HeaderLine(st, raw).value.header == st.header
  {
    hide HeaderWords;
  }

  lemma SectionByHead(raw: string, head: string, rest: string)
    requires ' ' !in head && ']' !in head && Opens(raw, head, rest)
    ensures SectionOf(raw) == ByHead(head)
  {
    OneName(raw, head, rest, "meta");
    OneName(raw, head, rest, "vars");
    OneName(raw, head, rest, "require");
    OneName(raw, head, rest, "ensure-dir");
    OneName(raw, head, rest, "provider");
    OneName(raw, head, rest, "dbus");
    OneName(raw, head, rest, "podman");
    OneName(raw, head, rest, "holder");
    OneName(raw, head, rest, "run");
    hide Names, Opens;
  }

  lemma OneName(raw: string, head: string, rest: string, word: string)
    requires ' ' !in head && ' ' !in word && ']' !in head && ']' !in word && Opens(raw, head, rest)
    ensures Names(raw, word) <==> word == head
  {
    assert forall j | 1 <= j <= |head| :: raw[j] == head[j - 1] && head[j - 1] in head;
    assert raw[1 + |head|] == ' ' || raw[1 + |head|] == ']';
    if Names(raw, word) {
      assert forall j | 1 <= j <= |word| :: raw[j] == word[j - 1] && word[j - 1] in word;
      assert raw[1 + |word|] == ' ' || raw[1 + |word|] == ']';
      assert raw[1..1 + |word|] == word && raw[1..1 + |head|] == head;
    }
  }

  lemma StepTakenIff(st: Parser, lines: seq<string>, n: nat)
    requires n < |lines| && st.section == SectionAt(lines, n)
    ensures Step(st, lines[n]).Some? <==> LineOk(lines, n)
    ensures Step(st, lines[n]).Some? ==>
              && Step(st, lines[n]).value.section == SectionAt(lines, n + 1)
              && (Step(st, lines[n]).value.header <==>
                    st.header || (SectionAt(lines, n) == NoSection && lines[n] == "plan 1"))
  {
    var raw := lines[n];
    hide HeaderLine, EntryLine, HeaderOk, EntryOk, SectionOf;
    if Bracketed(raw) {
      HeaderTakenIff(st, raw);
      if HeaderLine(st, raw).Some? {
        HeaderSection(st, raw);
      }
    } else if !Comment(raw) {
      EntryTakenIff(st.plan, st.section, st.provider, Split(raw, '\t'));
      NoEntry(Split(raw, '\t'));
    }
  }

  lemma NoEntry(f: seq<string>)
    requires f != []
    ensures !EntryOk(NoSection, f)
  {}

  ghost predicate AllOk(lines: seq<string>, n: nat)
    requires n <= |lines|
  {
    forall k: nat | k < n :: LineOk(lines, k)
  }

  predicate PlanOne(lines: seq<string>, k: nat)
    requires k < |lines|
  {
    SectionAt(lines, k) == NoSection && lines[k] == "plan 1"
  }

  predicate Said(lines: seq<string>, n: nat)
    requires n <= |lines|
  {
    exists k: nat | k < n :: PlanOne(lines, k)
  }

  lemma OneMoreLine(lines: seq<string>, n: nat)
    requires n < |lines|
    ensures AllOk(lines, n + 1) <==> AllOk(lines, n) && LineOk(lines, n)
    ensures Said(lines, n + 1) <==> Said(lines, n) || PlanOne(lines, n)
  {
    hide LineOk, PlanOne;
  }

  /** Where the parser stands after the first `n` lines: it has taken them exactly if each is allowed where it is. */
  lemma {:induction false} TakenSoFar(lines: seq<string>, n: nat)
    requires n <= |lines|
    ensures Steps(START, lines[..n]).Some? <==> AllOk(lines, n)
    ensures Steps(START, lines[..n]).Some? ==>
              var st := Steps(START, lines[..n]).value;
              st.section == SectionAt(lines, n) && (st.header <==> Said(lines, n))
    decreases n
  {
    if n == 0 {
      assert lines[..0] == [];
    } else {
      TakenSoFar(lines, n - 1);
      OneMoreLine(lines, n - 1);
      assert lines[..n] == lines[..n - 1] + [lines[n - 1]];
      StepsAppend(START, lines[..n - 1], [lines[n - 1]]);
      if Steps(START, lines[..n - 1]).Some? {
        var st := Steps(START, lines[..n - 1]).value;
        StepTakenIff(st, lines, n - 1);
        OneStep(st, lines[n - 1]);
      }
      hide LineOk, Step, Steps, SectionAt, AllOk, Said;
    }
  }

  lemma OneStep(st: Parser, raw: string)
    ensures Steps(st, [raw]) == Step(st, raw)
  {
    hide Step;
    assert [raw][1..] == [];
    assert forall next: Parser :: Steps(next, []) == Some(next);
  }

  /** What a plan must have when it is read. */
  predicate Ready(p: Plan) {
    && Rooted(p.podman) && p.runArgv != []
    && (p.dbus.Some? ==> Rooted(p.dbus.value.proxy) && p.dbus.value.upstream != "" && p.dbus.value.socket != "")
    && (p.holder.Some? ==> 2 <= |p.holderArgv|)
  }

  predicate Rooted(path: string) {
    path != "" && path[0] as int == 47
  }

  /**
    A text is a plan exactly if every line is allowed where it stands, `plan 1` is said
    before the first section, and what was read has an absolute podman, a run command,
    with a bus all three of its paths, and with a holder the command to create it.
  */
  lemma ParsedIff(text: string)
    ensures var lines := Lines(text);
      Parse(text).Some? <==>
      && AllOk(lines, |lines|) && Said(lines, |lines|)
      && Steps(START, lines).Some? && Ready(Steps(START, lines).value.plan)
    ensures Parse(text).Some? ==> Parse(text).value == Steps(START, Lines(text)).value.plan
  {
    var lines := Lines(text);
    TakenSoFar(lines, |lines|);
    assert lines[..|lines|] == lines;
    hide AllOk, Said, Steps, Lines;
  }

  lemma TwoFields(first: string, second: string)
    requires '\t' !in first && '\t' !in second
    ensures Split(first + "\t" + second, '\t') == [first, second]
  {
    SplitPart(first, second, '\t');
    SplitPart(second, "", '\t');
    assert first + ['\t'] + second == first + "\t" + second;
  }

  lemma HeaderSteps(st: Parser)
    ensures Step(st, "[meta]") == Some(st.(section := Meta)) && Step(st, "[run]") == Some(st.(section := Run))
  {
    WordsOf("meta", "");
    WordsOf("run", "");
    assert "[" + "meta" + "]" == "[meta]" && "[" + "run" + "]" == "[run]";
    hide HeaderWords;
  }

  lemma PodmanStep(st: Parser, podman: string)
    requires st.section == Meta && '\t' !in podman
    ensures Step(st, "podman\t" + podman) == Some(st.(plan := st.plan.(podman := podman)))
  {
    TwoFields("podman", podman);
    assert "podman" + "\t" + podman == "podman\t" + podman;
    assert ("podman\t" + podman)[0] == 'p';
    hide Split, HeaderLine;
  }

  lemma TextStep(st: Parser, word: string)
    requires st.section == Run && '\t' !in word
    ensures Step(st, "s\t" + word) == Some(st.(plan := st.plan.(runArgv := st.plan.runArgv + [Lit(word)])))
  {
    TwoFields("s", word);
    assert "s" + "\t" + word == "s\t" + word;
    assert ("s\t" + word)[0] == 's';
    hide Split, HeaderLine;
  }

  /** The shortest plan: what is not said is empty, and the terminal is not asked for. */
  lemma ShortestPlan(podman: string, word: string)
    requires Rooted(podman) && '\t' !in podman && '\t' !in word
    ensures ParseLines(["plan 1", "[meta]", "podman\t" + podman, "[run]", "s\t" + word]) ==
            Some(Plan("", podman, None, None, false, [], [], [], map[], None, [], [], [], [Lit(word)]))
  {
    hide Step, Steps;
    Begins();
    var begun := Parser(EMPTY, NoSection, "", true);
    var inMeta := begun.(section := Meta);
    var inRun := Parser(EMPTY.(podman := podman), Run, "", true);
    HeaderSteps(begun);
    PodmanStep(inMeta, podman);
    HeaderSteps(inRun.(section := Meta));
    TextStep(inRun, word);
    FiveSteps(START, begun, inMeta, inRun.(section := Meta), inRun, "plan 1", "[meta]", "podman\t" + podman, "[run]",
              "s\t" + word);
    assert [] + [Lit(word)] == [Lit(word)];
  }

  const EMPTY := Plan("", "", None, None, false, [], [], [], map[], None, [], [], [], [])

  lemma Begins()
    ensures Step(START, "plan 1") == Some(Parser(EMPTY, NoSection, "", true))
  {}

  lemma FiveSteps(a: Parser, b: Parser, c: Parser, d: Parser, e: Parser,
        r0: string, r1: string, r2: string, r3: string, r4: string)
    requires Step(a, r0) == Some(b) && Step(b, r1) == Some(c) && Step(c, r2) == Some(d) && Step(d, r3) == Some(e)
    ensures Steps(a, [r0, r1, r2, r3, r4]) == Step(e, r4)
  {
    TwoSteps(a, r0, r1, [r2, r3, r4]);
    TwoSteps(c, r2, r3, [r4]);
    OneStep(e, r4);
    hide Step, Steps;
    assert [r0, r1] + [r2, r3, r4] == [r0, r1, r2, r3, r4] && [r2, r3] + [r4] == [r2, r3, r4];
  }

  lemma TwoSteps(st: Parser, first: string, second: string, rest: seq<string>)
    requires Step(st, first).Some? && Step(Step(st, first).value, second).Some?
    ensures Steps(st, [first, second] + rest) == Steps(Step(Step(st, first).value, second).value, rest)
  {
    hide Step;
    var lines := [first, second] + rest;
    assert lines[1..] == [second] + rest && ([second] + rest)[1..] == rest;
  }

  // ---- What the printer refuses ----

  predicate OfPair(p: Pair, f: string) {
    f == p.0 || f == p.1
  }

  predicate OfPairs(ps: seq<Pair>, f: string) {
    exists p | p in ps :: OfPair(p, f)
  }

  predicate OfRules(rs: seq<Rule>, f: string) {
    exists r | r in rs ::
      match r
      case Mount(pattern, options) => f == pattern || f == options
      case MountAs(source, destination, options) => f == source || f == destination || f == options
  }

  predicate OfItems(items: seq<Item>, f: string) {
    exists i | i in items ::
      match i
      case Lit(text) => f == text
      case Var(name, prefix, suffix) => f == name || f == prefix || f == suffix
      case Splice(provider) => f == provider
  }

  predicate OfHolder(holder: Option<string>, process: Option<string>, f: string) {
    holder.Some? && (f == holder.value || (process.Some? && f == process.value))
  }

  predicate OfBus(dbus: Option<Dbus>, f: string) {
    dbus.Some? && (f == dbus.value.proxy || f == dbus.value.upstream || f == dbus.value.socket || f in dbus.value.args)
  }

  /** A text of the launch that is printed, but for `tty`; the holder's process is printed with the holder alone. */
  predicate Prints(l: Launch, f: string) {
    || f == l.name || f == l.podman || OfHolder(l.holder, l.holderProcess, f)
    || OfPairs(l.vars, f) || OfPairs(l.require, f) || OfPairs(l.ensureDirs, f)
    || (exists p | p in l.providers :: f == p.0 || OfRules(p.1, f))
    || OfBus(l.dbus, f) || f in l.podmanArgs || OfPairs(l.podmanEnv, f)
    || OfItems(l.holderArgv, f) || OfItems(l.runArgv, f)
  }

  lemma PairsIff(ps: seq<Pair>)
    ensures PairFields(ps) <==> forall f | OfPairs(ps, f) :: Field(f)
  {
    hide Field;
    if forall f | OfPairs(ps, f) :: Field(f) {
      forall p | p in ps
        ensures Field(p.0) && Field(p.1)
      {
        assert OfPair(p, p.0) && OfPair(p, p.1);
        assert OfPairs(ps, p.0) && OfPairs(ps, p.1);
        hide OfPairs;
      }
    }
  }

  lemma RulesIff(rs: seq<Rule>)
    ensures (forall r <- rs :: RuleFields(r)) <==> forall f | OfRules(rs, f) :: Field(f)
  {
    hide Field;
    forall r | r in rs
      ensures r.Mount? ==> OfRules(rs, r.pattern) && OfRules(rs, r.options)
      ensures r.MountAs? ==> OfRules(rs, r.source) && OfRules(rs, r.destination) && OfRules(rs, r.options)
    {}
  }

  lemma ItemsIff(items: seq<Item>)
    ensures (forall i <- items :: ItemFields(i)) <==> forall f | OfItems(items, f) :: Field(f)
  {
    hide Field;
    forall i | i in items
      ensures i.Lit? ==> OfItems(items, i.text)
      ensures i.Var? ==> OfItems(items, i.name) && OfItems(items, i.prefix) && OfItems(items, i.suffix)
      ensures i.Splice? ==> OfItems(items, i.provider)
    {}
  }

  /** A launch is refused by the printer exactly if a printed text other than `tty` holds a TAB or a newline. */
  lemma RenderRefusesIff(l: Launch)
    ensures Render(l).None? <==> exists f | Prints(l, f) :: Holds(f, 9) || Holds(f, 10)
  {
    hide PlanLines, Join;
    forall f: string
      ensures Field(f) <==> !Holds(f, 9) && !Holds(f, 10)
    {
      HoldsIff(f, '\t');
      HoldsIff(f, '\n');
    }
    hide Holds, Field;
    PrintedIff(l);
  }

  lemma PrintedIff(l: Launch)
    ensures AllFields(l) <==> forall f | Prints(l, f) :: Field(f)
  {
    PairsIff(l.vars);
    PairsIff(l.require);
    PairsIff(l.ensureDirs);
    PairsIff(l.podmanEnv);
    ItemsIff(l.holderArgv);
    ItemsIff(l.runArgv);
    forall p | p in l.providers
      ensures (forall r <- p.1 :: RuleFields(r)) <==> forall f | OfRules(p.1, f) :: Field(f)
    {
      RulesIff(p.1);
    }
    hide Field, OfPairs, OfRules, OfItems, PairFields, RuleFields, ItemFields;
  }
}
