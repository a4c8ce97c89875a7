/**
  Printing a plan and parsing it back. What `render` accepts is more than what
  survives: a carriage return at the end of a line is lost, a name that starts
  with `#` or `[` turns its line into a comment or a header, a `tty` of several
  lines puts lines of its own into the plan, and some values the parser refuses.
  `WellFormed` is the exact condition.
*/
module PlanRoundTrip {
  import opened Wrappers
  import opened Text
  import opened Plan

  // ---- What a launch means to the parser ----

  function Mode(p: Pair): (nat, string) {
    (if ParseMode(p.0).Some? then ParseMode(p.0).value else 0, p.1)
  }

  function Modes(ps: seq<Pair>): seq<(nat, string)> {
    if ps == [] then [] else [Mode(ps[0])] + Modes(ps[1..])
  }

  function AddProviders(m: map<string, seq<Rule>>, ps: seq<(string, seq<Rule>)>): map<string, seq<Rule>>
    decreases |ps|
  {
    if ps == [] then m else AddProviders(m[ps[0].0 := ps[0].1], ps[1..])
  }

  function PlanOf(l: Launch): Plan {
    Plan(l.name, l.podman, l.holder, if l.holder.Some? then l.holderProcess else None, l.tty == "auto", l.require, l.vars,
         Modes(l.ensureDirs), AddProviders(map[], l.providers), l.dbus, l.podmanArgs, l.podmanEnv, l.holderArgv, l.runArgv)
  }

  /** The two values `tty` can have. */
  predicate TtyOk(tty: string) {
    tty == "auto" || tty == "never"
  }

  /** A launch with any other `tty` has no plan. */
  function Meaning(l: Launch): Option<Plan> {
    if TtyOk(l.tty) then Some(PlanOf(l)) else None
  }

  /** An attribute set has every name once. */
  predicate Distinct(ps: seq<(string, seq<Rule>)>) {
    forall i, j | 0 <= i < j < |ps| :: ps[i].0 != ps[j].0
  }

  // ---- When the parser reads the lines as they were meant ----

  predicate HeadOk(name: string) {
    name == "" || (name[0] != '#' && name[0] != '[')
  }

  predicate HeadsOk(ps: seq<Pair>) {
    forall p <- ps :: HeadOk(p.0)
  }

  /** No entry line opens a comment or a section. */
  predicate NamesOk(l: Launch) {
    HeadsOk(l.vars) && HeadsOk(l.require) && HeadsOk(l.ensureDirs)
  }

  predicate HolderOk(holder: Option<string>, process: Option<string>) {
    holder.Some? ==> ValidHolder(holder.value) && (process.Some? ==> ValidProcess(process.value))
  }

  predicate MetaOk(l: Launch) {
    TtyOk(l.tty) && HolderOk(l.holder, l.holderProcess)
  }

  predicate NamesNotEmpty(ps: seq<Pair>) {
    forall p <- ps :: p.0 != ""
  }

  predicate ModeOk(p: Pair) {
    ParseMode(p.0).Some?
  }

  predicate ModesOk(ps: seq<Pair>) {
    forall p <- ps :: ModeOk(p)
  }

  predicate RuleOk(r: Rule) {
    r.Mount? ==> ValidPattern(r.pattern)
  }

  predicate RulesOk(rs: seq<Rule>) {
    forall r <- rs :: RuleOk(r)
  }

  predicate ProvidersOk(ps: seq<(string, seq<Rule>)>) {
    forall p <- ps :: p.0 != "" && RulesOk(p.1)
  }

  predicate EnvOk(env: seq<Pair>) {
    forall p <- env :: ValidEnvName(p.0)
  }

  /** The checks the parser makes on values. */
  predicate Valid(l: Launch) {
    && MetaOk(l) && NamesNotEmpty(l.vars) && ModesOk(l.ensureDirs) && ProvidersOk(l.providers) && EnvOk(l.podmanEnv)
    && (l.dbus.Some? ==>
          var d := l.dbus.value;
          d.proxy != "" && d.proxy[0] == '/' && d.upstream != "" && d.socket != "")
    && l.podman != "" && l.podman[0] == '/'
    && l.runArgv != []
    && (l.holder.Some? ==> |l.holderArgv| >= 2)
  }

  // ---- One entry line ----

  function Entered(st: Parser, fields: seq<string>): Option<Parser> {
    match EntryLine(st.plan, st.section, st.provider, fields)
    case None => None
    case Some(plan) => Some(st.(plan := plan))
  }

  lemma NoSteps(st: Parser)
    ensures Steps(st, []) == Some(st)
  {}

  /** An entry line followed by others: the fields come back as they were printed. */
  lemma EntryStep(st: Parser, fields: seq<string>, rest: seq<string>)
    requires |fields| >= 2 && (forall i | 0 <= i < |fields| :: '\t' !in fields[i]) && HeadOk(fields[0])
    requires st.section != NoSection
    ensures Steps(st, [Tab(fields)] + rest) ==
            match Entered(st, fields)
            case None => None
            case Some(next) => Steps(next, rest)
  {
    assert forall f <- fields :: '\t' !in f;
    SplitJoin(fields, '\t');
    assert Tab(fields) == fields[0] + ['\t'] + Join(fields[1..], '\t');
    assert ([Tab(fields)] + rest)[1..] == rest;
  }

  lemma EntryLeads(st: Parser, fields: seq<string>, rest: seq<string>, next: Parser)
    requires |fields| >= 2 && (forall i | 0 <= i < |fields| :: '\t' !in fields[i]) && HeadOk(fields[0])
    requires st.section != NoSection && Entered(st, fields) == Some(next)
    ensures Steps(st, [Tab(fields)] + rest) == Steps(next, rest)
  {
    hide EntryLine;
    EntryStep(st, fields, rest);
  }

  lemma {:induction false} VarsSteps(st: Parser, ps: seq<Pair>)
    requires st.section == Vars && PairFields(ps) && HeadsOk(ps)
    ensures Steps(st, PairLines(ps)) ==
            if NamesNotEmpty(ps) then Some(st.(plan := st.plan.(derived := st.plan.derived + ps))) else None
    decreases |ps|
  {
    if ps == [] {
      assert st.plan.derived + ps == st.plan.derived;
    } else {
      EntryStep(st, [ps[0].0, ps[0].1], PairLines(ps[1..]));
      var next := st.(plan := st.plan.(derived := st.plan.derived + [ps[0]]));
      VarsSteps(next, ps[1..]);
      assert st.plan.derived + [ps[0]] + ps[1..] == st.plan.derived + ps;
      assert NamesNotEmpty(ps) <==> ps[0].0 != "" && NamesNotEmpty(ps[1..]);
    }
  }

  lemma {:induction false} RequireSteps(st: Parser, ps: seq<Pair>)
    requires st.section == Require && PairFields(ps) && HeadsOk(ps)
    ensures Steps(st, PairLines(ps)) == Some(st.(plan := st.plan.(require := st.plan.require + ps)))
    decreases |ps|
  {
    if ps == [] {
      assert st.plan.require + ps == st.plan.require;
    } else {
      EntryStep(st, [ps[0].0, ps[0].1], PairLines(ps[1..]));
      RequireSteps(st.(plan := st.plan.(require := st.plan.require + [ps[0]])), ps[1..]);
      assert st.plan.require + [ps[0]] + ps[1..] == st.plan.require + ps;
    }
  }

  function WithMode(st: Parser, p: Pair): Parser {
    st.(plan := st.plan.(ensureDirs := st.plan.ensureDirs + [Mode(p)]))
  }

  lemma EnsureDirStep(st: Parser, p: Pair, rest: seq<string>)
    requires st.section == EnsureDir && Field(p.0) && Field(p.1) && HeadOk(p.0)
    ensures Steps(st, [PairLine(p)] + rest) == if ModeOk(p) then Steps(WithMode(st, p), rest) else None
  {
    EntryStep(st, [p.0, p.1], rest);
  }

  lemma {:induction false} EnsureDirSteps(st: Parser, ps: seq<Pair>)
    requires st.section == EnsureDir && PairFields(ps) && HeadsOk(ps)
    ensures Steps(st, PairLines(ps)) ==
            if ModesOk(ps) then Some(st.(plan := st.plan.(ensureDirs := st.plan.ensureDirs + Modes(ps)))) else None
    decreases |ps|
  {
    hide ParseMode;
    if ps == [] {
      assert st.plan.ensureDirs + Modes(ps) == st.plan.ensureDirs;
    } else {
      hide Steps, Mode, ModeOk;
      EnsureDirStep(st, ps[0], PairLines(ps[1..]));
      assert ModesOk(ps) <==> ModeOk(ps[0]) && ModesOk(ps[1..]) by {
        assert ps == [ps[0]] + ps[1..];
      }
      if ModeOk(ps[0]) {
        EnsureDirSteps(WithMode(st, ps[0]), ps[1..]);
        assert st.plan.ensureDirs + [Mode(ps[0])] + Modes(ps[1..]) == st.plan.ensureDirs + Modes(ps);
      }
    }
  }

  function WithRules(st: Parser, rs: seq<Rule>): Parser
    requires st.provider in st.plan.providers
  {
    st.(plan := st.plan.(providers := st.plan.providers[st.provider := st.plan.providers[st.provider] + rs]))
  }

  lemma RuleStep(st: Parser, r: Rule, rest: seq<string>)
    requires st.section == Provider && st.provider in st.plan.providers && RuleFields(r)
    ensures Steps(st, [RuleLine(r)] + rest) == if RuleOk(r) then Steps(WithRules(st, [r]), rest) else None
  {
    hide ValidPattern, Steps;
    match r {
      case Mount(pattern, options) => EntryStep(st, ["mount", pattern, options], rest);
      case MountAs(source, destination, options) => EntryStep(st, ["mount-as", source, destination, options], rest);
    }
  }

  lemma WithRulesTwice(st: Parser, a: seq<Rule>, b: seq<Rule>)
    requires st.provider in st.plan.providers
    ensures WithRules(st, a).provider == st.provider && WithRules(st, a).section == st.section
    ensures st.provider in WithRules(st, a).plan.providers
    ensures WithRules(WithRules(st, a), b) == WithRules(st, a + b)
    ensures WithRules(st, []) == st
  {
    var rules, providers := st.plan.providers[st.provider], st.plan.providers;
    assert rules + a + b == rules + (a + b) && rules + [] == rules;
    assert providers[st.provider := rules + a][st.provider := rules + a + b] == providers[st.provider := rules + a + b];
    assert providers[st.provider := rules] == providers;
  }

  lemma RulesOkStep(rs: seq<Rule>)
    requires rs != []
    ensures RulesOk(rs) <==> RuleOk(rs[0]) && RulesOk(rs[1..])
  {
    hide RuleOk;
    assert rs == [rs[0]] + rs[1..];
  }

  lemma {:induction false} RuleSteps(st: Parser, rs: seq<Rule>)
    requires st.section == Provider && st.provider in st.plan.providers && (forall r <- rs :: RuleFields(r))
    ensures Steps(st, RuleLines(rs)) == if RulesOk(rs) then Some(WithRules(st, rs)) else None
    decreases |rs|
  {
    hide Steps, RuleOk, WithRules, RuleFields;
    if rs == [] {
      NoSteps(st);
      WithRulesTwice(st, [], []);
    } else {
      assert rs[0] in rs && rs == [rs[0]] + rs[1..];
      RuleStep(st, rs[0], RuleLines(rs[1..]));
      RulesOkStep(rs);
      WithRulesTwice(st, [rs[0]], rs[1..]);
      hide RulesOk;
      if RuleOk(rs[0]) {
        RuleSteps(WithRules(st, [rs[0]]), rs[1..]);
      }
    }
  }

  lemma {:induction false} DbusArgSteps(st: Parser, args: seq<string>)
    requires st.section == DbusSection && st.plan.dbus.Some? && (forall a <- args :: Field(a))
    ensures Steps(st, WordLines("arg", args)) ==
            var d := st.plan.dbus.value;
            Some(st.(plan := st.plan.(dbus := Some(d.(args := d.args + args)))))
    decreases |args|
  {
    var d := st.plan.dbus.value;
    if args == [] {
      assert d.args + args == d.args;
    } else {
      assert Field(args[0]);
      EntryStep(st, ["arg", args[0]], WordLines("arg", args[1..]));
      DbusArgSteps(st.(plan := st.plan.(dbus := Some(d.(args := d.args + [args[0]])))), args[1..]);
      assert d.args + [args[0]] + args[1..] == d.args + args;
    }
  }

  lemma {:induction false} PodmanArgSteps(st: Parser, args: seq<string>)
    requires st.section == PodmanSection && (forall a <- args :: Field(a))
    ensures Steps(st, WordLines("arg", args)) == Some(st.(plan := st.plan.(podmanArgs := st.plan.podmanArgs + args)))
    decreases |args|
  {
    if args == [] {
      assert st.plan.podmanArgs + args == st.plan.podmanArgs;
    } else {
      assert Field(args[0]);
      EntryStep(st, ["arg", args[0]], WordLines("arg", args[1..]));
      PodmanArgSteps(st.(plan := st.plan.(podmanArgs := st.plan.podmanArgs + [args[0]])), args[1..]);
      assert st.plan.podmanArgs + [args[0]] + args[1..] == st.plan.podmanArgs + args;
    }
  }

  lemma {:induction false} EnvSteps(st: Parser, env: seq<Pair>)
    requires st.section == PodmanSection && PairFields(env)
    ensures Steps(st, EnvLines(env)) ==
            if EnvOk(env) then Some(st.(plan := st.plan.(podmanEnv := st.plan.podmanEnv + env))) else None
    decreases |env|
  {
    if env == [] {
      assert st.plan.podmanEnv + env == st.plan.podmanEnv;
    } else {
      EntryStep(st, ["env", env[0].0, env[0].1], EnvLines(env[1..]));
      assert EnvOk(env) <==> ValidEnvName(env[0].0) && EnvOk(env[1..]);
      EnvSteps(st.(plan := st.plan.(podmanEnv := st.plan.podmanEnv + [env[0]])), env[1..]);
      assert st.plan.podmanEnv + [env[0]] + env[1..] == st.plan.podmanEnv + env;
    }
  }

  function WithItems(p: Plan, section: Section, items: seq<Item>): Plan {
    if section == Holder then p.(holderArgv := p.holderArgv + items) else p.(runArgv := p.runArgv + items)
  }

  lemma ItemStep(st: Parser, item: Item, rest: seq<string>)
    requires (st.section == Holder || st.section == Run) && ItemFields(item)
    ensures Steps(st, [PrintItem(item)] + rest) == Steps(st.(plan := WithItems(st.plan, st.section, [item])), rest)
  {
    match item
    case Lit(text) => EntryStep(st, ["s", text], rest);
    case Var(name, prefix, suffix) => EntryStep(st, ["r", name, prefix, suffix], rest);
    case Splice(provider) => EntryStep(st, ["a", provider], rest);
  }

  lemma {:induction false} ItemSteps(st: Parser, items: seq<Item>)
    requires (st.section == Holder || st.section == Run) && (forall i <- items :: ItemFields(i))
    ensures Steps(st, ItemLines(items)) == Some(st.(plan := WithItems(st.plan, st.section, items)))
    decreases |items|
  {
    if items == [] {
      assert WithItems(st.plan, st.section, []) == st.plan;
    } else {
      assert ItemFields(items[0]);
      ItemStep(st, items[0], ItemLines(items[1..]));
      ItemSteps(st.(plan := WithItems(st.plan, st.section, [items[0]])), items[1..]);
      WithItemsTwice(st.plan, st.section, items);
    }
  }

  lemma WithItemsTwice(p: Plan, section: Section, items: seq<Item>)
    requires items != []
    ensures WithItems(WithItems(p, section, [items[0]]), section, items[1..]) == WithItems(p, section, items)
  {
    assert p.holderArgv + [items[0]] + items[1..] == p.holderArgv + items;
    assert p.runArgv + [items[0]] + items[1..] == p.runArgv + items;
  }

  // ---- One section ----

  lemma HeaderStep(st: Parser, head: string, rest: seq<string>)
    requires ' ' !in head
    ensures HeaderWords(Header(head)) == Some((head, ""))
    ensures Steps(st, [Header(head)] + rest) ==
            match HeaderLine(st, Header(head))
            case None => None
            case Some(next) => Steps(next, rest)
  {
    var raw := Header(head);
    assert raw[0] == '[' && raw[1..|raw| - 1] == head;
    assert ([raw] + rest)[1..] == rest;
  }

  lemma HeaderLeads(st: Parser, head: string, rest: seq<string>, next: Parser)
    requires ' ' !in head && HeaderLine(st, Header(head)) == Some(next)
    ensures Steps(st, [Header(head)] + rest) == Steps(next, rest)
  {
    hide HeaderLine, Header;
    HeaderStep(st, head, rest);
  }

  function SectionOf(head: string): Section {
    if head == "meta" then Meta
    else if head == "vars" then Vars
    else if head == "require" then Require
    else if head == "ensure-dir" then EnsureDir
    else if head == "holder" then Holder
    else if head == "podman" then PodmanSection
    else if head == "run" then Run
    else NoSection
  }

  lemma Opens(st: Parser, head: string, rest: seq<string>)
    requires SectionOf(head) != NoSection
    ensures Steps(st, [Header(head)] + rest) == Steps(st.(section := SectionOf(head)), rest)
  {
    hide Steps;
    assert ' ' !in head;
    HeaderStep(st, head, rest);
  }

  lemma ProviderHeaderStep(st: Parser, name: string, rest: seq<string>)
    ensures HeaderWords(Header("provider " + name)) == Some(("provider", name))
    ensures Steps(st, [Header("provider " + name)] + rest) ==
            match HeaderLine(st, Header("provider " + name))
            case None => None
            case Some(next) => Steps(next, rest)
  {
    var raw := Header("provider " + name);
    var inner := raw[1..|raw| - 1];
    assert inner == "provider " + name;
    assert inner[8] == ' ' && inner[..8] == "provider" && inner[9..] == name;
    assert IndexOf(inner, ' ') == Some(8) by {
      var k := IndexOf(inner, ' ').value;
      assert forall i | 0 <= i < 8 :: inner[i] == "provider"[i] != ' ';
      assert forall i | 0 <= i < k :: inner[..k][i] != ' ';
    }
    assert raw[0] == '[' && ([raw] + rest)[1..] == rest;
  }

  function WithProvider(st: Parser, name: string, rules: seq<Rule>): Parser {
    st.(section := Provider, provider := name, plan := st.plan.(providers := st.plan.providers[name := rules]))
  }

  lemma ProviderOpens(st: Parser, name: string, rest: seq<string>)
    requires name !in st.plan.providers
    ensures Steps(st, [Header("provider " + name)] + rest) ==
            if name != "" then Steps(WithProvider(st, name, []), rest) else None
  {
    ProviderHeaderStep(st, name, rest);
  }

  lemma ProviderBlockSteps(st: Parser, name: string, rules: seq<Rule>, rest: seq<string>)
    requires name !in st.plan.providers && forall r <- rules :: RuleFields(r)
    ensures Steps(st, [Header("provider " + name)] + RuleLines(rules) + rest) ==
            if name != "" && RulesOk(rules) then Steps(WithProvider(st, name, rules), rest) else None
  {
    hide Steps, RuleLines, RulesOk, Header, RuleFields;
    assert [Header("provider " + name)] + RuleLines(rules) + rest == [Header("provider " + name)] + (RuleLines(rules) + rest);
    ProviderOpens(st, name, RuleLines(rules) + rest);
    var named := WithProvider(st, name, []);
    StepsAppend(named, RuleLines(rules), rest);
    RuleSteps(named, rules);
    assert named.plan.providers[name] + rules == rules;
    assert named.plan.providers[name := rules] == st.plan.providers[name := rules];
  }

  lemma {:induction false} ProviderSteps(st: Parser, ps: seq<(string, seq<Rule>)>)
    requires Distinct(ps) && (forall p <- ps :: Field(p.0) && forall r <- p.1 :: RuleFields(r))
    requires forall p <- ps :: p.0 !in st.plan.providers
    ensures match Steps(st, ProviderBlocks(ps))
            case None => !ProvidersOk(ps)
            case Some(t) => ProvidersOk(ps) && t.header == st.header
                            && t.plan == st.plan.(providers := AddProviders(st.plan.providers, ps))
    decreases |ps|
  {
    if ps != [] {
      assert ps[0] in ps;
      ProvidersOkStep(ps);
      hide Steps, RulesOk, ProvidersOk, RuleLines;
      ProviderBlockSteps(st, ps[0].0, ps[0].1, ProviderBlocks(ps[1..]));
      if ps[0].0 != "" && RulesOk(ps[0].1) {
        ProviderSteps(WithProvider(st, ps[0].0, ps[0].1), ps[1..]);
      }
    } else {
      NoSteps(st);
    }
  }

  lemma ProvidersOkStep(ps: seq<(string, seq<Rule>)>)
    requires ps != []
    ensures ProvidersOk(ps) <==> ps[0].0 != "" && RulesOk(ps[0].1) && ProvidersOk(ps[1..])
  {
    hide RulesOk;
    assert ps == [ps[0]] + ps[1..];
  }

  // ---- The whole plan ----

  function WithNames(st: Parser, name: string, podman: string): Parser {
    st.(plan := st.plan.(name := name, podman := podman))
  }

  lemma Renamed(st: Parser, name: string, rest: seq<string>)
    requires st.section == Meta && Field(name)
    ensures Steps(st, [Tab(["name", name])] + rest) == Steps(st.(plan := st.plan.(name := name)), rest)
  {
    hide Steps, Tab;
    EntryLeads(st, ["name", name], rest, st.(plan := st.plan.(name := name)));
  }

  lemma NamesLead(st: Parser, name: string, podman: string, rest: seq<string>)
    requires st.section == Meta && Field(name) && Field(podman)
    ensures Steps(st, [Tab(["name", name])] + ([Tab(["podman", podman])] + rest)) == Steps(WithNames(st, name, podman), rest)
  {
    hide Steps, Tab;
    var named := st.(plan := st.plan.(name := name));
    Renamed(st, name, [Tab(["podman", podman])] + rest);
    EntryLeads(named, ["podman", podman], rest, WithNames(st, name, podman));
  }

  lemma MetaSteps(st: Parser, l: Launch)
    requires AllFields(l) && Field(l.tty)
    ensures Steps(st, [Header("meta")] + MetaLines(l)) ==
            if MetaOk(l) then
              Some(st.(section := Meta, plan := st.plan.(
                name := l.name, podman := l.podman, ttyAuto := l.tty == "auto",
                holder := if l.holder.Some? then l.holder else st.plan.holder,
                holderProcess := if l.holder.Some? && l.holderProcess.Some? then l.holderProcess else st.plan.holderProcess)))
            else None
  {
    hide ValidHolder, ValidProcess, Steps, Tab;
    var rest := HolderLines(l.holder, l.holderProcess);
    var inside := st.(section := Meta);
    var named := WithNames(inside, l.name, l.podman);
    assert MetaLines(l) == [Tab(["name", l.name])] + ([Tab(["podman", l.podman])] + ([Tab(["tty", l.tty])] + rest)) by {
      hide HolderLines;
    }
    hide HolderLines;
    Opens(st, "meta", MetaLines(l));
    NamesLead(inside, l.name, l.podman, [Tab(["tty", l.tty])] + rest);
    TtyStep(named, l.tty, rest);
    HolderSteps(WithTty(named, l.tty), l.holder, l.holderProcess);
  }

  function WithTty(st: Parser, tty: string): Parser {
    st.(plan := st.plan.(ttyAuto := tty == "auto"))
  }

  lemma TtyStep(st: Parser, tty: string, rest: seq<string>)
    requires st.section == Meta && Field(tty)
    ensures Steps(st, [Tab(["tty", tty])] + rest) == if TtyOk(tty) then Steps(WithTty(st, tty), rest) else None
  {
    EntryStep(st, ["tty", tty], rest);
  }

  lemma HolderSteps(st: Parser, holder: Option<string>, process: Option<string>)
    requires st.section == Meta
    requires holder.Some? ==> Field(holder.value) && (process.Some? ==> Field(process.value))
    ensures Steps(st, HolderLines(holder, process)) ==
            if !HolderOk(holder, process) then None
            else
              Some(st.(plan := st.plan.(
                holder := if holder.Some? then holder else st.plan.holder,
                holderProcess := if holder.Some? && process.Some? then process else st.plan.holderProcess)))
  {
    hide ValidHolder, ValidProcess, Steps, Tab;
    if holder.Some? {
      var rest := if process.Some? then [Tab(["holder-process", process.value])] else [];
      var named := st.(plan := st.plan.(holder := holder));
      EntryStep(st, ["holder", holder.value], rest);
      assert Entered(st, ["holder", holder.value]) == if ValidHolder(holder.value) then Some(named) else None;
      if process.Some? {
        ProcessSteps(named, process.value);
      } else {
        NoSteps(named);
      }
    } else {
      NoSteps(st);
    }
  }

  lemma ProcessSteps(st: Parser, process: string)
    requires st.section == Meta && Field(process)
    ensures Steps(st, [Tab(["holder-process", process])]) ==
            if ValidProcess(process) then Some(st.(plan := st.plan.(holderProcess := Some(process)))) else None
  {
    hide ValidProcess, Tab;
    EntryStep(st, ["holder-process", process], []);
    assert [Tab(["holder-process", process])] + [] == [Tab(["holder-process", process])];
  }

  function WithDbus(st: Parser, d: Dbus): Parser {
    st.(plan := st.plan.(dbus := Some(d)))
  }

  lemma DbusLinesSteps(st: Parser, d: Dbus)
    requires st.section == DbusSection && st.plan.dbus == Some(Dbus("", "", "", []))
    requires Field(d.proxy) && Field(d.upstream) && Field(d.socket) && forall a <- d.args :: Field(a)
    ensures Steps(st, DbusLines(d)) == Some(WithDbus(st, d))
  {
    hide Steps, Tab;
    var args := WordLines("arg", d.args);
    assert DbusLines(d) == [Tab(["proxy", d.proxy])] + ([Tab(["upstream", d.upstream])] + ([Tab(["socket", d.socket])] + args));
    var s1 := WithDbus(st, Dbus(d.proxy, "", "", []));
    var s2 := WithDbus(st, Dbus(d.proxy, d.upstream, "", []));
    var s3 := WithDbus(st, Dbus(d.proxy, d.upstream, d.socket, []));
    EntryLeads(st, ["proxy", d.proxy], [Tab(["upstream", d.upstream])] + ([Tab(["socket", d.socket])] + args), s1);
    EntryLeads(s1, ["upstream", d.upstream], [Tab(["socket", d.socket])] + args, s2);
    EntryLeads(s2, ["socket", d.socket], args, s3);
    DbusArgSteps(s3, d.args);
    assert [] + d.args == d.args;
  }

  lemma DbusSteps(st: Parser, dbus: Option<Dbus>)
    requires st.plan.dbus.None?
    requires dbus.Some? ==>
      var d := dbus.value; Field(d.proxy) && Field(d.upstream) && Field(d.socket) && forall a <- d.args :: Field(a)
    ensures Steps(st, DbusBlock(dbus)) ==
            Some(if dbus.Some? then WithDbus(st, dbus.value).(section := DbusSection) else st)
  {
    if dbus.Some? {
      var s0 := WithDbus(st, Dbus("", "", "", [])).(section := DbusSection);
      HeaderStep(st, "dbus", []);
      HeaderLeads(st, "dbus", DbusLines(dbus.value), s0);
      DbusLinesSteps(s0, dbus.value);
    }
  }

  lemma PodmanLinesSteps(st: Parser, args: seq<string>, env: seq<Pair>)
    requires st.section == PodmanSection && (forall a <- args :: Field(a)) && PairFields(env)
    ensures Steps(st, WordLines("arg", args) + EnvLines(env)) ==
            if EnvOk(env) then
              Some(st.(plan := st.plan.(podmanArgs := st.plan.podmanArgs + args, podmanEnv := st.plan.podmanEnv + env)))
            else None
  {
    hide Steps, EnvOk;
    StepsAppend(st, WordLines("arg", args), EnvLines(env));
    PodmanArgSteps(st, args);
    EnvSteps(st.(plan := st.plan.(podmanArgs := st.plan.podmanArgs + args)), env);
  }

  lemma PodmanOpens(st: Parser, args: seq<string>, env: seq<Pair>)
    requires (forall a <- args :: Field(a)) && PairFields(env)
    ensures Steps(st, [Header("podman")] + (WordLines("arg", args) + EnvLines(env))) ==
            if EnvOk(env) then
              Some(st.(section := PodmanSection,
                       plan := st.plan.(podmanArgs := st.plan.podmanArgs + args, podmanEnv := st.plan.podmanEnv + env)))
            else None
  {
    hide Steps, EnvOk, WordLines, EnvLines, Header;
    Opens(st, "podman", WordLines("arg", args) + EnvLines(env));
    PodmanLinesSteps(st.(section := PodmanSection), args, env);
  }

  lemma NoEnv()
    ensures EnvOk([])
  {}

  lemma PodmanSteps(st: Parser, args: seq<string>, env: seq<Pair>)
    requires (forall a <- args :: Field(a)) && PairFields(env)
    ensures Steps(st, PodmanBlock(args, env)) ==
            if EnvOk(env) then
              Some(st.(section := if args != [] || env != [] then PodmanSection else st.section,
                       plan := st.plan.(podmanArgs := st.plan.podmanArgs + args, podmanEnv := st.plan.podmanEnv + env)))
            else None
  {
    hide Steps, EnvOk, WordLines, EnvLines, Header, PairFields;
    if args != [] || env != [] {
      PodmanOpens(st, args, env);
      assert [Header("podman")] + WordLines("arg", args) + EnvLines(env)
          == [Header("podman")] + (WordLines("arg", args) + EnvLines(env));
    } else {
      NoSteps(st);
      NoEnv();
      assert st.plan.podmanArgs + args == st.plan.podmanArgs && st.plan.podmanEnv + env == st.plan.podmanEnv;
    }
  }

  /** The lines up to and with the [ensure-dir] section, and what they leave. */
  function FrontLines(l: Launch): seq<string> {
    ["plan 1"]
    + ([Header("meta")] + MetaLines(l))
    + ([Header("vars")] + PairLines(l.vars))
    + ([Header("require")] + PairLines(l.require))
    + ([Header("ensure-dir")] + PairLines(l.ensureDirs))
  }

  function FrontPlan(l: Launch): Plan {
    DEFAULT_PLAN.(name := l.name, podman := l.podman, ttyAuto := l.tty == "auto", holder := l.holder,
                 holderProcess := if l.holder.Some? then l.holderProcess else None,
                 derived := l.vars, require := l.require, ensureDirs := Modes(l.ensureDirs))
  }

  function MetaPlan(l: Launch): Plan {
    FrontPlan(l).(derived := [], require := [], ensureDirs := [])
  }

  lemma MetaFromStart(l: Launch)
    requires AllFields(l) && Field(l.tty)
    ensures Steps(START, ["plan 1"] + ([Header("meta")] + MetaLines(l))) ==
            if MetaOk(l) then Some(Parser(MetaPlan(l), Meta, "", true)) else None
  {
    StepsAppend(START, ["plan 1"], [Header("meta")] + MetaLines(l));
    assert Steps(START, ["plan 1"]) == Some(START.(header := true));
    hide Steps, MetaOk;
    MetaSteps(START.(header := true), l);
  }

  lemma VarsSection(st: Parser, ps: seq<Pair>)
    requires PairFields(ps) && HeadsOk(ps) && st.plan.derived == []
    ensures Steps(st, [Header("vars")] + PairLines(ps)) ==
            if NamesNotEmpty(ps) then Some(st.(section := Vars, plan := st.plan.(derived := ps))) else None
  {
    hide Steps, NamesNotEmpty, PairLines, Header;
    Opens(st, "vars", PairLines(ps));
    VarsSteps(st.(section := Vars), ps);
    assert [] + ps == ps;
  }

  lemma RequireSection(st: Parser, ps: seq<Pair>)
    requires PairFields(ps) && HeadsOk(ps) && st.plan.require == []
    ensures Steps(st, [Header("require")] + PairLines(ps)) ==
            Some(st.(section := Require, plan := st.plan.(require := ps)))
  {
    hide Steps, PairLines, Header;
    Opens(st, "require", PairLines(ps));
    RequireSteps(st.(section := Require), ps);
    assert [] + ps == ps;
  }

  lemma EnsureDirSection(st: Parser, ps: seq<Pair>)
    requires PairFields(ps) && HeadsOk(ps) && st.plan.ensureDirs == []
    ensures Steps(st, [Header("ensure-dir")] + PairLines(ps)) ==
            if ModesOk(ps) then Some(st.(section := EnsureDir, plan := st.plan.(ensureDirs := Modes(ps)))) else None
  {
    hide Steps, ModesOk, PairLines, Header;
    Opens(st, "ensure-dir", PairLines(ps));
    EnsureDirSteps(st.(section := EnsureDir), ps);
    assert [] + Modes(ps) == Modes(ps);
  }

  lemma ItemSection(st: Parser, head: string, items: seq<Item>)
    requires head == "holder" || head == "run"
    requires forall i <- items :: ItemFields(i)
    ensures Steps(st, [Header(head)] + ItemLines(items)) ==
            Some(st.(section := SectionOf(head), plan := WithItems(st.plan, SectionOf(head), items)))
  {
    hide Steps, ItemLines, Header;
    Opens(st, head, ItemLines(items));
    ItemSteps(st.(section := SectionOf(head)), items);
  }

  lemma FrontSteps(l: Launch)
    requires AllFields(l) && Field(l.tty) && NamesOk(l)
    ensures Steps(START, FrontLines(l)) ==
            if MetaOk(l) && NamesNotEmpty(l.vars) && ModesOk(l.ensureDirs) then
              Some(Parser(FrontPlan(l), EnsureDir, "", true))
            else None
  {
    var meta := ["plan 1"] + ([Header("meta")] + MetaLines(l));
    var vars := [Header("vars")] + PairLines(l.vars);
    var required := [Header("require")] + PairLines(l.require);
    var m, n := MetaPlan(l), MetaPlan(l).(derived := l.vars);
    MetaFromStart(l);
    VarsSection(Parser(m, Meta, "", true), l.vars);
    RequireSection(Parser(n, Vars, "", true), l.require);
    EnsureDirSection(Parser(n.(require := l.require), Require, "", true), l.ensureDirs);
    hide Steps, MetaOk, NamesNotEmpty, ModesOk, NamesOk, AllFields;
    StepsAppend(START, meta, vars);
    StepsAppend(START, meta + vars, required);
    StepsAppend(START, meta + vars + required, [Header("ensure-dir")] + PairLines(l.ensureDirs));
  }

  lemma BackItems(st: Parser, l: Launch)
    requires (forall i <- l.holderArgv :: ItemFields(i)) && (forall i <- l.runArgv :: ItemFields(i))
    requires st.plan.holderArgv == [] && st.plan.runArgv == []
    ensures Steps(st, ([Header("holder")] + ItemLines(l.holderArgv)) + ([Header("run")] + ItemLines(l.runArgv))) ==
            Some(st.(section := Run, plan := st.plan.(holderArgv := l.holderArgv, runArgv := l.runArgv)))
  {
    hide Steps;
    StepsAppend(st, [Header("holder")] + ItemLines(l.holderArgv), [Header("run")] + ItemLines(l.runArgv));
    ItemSection(st, "holder", l.holderArgv);
    ItemSection(st.(section := Holder, plan := WithItems(st.plan, Holder, l.holderArgv)), "run", l.runArgv);
    assert [] + l.holderArgv == l.holderArgv && [] + l.runArgv == l.runArgv;
  }

  function BackLines(l: Launch): seq<string> {
    ProviderBlocks(l.providers)
    + DbusBlock(l.dbus)
    + PodmanBlock(l.podmanArgs, l.podmanEnv)
    + (([Header("holder")] + ItemLines(l.holderArgv)) + ([Header("run")] + ItemLines(l.runArgv)))
  }

  lemma BackSteps(st: Parser, l: Launch)
    requires AllFields(l) && Distinct(l.providers)
    requires st.plan == FrontPlan(l)
    ensures match Steps(st, BackLines(l))
            case None => !(ProvidersOk(l.providers) && EnvOk(l.podmanEnv))
            case Some(t) => ProvidersOk(l.providers) && EnvOk(l.podmanEnv) && t.header == st.header && t.plan == PlanOf(l)
  {
    hide Steps, ProvidersOk, EnvOk;
    var ps, ds, ms := ProviderBlocks(l.providers), DbusBlock(l.dbus), PodmanBlock(l.podmanArgs, l.podmanEnv);
    var items := ([Header("holder")] + ItemLines(l.holderArgv)) + ([Header("run")] + ItemLines(l.runArgv));
    StepsAppend(st, ps, ds);
    StepsAppend(st, ps + ds, ms);
    StepsAppend(st, ps + ds + ms, items);
    ProviderSteps(st, l.providers);
    if Steps(st, ps).Some? {
      var s1 := Steps(st, ps).value;
      DbusSteps(s1, l.dbus);
      var s2 := Steps(s1, ds).value;
      PodmanSteps(s2, l.podmanArgs, l.podmanEnv);
      assert [] + l.podmanArgs == l.podmanArgs && [] + l.podmanEnv == l.podmanEnv;
      if Steps(s2, ms).Some? {
        BackItems(Steps(s2, ms).value, l);
      }
    }
  }

  lemma FrontAndBack(l: Launch)
    ensures PlanLines(l) == FrontLines(l) + BackLines(l)
  {
    hide MetaLines, PairLines, ProviderBlocks, DbusBlock, PodmanBlock, ItemLines, Header;
  }

  /** What the parser makes of the printed lines, when no name is taken for a comment or a header. */
  lemma ParseOfPrinted(l: Launch)
    requires AllFields(l) && Field(l.tty) && Distinct(l.providers) && NamesOk(l)
    ensures ParseLines(PlanLines(l)) == if Valid(l) then Some(PlanOf(l)) else None
  {
    FrontAndBack(l);
    StepsAppend(START, FrontLines(l), BackLines(l));
    hide Steps, FrontLines, BackLines, PlanLines, MetaOk, NamesNotEmpty, ModesOk, ProvidersOk, EnvOk;
    FrontSteps(l);
    BackSteps(Parser(FrontPlan(l), EnsureDir, "", true), l);
  }

  // ---- Carriage returns ----

  function CrPairs(ps: seq<Pair>): seq<Pair> {
    if ps == [] then [] else [(ps[0].0, DropCr(ps[0].1))] + CrPairs(ps[1..])
  }

  function CrRule(r: Rule): Rule {
    match r
    case Mount(pattern, options) => Mount(pattern, DropCr(options))
    case MountAs(source, destination, options) => MountAs(source, destination, DropCr(options))
  }

  function CrRules(rs: seq<Rule>): seq<Rule> {
    if rs == [] then [] else [CrRule(rs[0])] + CrRules(rs[1..])
  }

  function CrProviders(ps: seq<(string, seq<Rule>)>): seq<(string, seq<Rule>)> {
    if ps == [] then [] else [(ps[0].0, CrRules(ps[0].1))] + CrProviders(ps[1..])
  }

  function CrItem(i: Item): Item {
    match i
    case Lit(text) => Lit(DropCr(text))
    case Var(name, prefix, suffix) => Var(name, prefix, DropCr(suffix))
    case Splice(provider) => Splice(DropCr(provider))
  }

  function CrItems(items: seq<Item>): seq<Item> {
    if items == [] then [] else [CrItem(items[0])] + CrItems(items[1..])
  }

  function CrDbus(d: Dbus): Dbus {
    Dbus(DropCr(d.proxy), DropCr(d.upstream), DropCr(d.socket), DropCrs(d.args))
  }

  /** The launch with one carriage return dropped from every field that ends its line. */
  function WithoutFinalCr(l: Launch): Launch {
    l.(name := DropCr(l.name), podman := DropCr(l.podman), tty := DropCr(l.tty),
       holder := if l.holder.Some? then Some(DropCr(l.holder.value)) else None,
       holderProcess := if l.holder.Some? && l.holderProcess.Some? then Some(DropCr(l.holderProcess.value)) else l.holderProcess,
       vars := CrPairs(l.vars), require := CrPairs(l.require), ensureDirs := CrPairs(l.ensureDirs),
       providers := CrProviders(l.providers),
       dbus := if l.dbus.Some? then Some(CrDbus(l.dbus.value)) else None,
       podmanArgs := DropCrs(l.podmanArgs), podmanEnv := CrPairs(l.podmanEnv),
       holderArgv := CrItems(l.holderArgv), runArgv := CrItems(l.runArgv))
  }

  lemma {:induction false} DropCrsAppend(a: seq<string>, b: seq<string>)
    ensures DropCrs(a + b) == DropCrs(a) + DropCrs(b)
    decreases |a|
  {
    if a == [] {
      assert a + b == b;
    } else {
      assert (a + b)[1..] == a[1..] + b;
      DropCrsAppend(a[1..], b);
    }
  }

  lemma DropCrSuffix(a: string, b: string)
    ensures DropCr(a + ['\t'] + b) == a + ['\t'] + DropCr(b)
  {}

  /** Only the last field of a line can lose a carriage return. */
  lemma {:induction false} DropCrTab(fields: seq<string>)
    requires |fields| >= 2
    ensures DropCr(Tab(fields)) == Tab(fields[..|fields| - 1] + [DropCr(fields[|fields| - 1])])
    decreases |fields|
  {
    var dropped := fields[..|fields| - 1] + [DropCr(fields[|fields| - 1])];
    var last := fields[1..][|fields| - 2];
    DropCrSuffix(fields[0], Tab(fields[1..]));
    assert dropped[1..] == fields[1..][..|fields| - 2] + [DropCr(last)];
    assert Tab(fields) == fields[0] + ['\t'] + Tab(fields[1..]);
    assert Tab(dropped) == fields[0] + ['\t'] + Tab(dropped[1..]);
    if |fields| > 2 {
      DropCrTab(fields[1..]);
    } else {
      assert fields[1..] == [last] && dropped[1..] == [DropCr(last)];
    }
  }

  lemma DropCrTab2(a: string, b: string)
    ensures DropCr(Tab([a, b])) == Tab([a, DropCr(b)])
  {
    DropCrTab([a, b]);
    assert [a, b][..1] + [DropCr(b)] == [a, DropCr(b)];
  }

  lemma DropCrTab3(a: string, b: string, c: string)
    ensures DropCr(Tab([a, b, c])) == Tab([a, b, DropCr(c)])
  {
    DropCrTab([a, b, c]);
    assert [a, b, c][..2] + [DropCr(c)] == [a, b, DropCr(c)];
  }

  lemma DropCrTab4(a: string, b: string, c: string, d: string)
    ensures DropCr(Tab([a, b, c, d])) == Tab([a, b, c, DropCr(d)])
  {
    DropCrTab([a, b, c, d]);
    assert [a, b, c, d][..3] + [DropCr(d)] == [a, b, c, DropCr(d)];
  }

  lemma DropCrs3(a: string, b: string, c: string)
    ensures DropCrs([a, b, c]) == [DropCr(a), DropCr(b), DropCr(c)]
  {
    hide DropCr;
    assert [c][1..] == [] && DropCrs([c]) == [DropCr(c)];
    assert [b, c][1..] == [c] && DropCrs([b, c]) == [DropCr(b)] + DropCrs([c]);
    assert [a, b, c][1..] == [b, c];
  }

  lemma {:induction false} CrPairLines(ps: seq<Pair>)
    ensures DropCrs(PairLines(ps)) == PairLines(CrPairs(ps))
    decreases |ps|
  {
    if ps != [] {
      DropCrTab2(ps[0].0, ps[0].1);
      CrPairLines(ps[1..]);
    }
  }

  lemma {:induction false} CrWordLines(word: string, vs: seq<string>)
    ensures DropCrs(WordLines(word, vs)) == WordLines(word, DropCrs(vs))
    decreases |vs|
  {
    if vs != [] {
      DropCrTab2(word, vs[0]);
      CrWordLines(word, vs[1..]);
    }
  }

  lemma {:induction false} CrEnvLines(env: seq<Pair>)
    ensures DropCrs(EnvLines(env)) == EnvLines(CrPairs(env))
    decreases |env|
  {
    if env != [] {
      DropCrTab3("env", env[0].0, env[0].1);
      CrEnvLines(env[1..]);
    }
  }

  lemma {:induction false} CrRuleLines(rs: seq<Rule>)
    ensures DropCrs(RuleLines(rs)) == RuleLines(CrRules(rs))
    decreases |rs|
  {
    if rs != [] {
      match rs[0] {
        case Mount(pattern, options) => DropCrTab3("mount", pattern, options);
        case MountAs(source, destination, options) => DropCrTab4("mount-as", source, destination, options);
      }
      CrRuleLines(rs[1..]);
    }
  }

  lemma {:induction false} CrItemLines(items: seq<Item>)
    ensures DropCrs(ItemLines(items)) == ItemLines(CrItems(items))
    decreases |items|
  {
    if items != [] {
      match items[0] {
        case Lit(text) => DropCrTab2("s", text);
        case Var(name, prefix, suffix) => DropCrTab4("r", name, prefix, suffix);
        case Splice(provider) => DropCrTab2("a", provider);
      }
      CrItemLines(items[1..]);
    }
  }

  lemma CrHeader(head: string, lines: seq<string>)
    ensures DropCrs([Header(head)] + lines) == [Header(head)] + DropCrs(lines)
  {
    assert ([Header(head)] + lines)[1..] == lines;
  }

  lemma {:induction false} CrProviderBlocks(ps: seq<(string, seq<Rule>)>)
    ensures DropCrs(ProviderBlocks(ps)) == ProviderBlocks(CrProviders(ps))
    decreases |ps|
  {
    if ps != [] {
      CrHeader("provider " + ps[0].0, RuleLines(ps[0].1));
      CrRuleLines(ps[0].1);
      DropCrsAppend([Header("provider " + ps[0].0)] + RuleLines(ps[0].1), ProviderBlocks(ps[1..]));
      CrProviderBlocks(ps[1..]);
    }
  }

  lemma CrHolderLines(holder: Option<string>, process: Option<string>)
    ensures DropCrs(HolderLines(holder, process)) ==
            HolderLines(if holder.Some? then Some(DropCr(holder.value)) else None,
                        if process.Some? then Some(DropCr(process.value)) else None)
  {
    if holder.Some? {
      DropCrTab2("holder", holder.value);
      if process.Some? {
        DropCrTab2("holder-process", process.value);
        var h, p := Tab(["holder", holder.value]), Tab(["holder-process", process.value]);
        DropCrsAppend([h], [p]);
        assert DropCrs([h]) == [DropCr(h)] && DropCrs([p]) == [DropCr(p)];
      }
    }
  }

  lemma CrMetaLines(l: Launch)
    ensures DropCrs(MetaLines(l)) == MetaLines(WithoutFinalCr(l))
  {
    var first := [Tab(["name", l.name]), Tab(["podman", l.podman]), Tab(["tty", l.tty])];
    DropCrTab2("name", l.name);
    DropCrTab2("podman", l.podman);
    DropCrTab2("tty", l.tty);
    DropCrs3(first[0], first[1], first[2]);
    CrHolderLines(l.holder, l.holderProcess);
    if l.holder.None? {
      assert HolderLines(l.holder, l.holderProcess) == [];
    }
    hide DropCr, Tab;
    DropCrsAppend(first, HolderLines(l.holder, l.holderProcess));
  }

  lemma CrDbusBlock(dbus: Option<Dbus>)
    ensures DropCrs(DbusBlock(dbus)) == DbusBlock(if dbus.Some? then Some(CrDbus(dbus.value)) else None)
  {
    if dbus.Some? {
      var d := dbus.value;
      var first := [Tab(["proxy", d.proxy]), Tab(["upstream", d.upstream]), Tab(["socket", d.socket])];
      CrHeader("dbus", DbusLines(d));
      DropCrTab2("proxy", d.proxy);
      DropCrTab2("upstream", d.upstream);
      DropCrTab2("socket", d.socket);
      DropCrs3(first[0], first[1], first[2]);
      hide DropCr, Tab;
      DropCrsAppend(first, WordLines("arg", d.args));
      CrWordLines("arg", d.args);
    }
  }

  lemma CrPodmanBlock(args: seq<string>, env: seq<Pair>)
    ensures DropCrs(PodmanBlock(args, env)) == PodmanBlock(DropCrs(args), CrPairs(env))
  {
    CrHeader("podman", WordLines("arg", args));
    DropCrsAppend([Header("podman")] + WordLines("arg", args), EnvLines(env));
    CrWordLines("arg", args);
    CrEnvLines(env);
  }

  lemma CrFront(l: Launch)
    ensures DropCrs(FrontLines(l)) == FrontLines(WithoutFinalCr(l))
  {
    var meta := ["plan 1"] + ([Header("meta")] + MetaLines(l));
    var vars := [Header("vars")] + PairLines(l.vars);
    var required := [Header("require")] + PairLines(l.require);
    CrMetaLines(l);
    CrPairLines(l.vars);
    CrPairLines(l.require);
    CrPairLines(l.ensureDirs);
    CrHeader("meta", MetaLines(l));
    CrHeader("vars", PairLines(l.vars));
    CrHeader("require", PairLines(l.require));
    CrHeader("ensure-dir", PairLines(l.ensureDirs));
    assert DropCrs(["plan 1"]) == ["plan 1"];
    hide DropCrs, MetaLines, PairLines, Header;
    DropCrsAppend(["plan 1"], [Header("meta")] + MetaLines(l));
    DropCrsAppend(meta, vars);
    DropCrsAppend(meta + vars, required);
    DropCrsAppend(meta + vars + required, [Header("ensure-dir")] + PairLines(l.ensureDirs));
  }

  lemma CrBack(l: Launch)
    ensures DropCrs(BackLines(l)) == BackLines(WithoutFinalCr(l))
  {
    var ps, ds, ms := ProviderBlocks(l.providers), DbusBlock(l.dbus), PodmanBlock(l.podmanArgs, l.podmanEnv);
    var hs, rs := [Header("holder")] + ItemLines(l.holderArgv), [Header("run")] + ItemLines(l.runArgv);
    CrProviderBlocks(l.providers);
    CrDbusBlock(l.dbus);
    CrPodmanBlock(l.podmanArgs, l.podmanEnv);
    CrItemLines(l.holderArgv);
    CrItemLines(l.runArgv);
    CrHeader("holder", ItemLines(l.holderArgv));
    CrHeader("run", ItemLines(l.runArgv));
    hide DropCrs, ProviderBlocks, DbusBlock, PodmanBlock, ItemLines, Header;
    DropCrsAppend(ps, ds);
    DropCrsAppend(ps + ds, ms);
    DropCrsAppend(ps + ds + ms, hs + rs);
    DropCrsAppend(hs, rs);
  }

  /** Reading the printed lines back is reading the lines of the launch without final carriage returns. */
  lemma CrPlanLines(l: Launch)
    ensures DropCrs(PlanLines(l)) == PlanLines(WithoutFinalCr(l))
  {
    CrFront(l);
    CrBack(l);
    hide PlanLines, FrontLines, BackLines, WithoutFinalCr;
    FrontAndBack(l);
    FrontAndBack(WithoutFinalCr(l));
    DropCrsAppend(FrontLines(l), BackLines(l));
  }

  lemma {:induction false} CrPairsKept(ps: seq<Pair>)
    ensures PairFields(ps) ==> PairFields(CrPairs(ps))
    ensures HeadsOk(CrPairs(ps)) == HeadsOk(ps)
    decreases |ps|
  {
    if ps != [] {
      CrPairsKept(ps[1..]);
      assert ps == [ps[0]] + ps[1..];
    }
  }

  lemma {:induction false} CrWordsKept(vs: seq<string>)
    requires forall v <- vs :: Field(v)
    ensures forall v <- DropCrs(vs) :: Field(v)
    decreases |vs|
  {
    if vs != [] {
      assert Field(vs[0]);
      CrWordsKept(vs[1..]);
    }
  }

  lemma {:induction false} CrRulesKept(rs: seq<Rule>)
    requires forall r <- rs :: RuleFields(r)
    ensures forall r <- CrRules(rs) :: RuleFields(r)
    decreases |rs|
  {
    if rs != [] {
      assert RuleFields(rs[0]);
      CrRulesKept(rs[1..]);
    }
  }

  lemma {:induction false} CrItemsKept(items: seq<Item>)
    requires forall i <- items :: ItemFields(i)
    ensures forall i <- CrItems(items) :: ItemFields(i)
    decreases |items|
  {
    if items != [] {
      assert ItemFields(items[0]);
      CrItemsKept(items[1..]);
    }
  }

  lemma {:induction false} CrProvidersKept(ps: seq<(string, seq<Rule>)>)
    requires forall p <- ps :: Field(p.0) && forall r <- p.1 :: RuleFields(r)
    ensures forall p <- CrProviders(ps) :: Field(p.0) && forall r <- p.1 :: RuleFields(r)
    decreases |ps|
  {
    if ps != [] {
      assert ps[0] in ps;
      CrRulesKept(ps[0].1);
      CrProvidersKept(ps[1..]);
    }
  }

  lemma {:induction false} CrProvidersNames(ps: seq<(string, seq<Rule>)>)
    ensures |CrProviders(ps)| == |ps|
    ensures forall i | 0 <= i < |ps| :: CrProviders(ps)[i] == (ps[i].0, CrRules(ps[i].1))
    decreases |ps|
  {
    if ps != [] {
      CrProvidersNames(ps[1..]);
    }
  }

  lemma CrKeepsFields(l: Launch)
    requires AllFields(l) && Distinct(l.providers)
    ensures AllFields(WithoutFinalCr(l)) && Distinct(WithoutFinalCr(l).providers)
    ensures Field(l.tty) ==> Field(WithoutFinalCr(l).tty)
    ensures NamesOk(WithoutFinalCr(l)) == NamesOk(l)
  {
    hide DropCr, DropCrs, CrPairs, CrItems, CrProviders, RuleFields, ItemFields, PairFields, HeadsOk;
    CrPairsKept(l.vars);
    CrPairsKept(l.require);
    CrPairsKept(l.ensureDirs);
    CrPairsKept(l.podmanEnv);
    CrWordsKept(l.podmanArgs);
    CrItemsKept(l.holderArgv);
    CrItemsKept(l.runArgv);
    CrProvidersKept(l.providers);
    CrProvidersNames(l.providers);
    if l.dbus.Some? {
      CrWordsKept(l.dbus.value.args);
    }
    CrKeepsSingleFields(l);
  }

  lemma CrKeepsSingleFields(l: Launch)
    requires AllFields(l)
    ensures Field(DropCr(l.name)) && Field(DropCr(l.podman)) && (Field(l.tty) ==> Field(DropCr(l.tty)))
    ensures l.holder.Some? ==>
      Field(DropCr(l.holder.value)) && (l.holderProcess.Some? ==> Field(DropCr(l.holderProcess.value)))
    ensures l.dbus.Some? ==>
      var d := l.dbus.value; Field(DropCr(d.proxy)) && Field(DropCr(d.upstream)) && Field(DropCr(d.socket))
  {}

  // ---- A lost carriage return shows ----

  lemma {:induction false} ProvidersByName(m: map<string, seq<Rule>>, ps: seq<(string, seq<Rule>)>, i: nat)
    requires Distinct(ps) && i < |ps|
    ensures ps[i].0 in AddProviders(m, ps) && AddProviders(m, ps)[ps[i].0] == ps[i].1
    decreases |ps|
  {
    if i > 0 {
      ProvidersByName(m[ps[0].0 := ps[0].1], ps[1..], i - 1);
    } else {
      OtherProvidersStay(m[ps[0].0 := ps[0].1], ps[1..], ps[0].0);
    }
  }

  lemma {:induction false} OtherProvidersStay(m: map<string, seq<Rule>>, ps: seq<(string, seq<Rule>)>, name: string)
    requires name in m && forall i | 0 <= i < |ps| :: ps[i].0 != name
    ensures name in AddProviders(m, ps) && AddProviders(m, ps)[name] == m[name]
    decreases |ps|
  {
    if ps != [] {
      OtherProvidersStay(m[ps[0].0 := ps[0].1], ps[1..], name);
    }
  }

  lemma {:induction false} ModesKeepSeconds(ps: seq<Pair>)
    requires Modes(CrPairs(ps)) == Modes(ps)
    ensures CrPairs(ps) == ps
    decreases |ps|
  {
    hide ParseMode;
    if ps != [] {
      assert Modes(ps)[0] == Mode(ps[0]) && Modes(ps)[1..] == Modes(ps[1..]);
      assert Modes(CrPairs(ps))[0] == Mode(CrPairs(ps)[0]) && Modes(CrPairs(ps))[1..] == Modes(CrPairs(ps[1..]));
      ModesKeepSeconds(ps[1..]);
    }
  }

  lemma MeaningShowsCr(l: Launch)
    requires Distinct(l.providers) && Meaning(l).Some? && Meaning(WithoutFinalCr(l)) == Meaning(l)
    ensures WithoutFinalCr(l) == l
  {
    ModesKeepSeconds(l.ensureDirs);
    var ps, qs := l.providers, CrProviders(l.providers);
    CrProvidersNames(ps);
    forall i | 0 <= i < |ps|
      ensures qs[i] == ps[i]
    {
      ProvidersByName(map[], ps, i);
      ProvidersByName(map[], qs, i);
    }
    assert qs == ps;
  }

  // ---- Lines without newlines ----

  predicate Clean(lines: seq<string>) {
    forall line <- lines :: '\n' !in line
  }

  /** Lines with a fixed first word are neither broken nor taken for headers. */
  predicate Plain(lines: seq<string>) {
    Clean(lines) && forall line <- lines :: line != "" && line[0] != '['
  }

  lemma TabPlain(fields: seq<string>)
    requires fields != [] && fields[0] != "" && fields[0][0] != '['
    requires forall i | 0 <= i < |fields| :: '\n' !in fields[i]
    ensures Plain([Tab(fields)])
  {
    TabClean(fields);
    if |fields| > 1 {
      assert Tab(fields) == fields[0] + ['\t'] + Join(fields[1..], '\t');
    }
  }

  lemma PlainCons(line: string, lines: seq<string>)
    requires Plain([line]) && Plain(lines)
    ensures Plain([line] + lines)
  {
    assert line in [line];
  }

  lemma {:induction false} TabClean(fields: seq<string>)
    requires fields != [] && forall i | 0 <= i < |fields| :: '\n' !in fields[i]
    ensures '\n' !in Tab(fields)
    decreases |fields|
  {
    if |fields| > 1 {
      TabClean(fields[1..]);
    }
  }

  lemma {:induction false} PairLinesClean(ps: seq<Pair>)
    requires PairFields(ps)
    ensures Clean(PairLines(ps))
    decreases |ps|
  {
    if ps != [] {
      TabClean([ps[0].0, ps[0].1]);
      PairLinesClean(ps[1..]);
    }
  }

  lemma {:induction false} WordLinesPlain(word: string, vs: seq<string>)
    requires word != "" && word[0] != '[' && '\n' !in word && forall v <- vs :: Field(v)
    ensures Plain(WordLines(word, vs))
    decreases |vs|
  {
    if vs != [] {
      assert Field(vs[0]);
      TabPlain([word, vs[0]]);
      WordLinesPlain(word, vs[1..]);
      PlainCons(Tab([word, vs[0]]), WordLines(word, vs[1..]));
    }
  }

  lemma {:induction false} EnvLinesPlain(env: seq<Pair>)
    requires PairFields(env)
    ensures Plain(EnvLines(env))
    decreases |env|
  {
    if env != [] {
      TabPlain(["env", env[0].0, env[0].1]);
      EnvLinesPlain(env[1..]);
      PlainCons(Tab(["env", env[0].0, env[0].1]), EnvLines(env[1..]));
    }
  }

  lemma {:induction false} RuleLinesPlain(rs: seq<Rule>)
    requires forall r <- rs :: RuleFields(r)
    ensures Plain(RuleLines(rs))
    decreases |rs|
  {
    if rs != [] {
      assert RuleFields(rs[0]);
      match rs[0] {
        case Mount(pattern, options) => TabPlain(["mount", pattern, options]);
        case MountAs(source, destination, options) => TabPlain(["mount-as", source, destination, options]);
      }
      RuleLinesPlain(rs[1..]);
      PlainCons(RuleLine(rs[0]), RuleLines(rs[1..]));
    }
  }

  lemma {:induction false} ItemLinesPlain(items: seq<Item>)
    requires forall i <- items :: ItemFields(i)
    ensures Plain(ItemLines(items))
    decreases |items|
  {
    if items != [] {
      assert ItemFields(items[0]);
      match items[0] {
        case Lit(text) => TabPlain(["s", text]);
        case Var(name, prefix, suffix) => TabPlain(["r", name, prefix, suffix]);
        case Splice(provider) => TabPlain(["a", provider]);
      }
      ItemLinesPlain(items[1..]);
      PlainCons(PrintItem(items[0]), ItemLines(items[1..]));
    }
  }

  lemma {:induction false} ProviderBlocksClean(ps: seq<(string, seq<Rule>)>)
    requires forall p <- ps :: Field(p.0) && forall r <- p.1 :: RuleFields(r)
    ensures Clean(ProviderBlocks(ps))
    decreases |ps|
  {
    if ps != [] {
      assert ps[0] in ps;
      assert '\n' !in Header("provider " + ps[0].0);
      RuleLinesPlain(ps[0].1);
      ProviderBlocksClean(ps[1..]);
    }
  }

  lemma HolderLinesPlain(holder: Option<string>, process: Option<string>)
    requires holder.Some? ==> Field(holder.value) && (process.Some? ==> Field(process.value))
    ensures Plain(HolderLines(holder, process))
  {
    if holder.Some? {
      TabPlain(["holder", holder.value]);
      if process.Some? {
        TabPlain(["holder-process", process.value]);
      }
    }
    hide Tab;
  }

  lemma MetaLinesPlain(l: Launch)
    requires AllFields(l) && Field(l.tty)
    ensures Plain(MetaLines(l))
  {
    TabPlain(["name", l.name]);
    TabPlain(["podman", l.podman]);
    TabPlain(["tty", l.tty]);
    HolderLinesPlain(l.holder, l.holderProcess);
    hide Tab, HolderLines;
  }

  lemma DbusLinesPlain(d: Dbus)
    requires Field(d.proxy) && Field(d.upstream) && Field(d.socket) && forall a <- d.args :: Field(a)
    ensures Plain(DbusLines(d))
  {
    TabPlain(["proxy", d.proxy]);
    TabPlain(["upstream", d.upstream]);
    TabPlain(["socket", d.socket]);
    WordLinesPlain("arg", d.args);
    hide Tab, WordLines;
  }

  lemma DbusBlockClean(dbus: Option<Dbus>)
    requires dbus.Some? ==>
      var d := dbus.value; Field(d.proxy) && Field(d.upstream) && Field(d.socket) && forall a <- d.args :: Field(a)
    ensures Clean(DbusBlock(dbus))
  {
    if dbus.Some? {
      DbusLinesPlain(dbus.value);
      SectionClean("dbus", DbusLines(dbus.value));
    }
  }

  lemma PlanLinesClean(l: Launch)
    requires AllFields(l) && Field(l.tty)
    ensures Clean(PlanLines(l))
  {
    hide MetaLines, PairLines, ProviderBlocks, DbusBlock, PodmanBlock, WordLines, EnvLines, ItemLines, Clean, PlanLines;
    FrontClean(l);
    BackClean(l);
    FrontAndBack(l);
    CleanAppend(FrontLines(l), BackLines(l));
  }

  lemma CleanAppend(a: seq<string>, b: seq<string>)
    requires Clean(a) && Clean(b)
    ensures Clean(a + b)
  {}

  lemma SectionClean(head: string, lines: seq<string>)
    requires '\n' !in head && Clean(lines)
    ensures Clean([Header(head)] + lines)
  {}

  lemma FrontClean(l: Launch)
    requires AllFields(l) && Field(l.tty)
    ensures Clean(FrontLines(l))
  {
    MetaLinesPlain(l);
    PairLinesClean(l.vars);
    PairLinesClean(l.require);
    PairLinesClean(l.ensureDirs);
    assert Clean(["plan 1"]);
    hide MetaLines, PairLines, Clean, Header;
    var meta, vars := [Header("meta")] + MetaLines(l), [Header("vars")] + PairLines(l.vars);
    var required, dirs := [Header("require")] + PairLines(l.require), [Header("ensure-dir")] + PairLines(l.ensureDirs);
    SectionClean("meta", MetaLines(l));
    SectionClean("vars", PairLines(l.vars));
    SectionClean("require", PairLines(l.require));
    SectionClean("ensure-dir", PairLines(l.ensureDirs));
    CleanAppend(["plan 1"], meta);
    CleanAppend(["plan 1"] + meta, vars);
    CleanAppend(["plan 1"] + meta + vars, required);
    CleanAppend(["plan 1"] + meta + vars + required, dirs);
  }

  lemma BackClean(l: Launch)
    requires AllFields(l)
    ensures Clean(BackLines(l))
  {
    ProviderBlocksClean(l.providers);
    DbusBlockClean(l.dbus);
    WordLinesPlain("arg", l.podmanArgs);
    EnvLinesPlain(l.podmanEnv);
    ItemLinesPlain(l.holderArgv);
    ItemLinesPlain(l.runArgv);
    assert Clean([]);
    hide ProviderBlocks, DbusBlock, WordLines, EnvLines, ItemLines, Clean, Header;
    var ps, ds, ms := ProviderBlocks(l.providers), DbusBlock(l.dbus), PodmanBlock(l.podmanArgs, l.podmanEnv);
    SectionClean("podman", WordLines("arg", l.podmanArgs));
    CleanAppend([Header("podman")] + WordLines("arg", l.podmanArgs), EnvLines(l.podmanEnv));
    SectionClean("holder", ItemLines(l.holderArgv));
    SectionClean("run", ItemLines(l.runArgv));
    var hs, rs := [Header("holder")] + ItemLines(l.holderArgv), [Header("run")] + ItemLines(l.runArgv);
    CleanAppend(hs, rs);
    CleanAppend(ps, ds);
    CleanAppend(ps + ds, ms);
    CleanAppend(ps + ds + ms, hs + rs);
  }

  // ---- A name taken for a comment or a header loses its entry ----

  /** Entries of the three lists whose lines begin with a name of the author's. */
  function Entries(p: Plan): nat {
    |p.derived| + |p.require| + |p.ensureDirs|
  }

  predicate Skipped(line: string) {
    line == "" || line[0] == '#' || line[0] == '['
  }

  lemma StepAddsOneEntry(st: Parser, raw: string)
    requires Step(st, raw).Some?
    ensures Entries(Step(st, raw).value.plan) <= Entries(st.plan) + if Skipped(raw) then 0 else 1
  {
    hide Split, HeaderWords, ParseMode, ParseRule, ParseItem;
  }

  /** Outside those three sections nothing is added, and only a header changes the section. */
  lemma StepElsewhereAddsNone(st: Parser, raw: string)
    requires Step(st, raw).Some? && (raw == "" || raw[0] != '[')
    requires st.section != Vars && st.section != Require && st.section != EnsureDir
    ensures Entries(Step(st, raw).value.plan) == Entries(st.plan) && Step(st, raw).value.section == st.section
  {
    hide Split, ParseRule, ParseItem;
  }

  function Kept(lines: seq<string>): nat {
    if lines == [] then 0 else (if Skipped(lines[0]) then 0 else 1) + Kept(lines[1..])
  }

  lemma {:induction false} StepsAddEntries(st: Parser, lines: seq<string>)
    requires Steps(st, lines).Some?
    ensures Entries(Steps(st, lines).value.plan) <= Entries(st.plan) + Kept(lines)
    decreases |lines|
  {
    hide Step, Skipped;
    if lines != [] {
      StepAddsOneEntry(st, lines[0]);
      StepsAddEntries(Step(st, lines[0]).value, lines[1..]);
    }
  }

  lemma {:induction false} StepsElsewhereAddNone(st: Parser, lines: seq<string>)
    requires Steps(st, lines).Some? && Plain(lines)
    requires st.section != Vars && st.section != Require && st.section != EnsureDir
    ensures Entries(Steps(st, lines).value.plan) == Entries(st.plan)
    decreases |lines|
  {
    hide Step;
    if lines != [] {
      assert lines[0] in lines && forall line <- lines[1..] :: line in lines;
      StepElsewhereAddsNone(st, lines[0]);
      StepsElsewhereAddNone(Step(st, lines[0]).value, lines[1..]);
    }
  }

  lemma {:induction false} KeptPairs(ps: seq<Pair>)
    ensures Kept(PairLines(ps)) <= |ps|
    ensures !HeadsOk(ps) ==> Kept(PairLines(ps)) < |ps|
    decreases |ps|
  {
    if ps != [] {
      KeptPairs(ps[1..]);
      var fields := [ps[0].0, ps[0].1];
      assert PairLine(ps[0]) == fields[0] + ['\t'] + Join(fields[1..], '\t');
      assert HeadsOk(ps) <==> HeadOk(ps[0].0) && HeadsOk(ps[1..]) by {
        assert ps == [ps[0]] + ps[1..];
      }
    }
  }

  function EntriesOf(st: Option<Parser>, otherwise: nat): nat {
    if st.Some? then Entries(st.value.plan) else otherwise
  }

  lemma PlainSection(st: Parser, head: string, lines: seq<string>)
    requires Plain(lines) && head in {"meta", "podman", "holder", "run"}
    ensures EntriesOf(Steps(st, [Header(head)] + lines), Entries(st.plan)) == Entries(st.plan)
  {
    Opens(st, head, lines);
    if Steps(st, [Header(head)] + lines).Some? {
      StepsElsewhereAddNone(st.(section := SectionOf(head)), lines);
    }
  }

  lemma PairSection(st: Parser, head: string, ps: seq<Pair>)
    requires head in {"vars", "require", "ensure-dir"}
    ensures EntriesOf(Steps(st, [Header(head)] + PairLines(ps)), 0) <= Entries(st.plan) + Kept(PairLines(ps))
  {
    hide Steps, Kept, PairLines;
    Opens(st, head, PairLines(ps));
    if Steps(st, [Header(head)] + PairLines(ps)).Some? {
      StepsAddEntries(st.(section := SectionOf(head)), PairLines(ps));
    }
  }

  lemma DbusAddsNone(st: Parser, dbus: Option<Dbus>)
    requires dbus.Some? ==> Plain(DbusLines(dbus.value))
    ensures EntriesOf(Steps(st, DbusBlock(dbus)), Entries(st.plan)) == Entries(st.plan)
  {
    hide Steps, DbusLines, Plain;
    if dbus.None? {
      NoSteps(st);
    } else {
      var lines := DbusLines(dbus.value);
      HeaderStep(st, "dbus", lines);
      var next := HeaderLine(st, Header("dbus")).value;
      if Steps(next, lines).Some? {
        StepsElsewhereAddNone(next, lines);
      }
    }
  }

  lemma ProviderAddsNone(st: Parser, name: string, lines: seq<string>)
    requires Plain(lines)
    ensures EntriesOf(Steps(st, [Header("provider " + name)] + lines), Entries(st.plan)) == Entries(st.plan)
  {
    ProviderHeaderStep(st, name, lines);
    var next := HeaderLine(st, Header("provider " + name));
    if next.Some? && Steps(next.value, lines).Some? {
      StepsElsewhereAddNone(next.value, lines);
    }
  }

  lemma {:induction false} ProviderBlocksAddNone(st: Parser, ps: seq<(string, seq<Rule>)>)
    requires forall p <- ps :: forall r <- p.1 :: RuleFields(r)
    ensures EntriesOf(Steps(st, ProviderBlocks(ps)), Entries(st.plan)) == Entries(st.plan)
    decreases |ps|
  {
    hide Steps, Header, RuleLines, Entries;
    if ps == [] {
      NoSteps(st);
    } else {
      assert ps[0] in ps;
      var block := [Header("provider " + ps[0].0)] + RuleLines(ps[0].1);
      RuleLinesPlain(ps[0].1);
      ProviderAddsNone(st, ps[0].0, RuleLines(ps[0].1));
      StepsAppend(st, block, ProviderBlocks(ps[1..]));
      if Steps(st, block).Some? {
        ProviderBlocksAddNone(Steps(st, block).value, ps[1..]);
      }
    }
  }

  lemma ItemsAddNone(st: Parser, l: Launch)
    requires AllFields(l)
    ensures var lines := ([Header("holder")] + ItemLines(l.holderArgv)) + ([Header("run")] + ItemLines(l.runArgv));
      EntriesOf(Steps(st, lines), Entries(st.plan)) == Entries(st.plan)
  {
    ItemLinesPlain(l.holderArgv);
    ItemLinesPlain(l.runArgv);
    hide ItemLines, Header, Steps, Entries, Plain;
    var hs, rs := [Header("holder")] + ItemLines(l.holderArgv), [Header("run")] + ItemLines(l.runArgv);
    StepsAppend(st, hs, rs);
    PlainSection(st, "holder", ItemLines(l.holderArgv));
    if Steps(st, hs).Some? {
      PlainSection(Steps(st, hs).value, "run", ItemLines(l.runArgv));
    }
  }

  lemma PodmanAddsNone(st: Parser, args: seq<string>, env: seq<Pair>)
    requires (forall a <- args :: Field(a)) && PairFields(env)
    ensures EntriesOf(Steps(st, PodmanBlock(args, env)), Entries(st.plan)) == Entries(st.plan)
  {
    WordLinesPlain("arg", args);
    EnvLinesPlain(env);
    hide WordLines, EnvLines, Header, Steps, Entries;
    var words := WordLines("arg", args) + EnvLines(env);
    assert Plain(words);
    hide Plain;
    if args != [] || env != [] {
      assert PodmanBlock(args, env) == [Header("podman")] + words;
      PlainSection(st, "podman", words);
    } else {
      NoSteps(st);
    }
  }

  lemma BackAddsNone(st: Parser, l: Launch)
    requires AllFields(l)
    ensures EntriesOf(Steps(st, BackLines(l)), Entries(st.plan)) == Entries(st.plan)
  {
    var ps, ds, ms := ProviderBlocks(l.providers), DbusBlock(l.dbus), PodmanBlock(l.podmanArgs, l.podmanEnv);
    var items := ([Header("holder")] + ItemLines(l.holderArgv)) + ([Header("run")] + ItemLines(l.runArgv));
    ProviderBlocksAddNone(st, l.providers);
    if l.dbus.Some? {
      DbusLinesPlain(l.dbus.value);
    }
    hide ProviderBlocks, DbusBlock, PodmanBlock, DbusLines, ItemLines, Header, Steps, Entries, Plain;
    StepsAppend(st, ps, ds);
    StepsAppend(st, ps + ds, ms);
    StepsAppend(st, ps + ds + ms, items);
    if Steps(st, ps + ds + ms + items).Some? {
      var s1 := Steps(st, ps).value;
      DbusAddsNone(s1, l.dbus);
      var s2 := Steps(s1, ds).value;
      PodmanAddsNone(s2, l.podmanArgs, l.podmanEnv);
      ItemsAddNone(Steps(s2, ms).value, l);
    }
  }

  lemma FrontAddsKept(l: Launch)
    requires AllFields(l) && Field(l.tty)
    ensures EntriesOf(Steps(START, FrontLines(l)), 0) <=
            Kept(PairLines(l.vars)) + Kept(PairLines(l.require)) + Kept(PairLines(l.ensureDirs))
  {
    var one, meta := ["plan 1"], [Header("meta")] + MetaLines(l);
    var vars, required := [Header("vars")] + PairLines(l.vars), [Header("require")] + PairLines(l.require);
    var dirs := [Header("ensure-dir")] + PairLines(l.ensureDirs);
    assert Steps(START, one) == Some(START.(header := true));
    assert Entries(START.plan) == 0;
    MetaLinesPlain(l);
    hide Steps, Header, MetaLines, PairLines, Entries, Kept, Plain;
    StepsAppend(START, one, meta);
    StepsAppend(START, one + meta, vars);
    StepsAppend(START, one + meta + vars, required);
    StepsAppend(START, one + meta + vars + required, dirs);
    if Steps(START, FrontLines(l)).Some? {
      var s0 := START.(header := true);
      PlainSection(s0, "meta", MetaLines(l));
      var s1 := Steps(s0, meta).value;
      PairSection(s1, "vars", l.vars);
      var s2 := Steps(s1, vars).value;
      PairSection(s2, "require", l.require);
      PairSection(Steps(s2, required).value, "ensure-dir", l.ensureDirs);
    }
  }

  lemma ModesLength(ps: seq<Pair>)
    ensures |Modes(ps)| == |ps|
  {}

  /** The entries a launch has in those sections. */
  function Asked(l: Launch): nat {
    |l.vars| + |l.require| + |l.ensureDirs|
  }

  /** A name that starts with `#` or `[`: whatever the parser reads, it is not the launch. */
  lemma BadNameIsLost(l: Launch)
    requires AllFields(l) && Field(l.tty) && !NamesOk(l)
    ensures ParseLines(PlanLines(l)) == None || Entries(ParseLines(PlanLines(l)).value) < Asked(l)
  {
    hide Steps, PlanLines, FrontLines, BackLines, Complete;
    FrontAndBack(l);
    StepsAppend(START, FrontLines(l), BackLines(l));
    FrontAddsKept(l);
    if Steps(START, FrontLines(l)).Some? {
      BackAddsNone(Steps(START, FrontLines(l)).value, l);
    }
    KeptPairs(l.vars);
    KeptPairs(l.require);
    KeptPairs(l.ensureDirs);
  }

  // ---- The round trip ----

  /** The launches that survive printing and parsing. */
  predicate WellFormed(l: Launch) {
    NamesOk(l) && Valid(l) && WithoutFinalCr(l) == l
  }

  lemma CrKeepsAsked(l: Launch)
    ensures Asked(WithoutFinalCr(l)) == Asked(l)
  {
    CrPairsLength(l.vars);
    CrPairsLength(l.require);
    CrPairsLength(l.ensureDirs);
  }

  lemma CrPairsLength(ps: seq<Pair>)
    ensures |CrPairs(ps)| == |ps|
  {}

  lemma EntriesAreAsked(l: Launch)
    ensures Entries(PlanOf(l)) == Asked(l)
  {
    ModesLength(l.ensureDirs);
  }

  lemma ValidTty(l: Launch)
    ensures Valid(l) ==> TtyOk(l.tty)
    ensures TtyOk(l.tty) ==> Field(l.tty) && DropCr(l.tty) == l.tty
  {}

  /** The text `render` gives is read as the lines of the launch without final carriage returns. */
  lemma ParseOfRendered(l: Launch)
    requires Render(l).Some? && Field(l.tty)
    ensures Parse(Render(l).value) == ParseLines(PlanLines(WithoutFinalCr(l)))
  {
    PlanLinesClean(l);
    LinesJoin(PlanLines(l));
    CrPlanLines(l);
    hide PlanLines, WithoutFinalCr, ParseLines, AllFields;
  }

  /**
    The parser reads back the launch that was printed exactly when it is well
    formed: for every launch `render` accepts, of any length.
  */
  lemma RoundTripIffWellFormed(l: Launch)
    requires Render(l).Some? && Distinct(l.providers)
    ensures Meaning(l).Some? && Parse(Render(l).value) == Meaning(l) <==> WellFormed(l)
  {
    hide Parse, Lines, PlanLines, PlanOf, WithoutFinalCr, NamesOk, Valid, ParseLines, AllFields, TtyOk, Distinct;
    ValidTty(l);
    if TtyOk(l.tty) {
      var m := WithoutFinalCr(l);
      assert m.tty == l.tty by { CrTty(l); }
      ParseOfRendered(l);
      CrKeepsFields(l);
      if NamesOk(l) {
        ParseOfPrinted(m);
        if Meaning(m) == Meaning(l) {
          MeaningShowsCr(l);
        }
      } else {
        BadNameIsLost(m);
        CrKeepsAsked(l);
        EntriesAreAsked(l);
      }
    }
  }

  lemma CrTty(l: Launch)
    ensures WithoutFinalCr(l).tty == DropCr(l.tty)
  {}

  /** `render` accepts a field that ends in a carriage return, and the parser drops it. */
  lemma CarriageReturnIsLost() returns (l: Launch)
    ensures Render(l).Some? && Distinct(l.providers) && Meaning(l).Some? && Parse(Render(l).value) != Meaning(l)
  {
    l := Launch("", "/p", None, None, "never", [], [], [], [], None, [], [], [], [Lit("x\r")]);
    assert Render(l).Some? && Meaning(l).Some? && DropCr("x\r") == "x";
    hide Render, Meaning, Parse, WellFormed;
    FinalCrIsNotWellFormed(l);
    RoundTripIffWellFormed(l);
  }

  lemma FinalCrIsNotWellFormed(l: Launch)
    requires l.runArgv != [] && l.runArgv[0].Lit? && DropCr(l.runArgv[0].text) != l.runArgv[0].text
    ensures !WellFormed(l)
  {
    assert CrItems(l.runArgv)[0] == CrItem(l.runArgv[0]);
    assert WithoutFinalCr(l).runArgv == CrItems(l.runArgv);
  }

  // ---- The field that `render` does not check ----

  lemma MetaComesFirst(l: Launch)
    ensures ["plan 1"] + ([Header("meta")] + MetaLines(l)) <= PlanLines(l)
  {
    hide MetaLines, PairLines, ProviderBlocks, DbusBlock, PodmanBlock, ItemLines, Header;
  }

  /** The line of another `tty` is refused, whatever comes after it. */
  lemma OtherTtyFails(l: Launch)
    requires AllFields(l) && Field(l.tty) && !TtyOk(l.tty)
    ensures ParseLines(PlanLines(l)) == None
  {
    var meta := ["plan 1"] + ([Header("meta")] + MetaLines(l));
    MetaFromStart(l);
    MetaComesFirst(l);
    hide Steps, PlanLines, MetaLines, Header;
    assert PlanLines(l)[..|meta|] == meta;
    StepsPrefixFails(START, PlanLines(l), |meta|);
  }

  lemma ValidButForTty(l: Launch, tty: string)
    requires WellFormed(l) && TtyOk(tty)
    ensures WellFormed(l.(tty := tty))
  {
    ValidTty(l.(tty := tty));
    hide ValidHolder, ValidProcess, NamesNotEmpty, ModesOk, ProvidersOk, EnvOk, HeadsOk;
    hide DropCrs, CrPairs, CrItems, CrProviders, CrDbus;
  }

  lemma CrButTty(l: Launch, tty: string)
    ensures WithoutFinalCr(l.(tty := tty)) == WithoutFinalCr(l).(tty := DropCr(tty))
  {
    hide DropCr, DropCrs, CrPairs, CrItems, CrProviders, CrDbus;
  }

  /**
    A `tty` on one line: anything but the two values, up to a final carriage
    return, has the plan refused; and nothing else about it has.
  */
  lemma OtherTtyIsRefused(l: Launch)
    requires Render(l).Some? && Field(l.tty) && Distinct(l.providers)
    ensures !TtyOk(DropCr(l.tty)) ==> Parse(Render(l).value) == None
    ensures WellFormed(l.(tty := "never")) ==> Parse(Render(l).value) == Meaning(l.(tty := DropCr(l.tty)))
  {
    var m := WithoutFinalCr(l);
    CrTty(l);
    CrKeepsFields(l);
    hide Parse, PlanLines, PlanOf, WithoutFinalCr, NamesOk, Valid, ParseLines, AllFields, TtyOk, Distinct, DropCr;
    ParseOfRendered(l);
    if !TtyOk(m.tty) {
      OtherTtyFails(m);
    } else if WellFormed(l.(tty := "never")) {
      ValidButForTty(l.(tty := "never"), m.tty);
      CrButTty(l, "never");
      CrButTty(l, l.tty);
      ParseOfPrinted(m);
    }
  }

  // ---- A `tty` of several lines ----

  lemma {:induction false} JoinBreaks(before: seq<string>, x: string, y: string, after: seq<string>)
    requires after != []
    ensures Join(before + [x + "\n" + y] + after, '\n') == Join(before + [x, y] + after, '\n')
    decreases |before|
  {
    if before == [] {
      assert [] + [x + "\n" + y] + after == [x + "\n" + y] + after;
      assert ([x + "\n" + y] + after)[1..] == after;
      assert [] + [x, y] + after == [x, y] + after;
      assert ([x, y] + after)[1..] == [y] + after && ([y] + after)[1..] == after;
    } else {
      JoinBreaks(before[1..], x, y, after);
      assert (before + [x + "\n" + y] + after)[1..] == before[1..] + [x + "\n" + y] + after;
      assert (before + [x, y] + after)[1..] == before[1..] + [x, y] + after;
    }
  }

  /** The lines before the `tty` line and those after it. */
  function LinesBeforeTty(l: Launch): seq<string> {
    ["plan 1", Header("meta"), Tab(["name", l.name]), Tab(["podman", l.podman])]
  }

  function LinesAfterTty(l: Launch): seq<string> {
    HolderLines(l.holder, l.holderProcess)
    + ([Header("vars")] + PairLines(l.vars))
    + ([Header("require")] + PairLines(l.require))
    + ([Header("ensure-dir")] + PairLines(l.ensureDirs))
    + BackLines(l)
  }

  lemma TtyBetween(l: Launch)
    ensures PlanLines(l) == LinesBeforeTty(l) + [Tab(["tty", l.tty])] + LinesAfterTty(l)
  {
    FrontAndBack(l);
    hide Header, Tab, HolderLines, PairLines, BackLines, PlanLines;
  }

  lemma ThreeMetaLines(l: Launch, after: seq<string>)
    requires AllFields(l) && TtyOk(l.tty)
    ensures Steps(START, LinesBeforeTty(l) + [Tab(["tty", l.tty])] + after) ==
            Steps(WithTty(WithNames(START.(header := true, section := Meta), l.name, l.podman), l.tty), after)
  {
    var name, podman, tty := Tab(["name", l.name]), Tab(["podman", l.podman]), Tab(["tty", l.tty]);
    var inside := START.(header := true, section := Meta);
    assert Field(l.name) && Field(l.podman) && Field(l.tty);
    hide Steps, Tab, Header, AllFields, Field;
    assert LinesBeforeTty(l) + [tty] + after == ["plan 1"] + ([Header("meta")] + ([name] + ([podman] + ([tty] + after))));
    PlanOneLeads([Header("meta")] + ([name] + ([podman] + ([tty] + after))));
    Opens(START.(header := true), "meta", [name] + ([podman] + ([tty] + after)));
    NamesLead(inside, l.name, l.podman, [tty] + after);
    TtyStep(WithNames(inside, l.name, l.podman), l.tty, after);
  }

  lemma NamedKeepsFields(l: Launch, name: string)
    requires AllFields(l) && Field(name)
    ensures AllFields(l.(name := name))
  {
    hide Field, PairFields, RuleFields, ItemFields;
  }

  /** A second name on a line of its own takes the place of the first. */
  lemma SecondNameWins(l: Launch, name: string, after: seq<string>)
    requires AllFields(l) && TtyOk(l.tty) && Field(name)
    ensures Steps(START, LinesBeforeTty(l) + [Tab(["tty", l.tty]), Tab(["name", name])] + after)
            == Steps(START, LinesBeforeTty(l.(name := name)) + [Tab(["tty", l.tty])] + after)
  {
    var inside := START.(header := true, section := Meta);
    var tty, rename := Tab(["tty", l.tty]), Tab(["name", name]);
    hide Steps, Tab, Header, AllFields, LinesBeforeTty, Field, TtyOk;
    NamedKeepsFields(l, name);
    assert LinesBeforeTty(l) + [tty, rename] + after == LinesBeforeTty(l) + [tty] + ([rename] + after);
    ThreeMetaLines(l, [rename] + after);
    ThreeMetaLines(l.(name := name), after);
    Renamed(WithTty(WithNames(inside, l.name, l.podman), l.tty), name, after);
  }

  lemma PlanOneLeads(rest: seq<string>)
    ensures Steps(START, ["plan 1"] + rest) == Steps(START.(header := true), rest)
  {
    StepsAppend(START, ["plan 1"], rest);
    assert Steps(START, ["plan 1"]) == Some(START.(header := true));
  }

  /** The lines of a plan with a second name behind its `tty` line. */
  function RenamedLines(l: Launch, name: string): seq<string> {
    LinesBeforeTty(l) + [Tab(["tty", l.tty]), Tab(["name", name])] + LinesAfterTty(l)
  }

  /** The launch whose `tty` holds that second line. */
  function Renaming(l: Launch, name: string): Launch {
    l.(tty := l.tty + "\n" + Tab(["name", name]))
  }

  lemma TabBreaks(key: string, value: string, next: string)
    ensures Tab([key, value + "\n" + next]) == Tab([key, value]) + "\n" + next
  {
    Tab2(key, value + "\n" + next);
    Tab2(key, value);
    assert key + ['\t'] + (value + "\n" + next) == key + ['\t'] + value + "\n" + next;
  }

  lemma Tab2(a: string, b: string)
    ensures Tab([a, b]) == a + ['\t'] + b
  {
    assert [a, b][1..] == [b] && Join([b], '\t') == b;
    assert Tab([a, b]) == a + ['\t'] + Join([a, b][1..], '\t');
  }

  lemma TtyIsUnchecked(l: Launch, tty: string)
    ensures AllFields(l.(tty := tty)) == AllFields(l)
  {
    hide Field, PairFields, RuleFields, ItemFields;
  }

  lemma RenamingText(l: Launch, name: string)
    requires Render(l).Some?
    ensures Render(Renaming(l, name)) == Some(Join(RenamedLines(l, name) + [""], '\n'))
  {
    var x, y := Tab(["tty", l.tty]), Tab(["name", name]);
    var before, after := LinesBeforeTty(l), LinesAfterTty(l);
    TabBreaks("tty", l.tty, y);
    assert LinesBeforeTty(Renaming(l, name)) == before && LinesAfterTty(Renaming(l, name)) == after;
    TtyBetween(Renaming(l, name));
    TtyIsUnchecked(l, Renaming(l, name).tty);
    hide AllFields, PlanLines, LinesBeforeTty, LinesAfterTty, Tab, Join;
    JoinBreaks(before, x, y, after + [""]);
    assert before + [x + "\n" + y] + after + [""] == before + [x + "\n" + y] + (after + [""]);
    assert RenamedLines(l, name) + [""] == before + [x, y] + (after + [""]);
  }

  lemma {:induction false} DropCrsFixed(lines: seq<string>)
    ensures DropCrs(lines) == lines <==> forall line <- lines :: DropCr(line) == line
    decreases |lines|
  {
    hide DropCr;
    if lines != [] {
      DropCrsFixed(lines[1..]);
      assert lines == [lines[0]] + lines[1..];
      assert DropCrs(lines) == [DropCr(lines[0])] + DropCrs(lines[1..]);
      if DropCrs(lines) == lines {
        assert DropCrs(lines)[1..] == DropCrs(lines[1..]);
      }
    }
  }

  lemma RenamedLinesAreRead(l: Launch, name: string)
    requires Render(l).Some? && WellFormed(l) && Field(name) && DropCr(name) == name
    ensures Lines(Join(RenamedLines(l, name) + [""], '\n')) == RenamedLines(l, name)
  {
    ValidTty(l);
    PlanLinesClean(l);
    TabClean(["name", name]);
    DropCrTab2("name", name);
    CrPlanLines(l);
    TtyBetween(l);
    hide PlanLines, LinesBeforeTty, LinesAfterTty, Tab, Join, DropCr, DropCrs, Lines, Valid, NamesOk, WithoutFinalCr, AllFields;
    DropCrsFixed(PlanLines(l));
    DropCrsFixed(RenamedLines(l, name));
    assert forall line <- RenamedLines(l, name) :: line == Tab(["name", name]) || line in PlanLines(l);
    LinesJoin(RenamedLines(l, name));
  }

  lemma NamedIsWellFormed(l: Launch, name: string)
    requires AllFields(l) && WellFormed(l) && Field(name) && DropCr(name) == name
    ensures AllFields(l.(name := name)) && WellFormed(l.(name := name))
  {
    hide ValidHolder, ValidProcess, NamesNotEmpty, ModesOk, ProvidersOk, EnvOk, HeadsOk, Field, TtyOk;
    hide DropCr, DropCrs, CrPairs, CrItems, CrProviders, CrDbus, PairFields, RuleFields, ItemFields;
  }

  /**
    A `tty` that holds a newline is printed as two lines, and the second is read
    as an entry: it can rename the plan.
  */
  lemma TtyRenamesThePlan(l: Launch, name: string)
    requires Render(l).Some? && Distinct(l.providers) && WellFormed(l)
    requires Field(name) && DropCr(name) == name
    ensures var broken := l.(tty := l.tty + "\n" + Tab(["name", name]));
      Render(broken).Some? && Parse(Render(broken).value) == Meaning(l.(name := name))
  {
    var named := l.(name := name);
    RenamingText(l, name);
    RenamedLinesAreRead(l, name);
    NamedIsWellFormed(l, name);
    ValidTty(named);
    ParseOfPrinted(named);
    TtyBetween(named);
    assert LinesAfterTty(named) == LinesAfterTty(l);
    hide Steps, PlanLines, LinesBeforeTty, LinesAfterTty, Tab, PlanOf, Join, Lines, Valid, NamesOk, WithoutFinalCr, Complete;
    SecondNameWins(l, name, LinesAfterTty(l));
  }
}
