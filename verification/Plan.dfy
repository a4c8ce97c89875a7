/**
  The launch plan: the printer of nix/app/plan.nix and the parser of
  nix/app/runner.rs.
*/
module Plan {
  import opened Wrappers
  import opened Text

  datatype Item = Lit(text: string) | Var(name: string, prefix: string, suffix: string) | Splice(provider: string)

  datatype Rule =
    | Mount(pattern: string, options: string)
    | MountAs(source: string, destination: string, options: string)

  datatype Dbus = Dbus(proxy: string, upstream: string, socket: string, args: seq<string>)

  type Pair = (string, string)

  /** What the parser builds. */
  datatype Plan = Plan(
    name: string,
    podman: string,
    holder: Option<string>,
    holderProcess: Option<string>,
    ttyAuto: bool,
    require: seq<Pair>,
    derived: seq<Pair>,
    ensureDirs: seq<(nat, string)>,
    providers: map<string, seq<Rule>>,
    dbus: Option<Dbus>,
    podmanArgs: seq<string>,
    podmanEnv: seq<Pair>,
    holderArgv: seq<Item>,
    runArgv: seq<Item>)

  const DEFAULT_PLAN := Plan("", "", None, None, false, [], [], [], map[], None, [], [], [], [])

  // ---- parse_plan ----

  datatype Section =
    | NoSection | Meta | Vars | Require | EnsureDir | Provider | DbusSection | PodmanSection | Holder | Run

  /** The parser's variables; `header` is `saw_header`. */
  datatype Parser = Parser(plan: Plan, section: Section, provider: string, header: bool)

  const START := Parser(DEFAULT_PLAN, NoSection, "", false)

  predicate IsOctal(s: string) {
    forall i | 0 <= i < |s| :: '0' <= s[i] <= '7'
  }

  function OctalValue(s: string): nat
    requires IsOctal(s)
  {
    if s == [] then 0 else 8 * OctalValue(s[..|s| - 1]) + (s[|s| - 1] as int - '0' as int)
  }

  /** `u32::from_str_radix(s, 8)`: an optional `+`, at least one digit, no overflow. */
  function ParseMode(s: string): Option<nat> {
    var digits := if s != "" && s[0] == '+' then s[1..] else s;
    if digits != "" && IsOctal(digits) && OctalValue(digits) < 0x1_0000_0000 then Some(OctalValue(digits)) else None
  }

  predicate ValidHolder(v: string) {
    v != "" && '/' !in v && '\0' !in v
  }

  predicate ValidProcess(v: string) {
    v != "" && '/' !in v && Utf8Length(v) <= 15
  }

  /** Only the last path component may hold a wildcard. */
  predicate ValidPattern(pattern: string) {
    match LastIndexOf(pattern, '/')
    case None => false
    case Some(k) => '*' !in pattern[..k] && '?' !in pattern[..k]
  }

  predicate ValidEnvName(name: string) {
    name != "" && '=' !in name && '\0' !in name
  }

  function MetaLine(p: Plan, f: seq<string>): Option<Plan> {
    if |f| != 2 then None
    else if f[0] == "name" then Some(p.(name := f[1]))
    else if f[0] == "podman" then Some(p.(podman := f[1]))
    else if f[0] == "holder" then if ValidHolder(f[1]) then Some(p.(holder := Some(f[1]))) else None
    else if f[0] == "holder-process" then if ValidProcess(f[1]) then Some(p.(holderProcess := Some(f[1]))) else None
    else if f[0] == "tty" && f[1] == "auto" then Some(p.(ttyAuto := true))
    else if f[0] == "tty" && f[1] == "never" then Some(p.(ttyAuto := false))
    else None
  }

  function VarsLine(p: Plan, f: seq<string>): Option<Plan> {
    if |f| == 2 && f[0] != "" then Some(p.(derived := p.derived + [(f[0], f[1])])) else None
  }

  function RequireLine(p: Plan, f: seq<string>): Option<Plan> {
    if |f| == 2 then Some(p.(require := p.require + [(f[0], f[1])])) else None
  }

  function EnsureDirLine(p: Plan, f: seq<string>): Option<Plan> {
    if |f| == 2 && ParseMode(f[0]).Some? then Some(p.(ensureDirs := p.ensureDirs + [(ParseMode(f[0]).value, f[1])])) else None
  }

  function ParseRule(f: seq<string>): Option<Rule> {
    if |f| == 3 && f[0] == "mount" then if ValidPattern(f[1]) then Some(Mount(f[1], f[2])) else None
    else if |f| == 4 && f[0] == "mount-as" then Some(MountAs(f[1], f[2], f[3]))
    else None
  }

  function ProviderLine(p: Plan, provider: string, f: seq<string>): Option<Plan> {
    match ParseRule(f)
    case None => None
    case Some(rule) =>
      var rules := if provider in p.providers then p.providers[provider] else [];
      Some(p.(providers := p.providers[provider := rules + [rule]]))
  }

  function DbusLine(p: Plan, f: seq<string>): Option<Plan> {
    var d := if p.dbus.Some? then p.dbus.value else Dbus("", "", "", []);
    if |f| != 2 then None
    else if f[0] == "proxy" then Some(p.(dbus := Some(d.(proxy := f[1]))))
    else if f[0] == "upstream" then Some(p.(dbus := Some(d.(upstream := f[1]))))
    else if f[0] == "socket" then Some(p.(dbus := Some(d.(socket := f[1]))))
    else if f[0] == "arg" then Some(p.(dbus := Some(d.(args := d.args + [f[1]]))))
    else None
  }

  function PodmanLine(p: Plan, f: seq<string>): Option<Plan> {
    if |f| == 2 && f[0] == "arg" then Some(p.(podmanArgs := p.podmanArgs + [f[1]]))
    else if |f| == 3 && f[0] == "env" && ValidEnvName(f[1]) then Some(p.(podmanEnv := p.podmanEnv + [(f[1], f[2])]))
    else None
  }

  function ParseItem(f: seq<string>): Option<Item> {
    if |f| == 2 && f[0] == "s" then Some(Lit(f[1]))
    else if |f| == 1 && f[0] == "s" then Some(Lit(""))
    else if |f| == 4 && f[0] == "r" then Some(Var(f[1], f[2], f[3]))
    else if |f| == 2 && f[0] == "a" then Some(Splice(f[1]))
    else None
  }

  function ItemLine(p: Plan, section: Section, f: seq<string>): Option<Plan> {
    match ParseItem(f)
    case None => None
    case Some(item) =>
      Some(if section == Holder then p.(holderArgv := p.holderArgv + [item]) else p.(runArgv := p.runArgv + [item]))
  }

  function EntryLine(p: Plan, section: Section, provider: string, f: seq<string>): Option<Plan> {
    match section
    case Meta => MetaLine(p, f)
    case Vars => VarsLine(p, f)
    case Require => RequireLine(p, f)
    case EnsureDir => EnsureDirLine(p, f)
    case Provider => ProviderLine(p, provider, f)
    case DbusSection => DbusLine(p, f)
    case PodmanSection => PodmanLine(p, f)
    case Holder => ItemLine(p, section, f)
    case Run => ItemLine(p, section, f)
    case NoSection => None
  }

  /** `[head rest]`: the text between the brackets, cut at the first space. */
  function HeaderWords(raw: string): Option<Pair> {
    if |raw| < 2 || raw[0] != '[' || raw[|raw| - 1] != ']' then None
    else
      var inner := raw[1..|raw| - 1];
      match IndexOf(inner, ' ')
      case None => Some((inner, ""))
      case Some(k) => Some((inner[..k], inner[k + 1..]))
  }

  function HeaderLine(st: Parser, raw: string): Option<Parser> {
    match HeaderWords(raw)
    case None => None
    case Some((head, rest)) =>
      if head == "meta" then Some(st.(section := Meta))
      else if head == "vars" then Some(st.(section := Vars))
      else if head == "require" then Some(st.(section := Require))
      else if head == "ensure-dir" then Some(st.(section := EnsureDir))
      else if head == "holder" then Some(st.(section := Holder))
      else if head == "podman" then Some(st.(section := PodmanSection))
      else if head == "dbus" then
        Some(st.(section := DbusSection,
                 plan := if st.plan.dbus.Some? then st.plan else st.plan.(dbus := Some(Dbus("", "", "", [])))))
      else if head == "run" then Some(st.(section := Run))
      else if head == "provider" && rest != "" then
        Some(st.(section := Provider, provider := rest,
                 plan := if rest in st.plan.providers then st.plan
                         else st.plan.(providers := st.plan.providers[rest := []])))
      else None
  }

  /** One line of the plan. */
  function Step(st: Parser, raw: string): Option<Parser> {
    if raw == "" || raw[0] == '#' then Some(st)
    else if raw[0] == '[' then HeaderLine(st, raw)
    else if st.section == NoSection then if raw == "plan 1" then Some(st.(header := true)) else None
    else
      match EntryLine(st.plan, st.section, st.provider, Split(raw, '\t'))
      case None => None
      case Some(plan) => Some(st.(plan := plan))
  }

  function Steps(st: Parser, lines: seq<string>): Option<Parser>
    decreases |lines|
  {
    if lines == [] then Some(st)
    else
      match Step(st, lines[0])
      case None => None
      case Some(next) => Steps(next, lines[1..])
  }

  predicate Complete(st: Parser) {
    && st.header
    && (st.plan.dbus.Some? ==>
          var d := st.plan.dbus.value;
          d.proxy != "" && d.proxy[0] == '/' && d.upstream != "" && d.socket != "")
    && st.plan.podman != "" && st.plan.podman[0] == '/'
    && st.plan.runArgv != []
    && (st.plan.holder.Some? ==> |st.plan.holderArgv| >= 2)
  }

  function ParseLines(lines: seq<string>): Option<Plan> {
    match Steps(START, lines)
    case None => None
    case Some(st) => if Complete(st) then Some(st.plan) else None
  }

  /** The specification of `parse_plan`. */
  function Parse(text: string): Option<Plan> {
    ParseLines(Lines(text))
  }

  lemma {:induction false} StepsAppend(st: Parser, a: seq<string>, b: seq<string>)
    ensures Steps(st, a + b) ==
            match Steps(st, a)
            case None => None
            case Some(mid) => Steps(mid, b)
    decreases |a|
  {
    if a == [] {
      assert a + b == b;
    } else {
      assert (a + b)[1..] == a[1..] + b;
      if Step(st, a[0]).Some? {
        StepsAppend(Step(st, a[0]).value, a[1..], b);
      }
    }
  }

  lemma StepsPrefixFails(st: Parser, lines: seq<string>, k: nat)
    requires k <= |lines| && Steps(st, lines[..k]).None?
    ensures Steps(st, lines).None?
  {
    assert lines == lines[..k] + lines[k..];
    StepsAppend(st, lines[..k], lines[k..]);
  }

  /** `parse_plan` itself: one pass over the lines, updating the plan as it goes. */
  method ParsePlan(text: string) returns (r: Option<Plan>)
    ensures r == Parse(text)
  {
    var plan := DEFAULT_PLAN;
    var section := NoSection;
    var provider := "";
    var sawHeader := false;
    var lines := Lines(text);
    var index := 0;
    while index < |lines|
      invariant 0 <= index <= |lines|
      invariant Steps(START, lines[..index]) == Some(Parser(plan, section, provider, sawHeader))
    {
      var raw := lines[index];
      ghost var st := Parser(plan, section, provider, sawHeader);
      index := index + 1;
      assert lines[..index] == lines[..index - 1] + [raw];
      StepsAppend(START, lines[..index - 1], [raw]);
      assert Steps(START, lines[..index]) == Steps(st, [raw]);
      if raw == "" || raw[0] == '#' {
        continue;
      }
      if raw[0] == '[' {
        var header := HeaderLine(Parser(plan, section, provider, sawHeader), raw);
        if header.None? {
          StepsPrefixFails(START, lines, index);
          return None;
        }
        plan, section, provider := header.value.plan, header.value.section, header.value.provider;
        continue;
      }
      if section == NoSection {
        if raw == "plan 1" {
          sawHeader := true;
          continue;
        }
        StepsPrefixFails(START, lines, index);
        return None;
      }
      var entered := EntryLine(plan, section, provider, Split(raw, '\t'));
      if entered.None? {
        StepsPrefixFails(START, lines, index);
        return None;
      }
      plan := entered.value;
    }
    assert lines[..index] == lines;
    if !sawHeader {
      return None;
    }
    if plan.dbus.Some? && (plan.dbus.value.proxy == "" || plan.dbus.value.proxy[0] != '/'
                           || plan.dbus.value.upstream == "" || plan.dbus.value.socket == "") {
      return None;
    }
    if plan.podman == "" || plan.podman[0] != '/' {
      return None;
    }
    if plan.runArgv == [] {
      return None;
    }
    if plan.holder.Some? && |plan.holderArgv| < 2 {
      return None;
    }
    return Some(plan);
  }

  // ---- render ----

  /**
    The arguments of `render`. The attribute sets `providers` and `podmanEnv` are
    lists of pairs with distinct names, in whatever order the names sort.
  */
  datatype Launch = Launch(
    name: string,
    podman: string,
    holder: Option<string>,
    holderProcess: Option<string>,
    tty: string,
    vars: seq<Pair>,
    require: seq<Pair>,
    ensureDirs: seq<Pair>,
    providers: seq<(string, seq<Rule>)>,
    dbus: Option<Dbus>,
    podmanArgs: seq<string>,
    podmanEnv: seq<Pair>,
    holderArgv: seq<Item>,
    runArgv: seq<Item>)

  function Tab(fields: seq<string>): string
    requires fields != []
  {
    Join(fields, '\t')
  }

  function PairLine(p: Pair): string {
    Tab([p.0, p.1])
  }

  function PairLines(ps: seq<Pair>): seq<string> {
    if ps == [] then [] else [PairLine(ps[0])] + PairLines(ps[1..])
  }

  function WordLines(word: string, vs: seq<string>): seq<string> {
    if vs == [] then [] else [Tab([word, vs[0]])] + WordLines(word, vs[1..])
  }

  function EnvLines(env: seq<Pair>): seq<string> {
    if env == [] then [] else [Tab(["env", env[0].0, env[0].1])] + EnvLines(env[1..])
  }

  function RuleLine(r: Rule): string {
    match r
    case Mount(pattern, options) => Tab(["mount", pattern, options])
    case MountAs(source, destination, options) => Tab(["mount-as", source, destination, options])
  }

  function RuleLines(rs: seq<Rule>): seq<string> {
    if rs == [] then [] else [RuleLine(rs[0])] + RuleLines(rs[1..])
  }

  function PrintItem(i: Item): string {
    match i
    case Lit(text) => Tab(["s", text])
    case Var(name, prefix, suffix) => Tab(["r", name, prefix, suffix])
    case Splice(provider) => Tab(["a", provider])
  }

  function ItemLines(items: seq<Item>): seq<string> {
    if items == [] then [] else [PrintItem(items[0])] + ItemLines(items[1..])
  }

  function Header(head: string): string {
    "[" + head + "]"
  }

  function HolderLines(holder: Option<string>, process: Option<string>): seq<string> {
    if holder.None? then []
    else [Tab(["holder", holder.value])] + (if process.Some? then [Tab(["holder-process", process.value])] else [])
  }

  function MetaLines(l: Launch): seq<string> {
    [Tab(["name", l.name]), Tab(["podman", l.podman]), Tab(["tty", l.tty])]
    + HolderLines(l.holder, l.holderProcess)
  }

  function ProviderBlocks(ps: seq<(string, seq<Rule>)>): seq<string> {
    if ps == [] then []
    else [Header("provider " + ps[0].0)] + RuleLines(ps[0].1) + ProviderBlocks(ps[1..])
  }

  function DbusLines(d: Dbus): seq<string> {
    [Tab(["proxy", d.proxy]), Tab(["upstream", d.upstream]), Tab(["socket", d.socket])] + WordLines("arg", d.args)
  }

  function DbusBlock(dbus: Option<Dbus>): seq<string> {
    if dbus.Some? then [Header("dbus")] + DbusLines(dbus.value) else []
  }

  function PodmanBlock(args: seq<string>, env: seq<Pair>): seq<string> {
    if args != [] || env != [] then [Header("podman")] + WordLines("arg", args) + EnvLines(env) else []
  }

  /** The rendered lines, before the final newline. */
  function PlanLines(l: Launch): seq<string> {
    ["plan 1"]
    + ([Header("meta")] + MetaLines(l))
    + ([Header("vars")] + PairLines(l.vars))
    + ([Header("require")] + PairLines(l.require))
    + ([Header("ensure-dir")] + PairLines(l.ensureDirs))
    + ProviderBlocks(l.providers)
    + DbusBlock(l.dbus)
    + PodmanBlock(l.podmanArgs, l.podmanEnv)
    + ([Header("holder")] + ItemLines(l.holderArgv))
    + ([Header("run")] + ItemLines(l.runArgv))
  }

  /** `field` refuses a TAB or a newline. */
  predicate Field(s: string) {
    '\t' !in s && '\n' !in s
  }

  predicate PairFields(ps: seq<Pair>) {
    forall p <- ps :: Field(p.0) && Field(p.1)
  }

  predicate RuleFields(r: Rule) {
    match r
    case Mount(pattern, options) => Field(pattern) && Field(options)
    case MountAs(source, destination, options) => Field(source) && Field(destination) && Field(options)
  }

  predicate ItemFields(i: Item) {
    match i
    case Lit(text) => Field(text)
    case Var(name, prefix, suffix) => Field(name) && Field(prefix) && Field(suffix)
    case Splice(provider) => Field(provider)
  }

  /** `render` passes every value through `field` but `tty`, which it prints as it is. */
  predicate AllFields(l: Launch) {
    && Field(l.name) && Field(l.podman)
    && (l.holder.Some? ==> Field(l.holder.value))
    && (l.holder.Some? && l.holderProcess.Some? ==> Field(l.holderProcess.value))
    && PairFields(l.vars) && PairFields(l.require) && PairFields(l.ensureDirs)
    && (forall p <- l.providers :: Field(p.0) && forall r <- p.1 :: RuleFields(r))
    && (l.dbus.Some? ==>
          var d := l.dbus.value;
          Field(d.proxy) && Field(d.upstream) && Field(d.socket) && forall a <- d.args :: Field(a))
    && (forall a <- l.podmanArgs :: Field(a)) && PairFields(l.podmanEnv)
    && (forall i <- l.holderArgv :: ItemFields(i)) && (forall i <- l.runArgv :: ItemFields(i))
  }

  /** `render`; it throws when a field it checks holds a TAB or a newline. */
  function Render(l: Launch): Option<string> {
    if AllFields(l) then Some(Join(PlanLines(l) + [""], '\n')) else None
  }
}
