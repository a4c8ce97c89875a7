/**
  When a provider's rules, or a whole launch argv, are refused, and what an argv is
  otherwise (nix/app/runner.rs:308-411).
*/
module ArgvRefusals {
  import opened Wrappers
  import opened Argv
  import Glob
  import Plan
  import Text

  // ---- How many paths a pattern stands for ----

  ghost predicate Fits(disk: Disk, dir: string, name: string, file: string) {
    Glob.Matches(name, file) && disk.bindable(InDirectory(dir, file))
  }

  /** The places in a listing of the names that a wildcard binds. */
  ghost function Places(disk: Disk, dir: string, name: string, files: seq<string>): set<nat> {
    set i: nat | i < |files| && Fits(disk, dir, name, files[i])
  }

  lemma {:induction false} AsManyAsPlaces(disk: Disk, dir: string, name: string, files: seq<string>)
    ensures |Matching(disk, dir, name, files)| == |Places(disk, dir, name, files)|
    decreases |files|
  {
    hide Fits;
    if files == [] {
      assert Places(disk, dir, name, files) == {};
    } else {
      var n := |files| - 1;
      var init, last := files[..n], files[n];
      assert files == init + [last];
      AsManyAsPlaces(disk, dir, name, init);
      MatchingIsByName(disk, dir, name, init, [last]);
      OneMatching(disk, dir, name, last);
      PlacesGrow(disk, dir, name, init, last);
    }
  }

  lemma OneMatching(disk: Disk, dir: string, name: string, file: string)
    ensures |Matching(disk, dir, name, [file])| == if Fits(disk, dir, name, file) then 1 else 0
  {
    assert [file][1..] == [];
    Glob.GlobMatchIff(name, file);
    hide Glob.GlobMatch, Glob.Matches, InDirectory;
  }

  lemma PlacesGrow(disk: Disk, dir: string, name: string, init: seq<string>, last: string)
    ensures |Places(disk, dir, name, init + [last])| ==
            |Places(disk, dir, name, init)| + if Fits(disk, dir, name, last) then 1 else 0
  {
    hide Fits;
    var before, after := Places(disk, dir, name, init), Places(disk, dir, name, init + [last]);
    assert forall i: nat | i < |init| :: (init + [last])[i] == init[i];
    assert (init + [last])[|init|] == last;
    if Fits(disk, dir, name, last) {
      assert after == before + {|init|};
    } else {
      assert after == before;
    }
  }

  /** The directory and the name of a pattern whose last slash is at `k`. */
  function DirOf(pattern: string, k: nat): string
    requires k < |pattern|
  {
    if k == 0 then "/" else pattern[..k]
  }

  function NameOf(pattern: string, k: nat): string
    requires k < |pattern|
  {
    pattern[k + 1..]
  }

  predicate Wild(name: string) {
    '*' in name || '?' in name
  }

  ghost predicate TooManyAt(disk: Disk, pattern: string, k: nat)
    requires k < |pattern|
  {
    Wild(NameOf(pattern, k)) &&
    |Places(disk, DirOf(pattern, k), NameOf(pattern, k), disk.list(DirOf(pattern, k)))| > 512
  }

  /** A wildcard that binds more than 512 names of its directory. */
  ghost predicate TooMany(disk: Disk, pattern: string) {
    Text.LastIndexOf(pattern, '/').Some? && TooManyAt(disk, pattern, Text.LastIndexOf(pattern, '/').value)
  }

  lemma SortedAsMany(xs: seq<string>)
    ensures |Sort(xs)| == |xs|
  {
    SortSorts(xs);
    hide Sort, Sorted;
    assert |multiset(Sort(xs))| == |multiset(xs)|;
  }

  lemma {:induction false} BindAllIff(paths: seq<string>, options: string)
    ensures BindAll(paths, options).None? <==> exists path :: path in paths && !Bindable(path)
    decreases |paths|
  {
    hide Bindable, Bind;
    if paths != [] {
      BindIff(paths[0], paths[0], options);
      BindAllIff(paths[1..], options);
      assert forall path :: path in paths <==> path == paths[0] || path in paths[1..];
    }
  }

  lemma NoSlash(disk: Disk, pattern: string, options: string)
    requires Text.LastIndexOf(pattern, '/').None?
    ensures ExpandPattern(disk, pattern, options).None?
  {}

  lemma PatternRefusedIff(disk: Disk, pattern: string, options: string)
    ensures ExpandPattern(disk, pattern, options).None? <==>
            '/' !in pattern || TooMany(disk, pattern) || exists path :: Stands(disk, pattern, path) && !Bindable(path)
  {
    hide *;
    var slash := Text.LastIndexOf(pattern, '/');
    if slash.None? {
      NoSlash(disk, pattern, options);
    } else {
      var k := slash.value;
      var dir, name := DirOf(pattern, k), NameOf(pattern, k);
      var found := Found(disk, pattern, k);
      AsManyAsPlaces(disk, dir, name, disk.list(dir));
      SortedAsMany(found);
      TooManyIs(disk, pattern, k);
      FoundIs(disk, pattern, k, options);
      BindAllIff(Sort(found), options);
      forall path
        ensures path in Sort(found) <==> Stands(disk, pattern, path)
      {
        SortMembers(found, path);
        StandsIff(disk, pattern, k, path);
        FoundIs(disk, pattern, k, options);
      }
    }
  }

  function Found(disk: Disk, pattern: string, k: nat): seq<string>
    requires k < |pattern|
  {
    var dir, name := DirOf(pattern, k), NameOf(pattern, k);
    if Wild(name) then Matching(disk, dir, name, disk.list(dir)) else if disk.isThere(pattern) then [pattern] else []
  }

  lemma FoundIs(disk: Disk, pattern: string, k: nat, options: string)
    requires Text.LastIndexOf(pattern, '/') == Some(k)
    ensures var dir, name := if k == 0 then "/" else pattern[..k], pattern[k + 1..];
      && dir == DirOf(pattern, k) && name == NameOf(pattern, k) && (('*' in name || '?' in name) <==> Wild(name))
      && Found(disk, pattern, k) ==
         if '*' in name || '?' in name then Matching(disk, dir, name, disk.list(dir))
         else if disk.isThere(pattern) then [pattern] else []
    ensures ExpandPattern(disk, pattern, options) ==
            if |Sort(Found(disk, pattern, k))| > 512 then None else BindAll(Sort(Found(disk, pattern, k)), options)
    ensures !Wild(NameOf(pattern, k)) ==> |Found(disk, pattern, k)| <= 1
    ensures Wild(NameOf(pattern, k)) ==>
              Found(disk, pattern, k) ==
              Matching(disk, DirOf(pattern, k), NameOf(pattern, k), disk.list(DirOf(pattern, k)))
    ensures TooMany(disk, pattern) <==> TooManyAt(disk, pattern, k)
  {
    hide Matching, Sort, BindAll, Text.LastIndexOf, TooManyAt;
  }

  lemma TooManyIs(disk: Disk, pattern: string, k: nat)
    requires k < |pattern|
    ensures TooManyAt(disk, pattern, k) <==>
            Wild(NameOf(pattern, k)) &&
            |Places(disk, DirOf(pattern, k), NameOf(pattern, k), disk.list(DirOf(pattern, k)))| > 512
  {
    hide Places;
  }

  /** A name found in a directory is bound behind one slash, however many the directory ends in. */
  lemma {:induction false} OneSlash(dir: string, slashes: string, file: string)
    requires dir == "" || dir[|dir| - 1] != '/'
    requires forall c <- slashes :: c == '/'
    ensures InDirectory(dir + slashes, file) == dir + "/" + file
    decreases |slashes|
  {
    var all := dir + slashes;
    if slashes == "" {
      assert all == dir;
    } else {
      var init := slashes[..|slashes| - 1];
      assert slashes[|slashes| - 1] in slashes && forall c <- init :: c in slashes;
      assert all[..|all| - 1] == dir + init;
      OneSlash(dir, init, file);
    }
  }

  // ---- Rules and items ----

  /**
    A rule is refused for a name nobody defined, a pattern without a slash or that
    stands for more than 512 paths, or a path that no mount can name. A source that
    does not exist is no reason, and neither is then its destination.
  */
  ghost predicate RuleRefused(disk: Disk, rule: Plan.Rule, values: Values) {
    match rule
    case Mount(pattern, _) =>
      var p := Expand(pattern, values);
      p.None? || '/' !in p.value || TooMany(disk, p.value)
      || exists path :: Stands(disk, p.value, path) && !Bindable(path)
    case MountAs(source, destination, _) =>
      var s, d := Expand(source, values), Expand(destination, values);
      s.None? || (disk.isThere(s.value) && (d.None? || !Bindable(s.value) || !Bindable(d.value)))
  }

  lemma RuleRefusedIff(disk: Disk, rule: Plan.Rule, values: Values)
    ensures ExpandRule(disk, rule, values).None? <==> RuleRefused(disk, rule, values)
  {
    hide Expand, ExpandPattern, Stands, TooMany, Bindable, Bind;
    match rule {
      case Mount(pattern, options) =>
        if Expand(pattern, values).Some? {
          PatternRefusedIff(disk, Expand(pattern, values).value, options);
        }
      case MountAs(source, destination, options) =>
        var s, d := Expand(source, values), Expand(destination, values);
        if s.Some? && d.Some? {
          BindIff(s.value, d.value, options);
        }
    }
  }

  lemma {:induction false} RulesRefusedIff(disk: Disk, rules: seq<Plan.Rule>, values: Values)
    ensures ExpandRules(disk, rules, values).None? <==> exists rule :: rule in rules && RuleRefused(disk, rule, values)
    decreases |rules|
  {
    hide RuleRefused, ExpandRule;
    if rules != [] {
      RuleRefusedIff(disk, rules[0], values);
      RulesRefusedIff(disk, rules[1..], values);
      assert forall rule :: rule in rules <==> rule == rules[0] || rule in rules[1..];
    }
  }

  ghost predicate ItemRefused(disk: Disk, item: Plan.Item, providers: map<string, seq<Plan.Rule>>, values: Values) {
    match item
    case Lit(_) => false
    case Var(name, _, _) => name !in values
    case Splice(name) =>
      name !in providers || exists rule :: rule in providers[name] && RuleRefused(disk, rule, values)
  }

  /** A launch argv is refused exactly for an item that names nothing or a rule that is refused. */
  lemma {:induction false} ArgvRefusedIff(
      disk: Disk, items: seq<Plan.Item>, providers: map<string, seq<Plan.Rule>>, values: Values)
    ensures ResolveItems(disk, items, providers, values).None? <==>
            exists item :: item in items && ItemRefused(disk, item, providers, values)
    decreases |items|
  {
    hide ItemRefused, ResolveItem;
    if items != [] {
      ItemRefusedIff(disk, items[0], providers, values);
      ArgvRefusedIff(disk, items[1..], providers, values);
      assert forall item :: item in items <==> item == items[0] || item in items[1..];
    }
  }

  lemma ItemRefusedIff(disk: Disk, item: Plan.Item, providers: map<string, seq<Plan.Rule>>, values: Values)
    ensures ResolveItem(disk, item, providers, values).None? <==> ItemRefused(disk, item, providers, values)
  {
    hide RuleRefused, ExpandRules;
    if item.Splice? && item.provider in providers {
      RulesRefusedIff(disk, providers[item.provider], values);
    }
  }

  lemma {:induction false} ResolveAppend(
      disk: Disk, a: seq<Plan.Item>, b: seq<Plan.Item>, providers: map<string, seq<Plan.Rule>>, values: Values)
    requires ResolveItems(disk, a + b, providers, values).Some?
    ensures ResolveItems(disk, a, providers, values).Some? && ResolveItems(disk, b, providers, values).Some?
    ensures ResolveItems(disk, a + b, providers, values).value ==
            ResolveItems(disk, a, providers, values).value + ResolveItems(disk, b, providers, values).value
    decreases |a|
  {
    hide ResolveItem;
    if a == [] {
      assert a + b == b;
      var all := ResolveItems(disk, b, providers, values).value;
      assert [] + all == all;
    } else {
      assert (a + b)[0] == a[0] && (a + b)[1..] == a[1..] + b;
      ResolveAppend(disk, a[1..], b, providers, values);
    }
  }

  /** Otherwise the items' words follow each other: a text, a value between its two ends, a provider's mounts. */
  lemma ItemsInOrder(disk: Disk, a: seq<Plan.Item>, item: Plan.Item, b: seq<Plan.Item>,
        providers: map<string, seq<Plan.Rule>>, values: Values)
    requires ResolveItems(disk, a + [item] + b, providers, values).Some?
    ensures ResolveItems(disk, [], providers, values) == Some([])
    ensures ResolveItems(disk, a, providers, values).Some? && ResolveItems(disk, b, providers, values).Some?
    ensures item.Splice? ==>
              item.provider in providers && ExpandRules(disk, providers[item.provider], values).Some?
    ensures var before, behind :=
        ResolveItems(disk, a, providers, values).value, ResolveItems(disk, b, providers, values).value;
      var all := ResolveItems(disk, a + [item] + b, providers, values).value;
      && (item.Lit? ==> all == before + [item.text] + behind)
      && (item.Var? ==>
            item.name in values && all == before + [item.prefix + values[item.name] + item.suffix] + behind)
      && (item.Splice? ==> all == before + ExpandRules(disk, providers[item.provider], values).value + behind)
  {
    hide ExpandRules;
    ResolveAppend(disk, a + [item], b, providers, values);
    ResolveAppend(disk, a, [item], providers, values);
    assert [item][1..] == [] && [item][0] == item;
    var one := ResolveItem(disk, item, providers, values).value;
    assert one + [] == one;
  }
}
