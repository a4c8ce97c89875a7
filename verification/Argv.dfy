/**
  From a plan's items to podman's arguments (nix/app/runner.rs:253-411): templates,
  wildcard mounts, and at most one mount for each destination.
*/
module Argv {
  import opened Wrappers
  import Text
  import Glob
  import Plan

  type Values = map<string, string>

  // ---- Templates ----

  /** The specification of `ExpandTemplate`. */
  function Expand(template: string, values: Values): Option<string>
    decreases |template|
  {
    match Text.IndexOf(template, '{')
    case None => Some(template)
    case Some(open) => Behind(template[..open], AfterOpen(template[open + 1..], values))
  }

  /** What the text behind an opening brace becomes. */
  function AfterOpen(after: string, values: Values): Option<string>
    decreases |after|
  {
    match Text.IndexOf(after, '}')
    case None => None
    case Some(close) =>
      if after[..close] !in values then None
      else Behind(values[after[..close]], Expand(after[close + 1..], values))
  }

  function Behind(front: string, rest: Option<string>): Option<string> {
    if rest.None? then None else Some(front + rest.value)
  }

  lemma BehindTwice(a: string, b: string, rest: Option<string>)
    ensures Behind(a, Behind(b, rest)) == Behind(a + b, rest)
    ensures Behind("", rest) == rest
  {
    if rest.Some? {
      assert a + (b + rest.value) == a + b + rest.value;
      assert "" + rest.value == rest.value;
    }
  }

  lemma ExpandUnfolds(template: string, values: Values)
    ensures var open := Text.IndexOf(template, '{');
      Expand(template, values) ==
      if open.None? then Some(template) else Behind(template[..open.value], AfterOpen(template[open.value + 1..], values))
  {
    hide Text.IndexOf, AfterOpen, Behind;
  }

  lemma AfterOpenUnfolds(after: string, values: Values)
    ensures var close := Text.IndexOf(after, '}');
      AfterOpen(after, values) ==
      if close.None? || after[..close.value] !in values then None
      else Behind(values[after[..close.value]], Expand(after[close.value + 1..], values))
  {
    hide Text.IndexOf, Expand, Behind;
  }

  lemma BehindWhole(out: string, rest: string)
    ensures Behind(out, Some(rest)) == Some(out + rest)
    ensures Behind(out, None) == None
  {}

  /** `expand`. */
  method ExpandTemplate(template: string, values: Values) returns (r: Option<string>)
    ensures r == Expand(template, values)
  {
    hide *;
    var out, rest := "", template;
    ghost var goal := Expand(template, values);
    BehindTwice("", "", goal);
    while true
      invariant goal == Behind(out, Expand(rest, values))
      decreases |rest|
    {
      ExpandUnfolds(rest, values);
      BehindWhole(out, rest);
      var open := Text.IndexOf(rest, '{');
      if open.None? {
        return Some(out + rest);
      }
      var after := rest[open.value + 1..];
      BehindTwice(out, rest[..open.value], AfterOpen(after, values));
      out := out + rest[..open.value];
      AfterOpenUnfolds(after, values);
      BehindWhole(out, "");
      var close := Text.IndexOf(after, '}');
      if close.None? {
        return None;
      }
      var name := after[..close.value];
      if name !in values {
        return None;
      }
      BehindTwice(out, values[name], Expand(after[close.value + 1..], values));
      out := out + values[name];
      rest := after[close.value + 1..];
    }
  }

  datatype Piece = Literal(text: string) | Hole(name: string)

  /** Literal text has no brace that opens, and no name has one that closes. */
  predicate PieceOk(p: Piece) {
    match p
    case Literal(text) => '{' !in text
    case Hole(name) => '}' !in name
  }

  function Spell(ps: seq<Piece>): string {
    if ps == [] then ""
    else (match ps[0] case Literal(text) => text case Hole(name) => "{" + name + "}") + Spell(ps[1..])
  }

  function Meaning(ps: seq<Piece>, values: Values): Option<string> {
    if ps == [] then Some("")
    else
      match ps[0]
      case Literal(text) => Behind(text, Meaning(ps[1..], values))
      case Hole(name) => if name !in values then None else Behind(values[name], Meaning(ps[1..], values))
  }

  lemma {:induction false} FirstIndex(before: string, c: char, rest: string)
    requires c !in before
    ensures Text.IndexOf(before + [c] + rest, c) == Some(|before|)
    decreases |before|
  {
    var s := before + [c] + rest;
    if before == "" {
      assert s[0] == c;
    } else {
      FirstIndex(before[1..], c, rest);
      assert s[1..] == before[1..] + [c] + rest && s[0] == before[0];
    }
  }

  lemma LiteralOn(text: string, t: string, values: Values)
    requires '{' !in text
    ensures Expand(text + t, values) == Behind(text, Expand(t, values))
  {
    hide *;
    ExpandUnfolds(t, values);
    ExpandUnfolds(text + t, values);
    var open := Text.IndexOf(t, '{');
    if open.None? {
      assert '{' !in text + t;
      BehindWhole(text, t);
    } else {
      var k := open.value;
      Cut(text, t, k);
      FirstIndex(text + t[..k], '{', t[k + 1..]);
      BehindTwice(text, t[..k], AfterOpen(t[k + 1..], values));
    }
  }

  /** Text in front of a text moves its cut at `k`. */
  lemma Cut(text: string, t: string, k: nat)
    requires k < |t|
    ensures text + t == text + t[..k] + [t[k]] + t[k + 1..]
    ensures var at := |text + t[..k]|;
      at < |text + t| && (text + t)[..at] == text + t[..k] && (text + t)[at + 1..] == t[k + 1..]
  {
    assert t == t[..k] + [t[k]] + t[k + 1..];
  }

  lemma HoleOn(name: string, t: string, values: Values)
    requires '}' !in name
    ensures Expand("{" + name + "}" + t, values) ==
            if name !in values then None else Behind(values[name], Expand(t, values))
  {
    hide *;
    var s := "{" + name + "}" + t;
    var after := name + ['}'] + t;
    FirstIndex("", '{', after);
    FirstIndex(name, '}', t);
    assert s == "" + ['{'] + after && s[1..] == after && s[..0] == "";
    ExpandUnfolds(s, values);
    AfterOpenUnfolds(after, values);
    assert after[|name| + 1..] == t && after[..|name|] == name;
    BehindTwice("", "", AfterOpen(after, values));
  }

  /** Expanding replaces the holes and nothing else: a value that looks like a template stays as it is. */
  lemma {:induction false} ExpandIsMeaning(ps: seq<Piece>, values: Values)
    requires forall p <- ps :: PieceOk(p)
    ensures Expand(Spell(ps), values) == Meaning(ps, values)
    decreases |ps|
  {
    hide Expand, Behind;
    if ps == [] {
      ExpandNothing(values);
    } else {
      assert ps[0] in ps;
      ExpandIsMeaning(ps[1..], values);
      match ps[0]
      case Literal(text) => LiteralOn(text, Spell(ps[1..]), values);
      case Hole(name) => HoleOn(name, Spell(ps[1..]), values);
    }
  }

  lemma ExpandNothing(values: Values)
    ensures Expand("", values) == Some("")
  {}

  lemma {:induction false} SpelledOn(ps: seq<Piece>, t: string, values: Values)
    requires forall p <- ps :: PieceOk(p)
    ensures Expand(Spell(ps) + t, values) ==
            if Meaning(ps, values).None? then None else Behind(Meaning(ps, values).value, Expand(t, values))
    decreases |ps|
  {
    hide Expand, Behind;
    if ps == [] {
      assert "" + t == t;
      BehindTwice("", "", Expand(t, values));
    } else {
      assert ps[0] in ps;
      SpelledOn(ps[1..], t, values);
      var rest, more := Spell(ps[1..]), Meaning(ps[1..], values);
      match ps[0]
      case Literal(text) =>
        assert Spell(ps) + t == text + (rest + t);
        LiteralOn(text, rest + t, values);
        BehindMore(text, more, Expand(t, values));
      case Hole(name) =>
        assert Spell(ps) + t == "{" + name + "}" + (rest + t);
        HoleOn(name, rest + t, values);
        if name in values {
          BehindMore(values[name], more, Expand(t, values));
        }
    }
  }

  lemma BehindMore(a: string, more: Option<string>, rest: Option<string>)
    ensures Behind(a, None) == None
    ensures more.Some? ==> Behind(a, more).Some? && Behind(a, Behind(more.value, rest)) == Behind(Behind(a, more).value, rest)
  {
    if more.Some? {
      BehindTwice(a, more.value, rest);
    }
  }

  /**
    Every template is spelled from pieces up to a brace that is never closed, if there
    is one; with one it never expands, and without it expands to the pieces' meaning.
  */
  lemma {:induction false} EveryTemplateIsSpelled(template: string) returns (ps: seq<Piece>, open: Option<string>)
    ensures forall p <- ps :: PieceOk(p)
    ensures match open
            case None => template == Spell(ps)
            case Some(rest) => template == Spell(ps) + "{" + rest && '}' !in rest
    ensures forall values :: Expand(template, values) == if open.Some? then None else Meaning(ps, values)
    decreases |template|
  {
    ps, open := Pieces(template);
    hide Expand, Spell, Meaning;
    forall values
      ensures Expand(template, values) == if open.Some? then None else Meaning(ps, values)
    {
      if open.Some? {
        UnclosedFails(open.value, values);
        assert template == Spell(ps) + ("{" + open.value);
        SpelledOn(ps, "{" + open.value, values);
        if Meaning(ps, values).Some? {
          BehindWhole(Meaning(ps, values).value, "");
        }
      } else {
        ExpandIsMeaning(ps, values);
      }
    }
  }

  lemma UnclosedFails(rest: string, values: Values)
    requires '}' !in rest
    ensures Expand("{" + rest, values) == None
  {
    var s := "{" + rest;
    assert s[1..] == rest && s[0] == '{';
    hide Behind;
    assert Text.IndexOf(s, '{') == Some(0);
    BehindWhole("", "");
    assert s[..0] == "";
  }

  lemma {:induction false} Pieces(template: string) returns (ps: seq<Piece>, open: Option<string>)
    ensures forall p <- ps :: PieceOk(p)
    ensures match open
            case None => template == Spell(ps)
            case Some(rest) => template == Spell(ps) + "{" + rest && '}' !in rest
    decreases |template|
  {
    hide Text.IndexOf, Spell;
    var at := Text.IndexOf(template, '{');
    if at.None? {
      ps, open := [Literal(template)], None;
      SpellOne(template);
    } else {
      var front, after := template[..at.value], template[at.value + 1..];
      assert template == front + "{" + after;
      var close := Text.IndexOf(after, '}');
      if close.None? {
        ps, open := [Literal(front)], Some(after);
        SpellOne(front);
      } else {
        var name, rest := after[..close.value], after[close.value + 1..];
        var more: seq<Piece>;
        more, open := Pieces(rest);
        ps := [Literal(front), Hole(name)] + more;
        SpellTwo(front, name, more);
        assert after == name + "}" + rest;
        Regroup(front, name, Spell(more), rest, open);
      }
    }
  }

  lemma SpellOne(front: string)
    ensures Spell([Literal(front)]) == front
  {
    assert Spell([Literal(front)]) == front + Spell([]);
  }

  lemma SpellTwo(front: string, name: string, more: seq<Piece>)
    ensures Spell([Literal(front), Hole(name)] + more) == front + ("{" + name + "}" + Spell(more))
  {
    var ps := [Literal(front), Hole(name)] + more;
    assert ps[1..] == [Hole(name)] + more && ps[1..][1..] == more;
  }

  lemma Regroup(front: string, name: string, spelled: string, rest: string, open: Option<string>)
    requires rest == if open.Some? then spelled + "{" + open.value else spelled
    ensures front + "{" + (name + "}" + rest) ==
            if open.Some? then front + ("{" + name + "}" + spelled) + "{" + open.value
            else front + ("{" + name + "}" + spelled)
  {}

  // ---- Bind mounts ----

  predicate MountSafe(path: string) {
    ',' !in path && '\0' !in path && '\n' !in path && "/" <= path
  }

  function MountSpec(source: string, destination: string, options: string): string {
    "type=bind,source=" + source + ",destination=" + destination + (if options == "" then "" else "," + options)
  }

  const MOUNT_FLAG := "--mount"

  /** `bind`. */
  function Bind(source: string, destination: string, options: string): Option<seq<string>> {
    if MountSafe(source) && MountSafe(destination) then Some([MOUNT_FLAG, MountSpec(source, destination, options)]) else None
  }

  const DESTINATION_KEY := "destination="

  function FindDestination(parts: seq<string>): Option<string> {
    if parts == [] then None
    else if DESTINATION_KEY <= parts[0] then Some(parts[0][|DESTINATION_KEY|..])
    else FindDestination(parts[1..])
  }

  /** `mount_destination`. */
  function MountDestination(spec: string): Option<string> {
    FindDestination(Text.Split(spec, ','))
  }

  /** A mount that is made has exactly the given source and destination: no path can add an option. */
  lemma BindReadsBack(source: string, destination: string, options: string)
    requires Bind(source, destination, options).Some?
    ensures var spec := Bind(source, destination, options).value[1];
      && Text.Split(spec, ',') ==
         ["type=bind", "source=" + source, "destination=" + destination] +
         (if options == "" then [] else Text.Split(options, ','))
      && MountDestination(spec) == Some(destination)
  {
    var s, d := "source=" + source, "destination=" + destination;
    assert ',' !in "source=" && ',' !in "destination=" && ',' !in "type=bind";
    assert ',' !in s && ',' !in d;
    SpecSplits(source, destination, options);
    hide Text.Split;
    DestinationIsThird(s, d, if options == "" then [] else Text.Split(options, ','), destination);
  }

  /** An absolute path without comma, NUL or newline. */
  predicate Bindable(path: string) {
    path != "" && path[0] == '/' && forall c <- path :: c != ',' && c as int != 0 && c as int != 10
  }

  lemma BindableIsSafe(path: string)
    ensures MountSafe(path) <==> Bindable(path)
  {}

  /** A mount is made of two such paths and refused for any other. */
  lemma BindIff(source: string, destination: string, options: string)
    ensures Bind(source, destination, options).Some? <==> Bindable(source) && Bindable(destination)
    ensures Bind(source, destination, options).Some? ==>
              var made := Bind(source, destination, options).value;
              |made| == 2 && made[0] == "--mount"
  {
    BindableIsSafe(source);
    BindableIsSafe(destination);
    hide MountSafe, Bindable, MountSpec;
  }

  lemma SpecShape(source: string, destination: string, options: string)
    ensures MountSpec(source, destination, options) ==
            "type=bind" + [','] + ("source=" + source + [','] +
            ("destination=" + destination + (if options == "" then "" else [','] + options)))
  {}

  lemma SpecSplits(source: string, destination: string, options: string)
    requires var s, d := "source=" + source, "destination=" + destination; ',' !in s && ',' !in d
    ensures Text.Split(MountSpec(source, destination, options), ',') ==
            ["type=bind", "source=" + source, "destination=" + destination] +
            (if options == "" then [] else Text.Split(options, ','))
  {
    hide *;
    var s, d := "source=" + source, "destination=" + destination;
    SpecShape(source, destination, options);
    assert ',' !in "type=bind";
    var last := d + (if options == "" then "" else [','] + options);
    DestinationSplits(d, options);
    Text.SplitPart(s, last, ',');
    Text.SplitPart("type=bind", s + [','] + last, ',');
  }

  lemma DestinationSplits(d: string, options: string)
    requires ',' !in d
    ensures Text.Split(d + (if options == "" then "" else [','] + options), ',') ==
            [d] + (if options == "" then [] else Text.Split(options, ','))
  {
    hide *;
    Text.SplitPart(d, options, ',');
    assert d + "" == d && d + ([','] + options) == d + [','] + options;
  }

  lemma DestinationIsThird(s: string, d: string, tail: seq<string>, destination: string)
    requires "source=" <= s && d == DESTINATION_KEY + destination
    ensures FindDestination(["type=bind", s, d] + tail) == Some(destination)
  {
    var parts := ["type=bind", s, d] + tail;
    assert s[0] == 's' && DESTINATION_KEY[0] == 'd' && parts[0][0] == 't';
    assert parts[1..] == [s, d] + tail && parts[1..][1..] == [d] + tail;
    assert d[|DESTINATION_KEY|..] == destination;
    assert FindDestination([d] + tail) == Some(destination);
  }

  // ---- One mount for each destination ----

  /** Arguments as the runner reads them: a `--mount` that is followed by something, or any other. */
  datatype Word = MountWord(spec: string) | Other(arg: string)

  function Words(argv: seq<string>): seq<Word>
    decreases |argv|
  {
    if argv == [] then []
    else if argv[0] == MOUNT_FLAG && |argv| > 1 then [MountWord(argv[1])] + Words(argv[2..])
    else [Other(argv[0])] + Words(argv[1..])
  }

  function Drop(argv: seq<string>, seen: set<string>): seq<string>
    decreases |argv|
  {
    if argv == [] then []
    else if argv[0] == MOUNT_FLAG && |argv| > 1 then
      match MountDestination(argv[1])
      case None => argv[..2] + Drop(argv[2..], seen)
      case Some(d) => if d in seen then Drop(argv[2..], seen) else argv[..2] + Drop(argv[2..], seen + {d})
    else argv[..1] + Drop(argv[1..], seen)
  }

  /** `drop_duplicate_mounts`. */
  method DropDuplicateMounts(argv: seq<string>) returns (out: seq<string>)
    ensures out == Drop(argv, {})
  {
    hide MountDestination;
    var seen: set<string> := {};
    out := [];
    var i := 0;
    assert argv[0..] == argv && [] + Drop(argv, {}) == Drop(argv, {});
    while i < |argv|
      invariant 0 <= i <= |argv|
      invariant out + Drop(argv[i..], seen) == Drop(argv, {})
    {
      DropStep(argv, i, seen, out);
      if argv[i] == MOUNT_FLAG && i + 1 < |argv| {
        var d := MountDestination(argv[i + 1]);
        var isFresh := d.None? || d.value !in seen;
        if d.Some? {
          seen := seen + {d.value};
        }
        if isFresh {
          out := out + [argv[i]];
          out := out + [argv[i + 1]];
        }
        i := i + 2;
      } else {
        out := out + [argv[i]];
        i := i + 1;
      }
    }
    assert argv[i..] == [] && out + [] == out;
  }

  lemma DropStep(argv: seq<string>, i: nat, seen: set<string>, out: seq<string>)
    requires i < |argv|
    ensures out + Drop(argv[i..], seen) ==
            if argv[i] == MOUNT_FLAG && i + 1 < |argv| then
              var d := MountDestination(argv[i + 1]);
              if d.Some? && d.value in seen then out + Drop(argv[i + 2..], seen + {d.value})
              else out + [argv[i]] + [argv[i + 1]] + Drop(argv[i + 2..], if d.Some? then seen + {d.value} else seen)
            else out + [argv[i]] + Drop(argv[i + 1..], seen)
  {
    hide MountDestination;
    var rest := argv[i..];
    assert rest[1..] == argv[i + 1..] && rest[..1] == [argv[i]];
    if argv[i] == MOUNT_FLAG && i + 1 < |argv| {
      assert rest[2..] == argv[i + 2..] && rest[..2] == [argv[i], argv[i + 1]];
      var d := MountDestination(argv[i + 1]);
      if d.Some? && d.value in seen {
        assert seen + {d.value} == seen;
      } else {
        var more := Drop(argv[i + 2..], if d.Some? then seen + {d.value} else seen);
        assert out + ([argv[i], argv[i + 1]] + more) == out + [argv[i]] + [argv[i + 1]] + more;
      }
    } else {
      assert out + ([argv[i]] + Drop(argv[i + 1..], seen)) == out + [argv[i]] + Drop(argv[i + 1..], seen);
    }
  }

  function DestinationOf(w: Word): Option<string> {
    if w.MountWord? then MountDestination(w.spec) else None
  }

  function DropWords(ws: seq<Word>, seen: set<string>): seq<Word> {
    if ws == [] then []
    else
      var d := DestinationOf(ws[0]);
      if d.None? then [ws[0]] + DropWords(ws[1..], seen)
      else if d.value in seen then DropWords(ws[1..], seen)
      else [ws[0]] + DropWords(ws[1..], seen + {d.value})
  }

  /** Dropping leaves no argument that would be read differently than before. */
  lemma {:induction false} DropIsOnWords(argv: seq<string>, seen: set<string>)
    ensures Words(Drop(argv, seen)) == DropWords(Words(argv), seen)
    ensures argv == [] ==> Drop(argv, seen) == []
    decreases |argv|
  {
    hide MountDestination;
    if argv != [] {
      if argv[0] == MOUNT_FLAG && |argv| > 1 {
        var d := MountDestination(argv[1]);
        var next := if d.Some? then seen + {d.value} else seen;
        DropIsOnWords(argv[2..], seen);
        DropIsOnWords(argv[2..], next);
        assert Words(argv)[1..] == Words(argv[2..]);
        MountWordOn(argv, Drop(argv[2..], next));
      } else {
        DropIsOnWords(argv[1..], seen);
        assert Words(argv)[1..] == Words(argv[1..]);
        OtherWordOn(argv, Drop(argv[1..], seen));
      }
    }
  }

  lemma MountWordOn(argv: seq<string>, rest: seq<string>)
    requires |argv| > 1 && argv[0] == MOUNT_FLAG
    ensures Words(argv[..2] + rest) == [MountWord(argv[1])] + Words(rest)
  {
    assert (argv[..2] + rest)[2..] == rest;
  }

  lemma OtherWordOn(argv: seq<string>, rest: seq<string>)
    requires argv != [] && !(argv[0] == MOUNT_FLAG && |argv| > 1)
    requires |argv| == 1 ==> rest == []
    ensures Words(argv[..1] + rest) == [Other(argv[0])] + Words(rest)
  {
    assert (argv[..1] + rest)[1..] == rest;
    assert argv[..1] + rest == [argv[0]] + rest;
  }

  ghost predicate DestinationsDiffer(ws: seq<Word>) {
    forall i, j :: 0 <= i < j < |ws| && DestinationOf(ws[i]).Some? ==> DestinationOf(ws[i]) != DestinationOf(ws[j])
  }

  lemma {:induction false} DropWordsKeeps(ws: seq<Word>, seen: set<string>)
    ensures forall w <- DropWords(ws, seen) :: w in ws && (DestinationOf(w).Some? ==> DestinationOf(w).value !in seen)
    ensures DestinationsDiffer(DropWords(ws, seen))
    decreases |ws|
  {
    hide DestinationOf;
    if ws != [] {
      var d := DestinationOf(ws[0]);
      var next := if d.Some? then seen + {d.value} else seen;
      DropWordsKeeps(ws[1..], seen);
      DropWordsKeeps(ws[1..], next);
      var rest := DropWords(ws[1..], next);
      if d.None? || d.value !in seen {
        assert DropWords(ws, seen) == [ws[0]] + rest;
        OneMoreDiffers(ws[0], rest);
      }
      hide DestinationsDiffer;
    }
  }

  lemma OneMoreDiffers(w: Word, rest: seq<Word>)
    requires DestinationsDiffer(rest)
    requires DestinationOf(w).Some? ==> forall x <- rest :: DestinationOf(x) != DestinationOf(w)
    ensures DestinationsDiffer([w] + rest)
  {
    hide DestinationOf;
    var all := [w] + rest;
    forall i, j | 0 <= i < j < |all| && DestinationOf(all[i]).Some?
      ensures DestinationOf(all[i]) != DestinationOf(all[j])
    {
      assert all[j] == rest[j - 1] && rest[j - 1] in rest;
      if i > 0 {
        assert all[i] == rest[i - 1];
      }
    }
  }

  /** No two mounts of the final arguments have one destination, whatever the rules overlapped in. */
  lemma NoDestinationTwice(argv: seq<string>)
    ensures DestinationsDiffer(Words(Drop(argv, {})))
  {
    DropIsOnWords(argv, {});
    DropWordsKeeps(Words(argv), {});
  }

  /** The mount that a destination gets. */
  function FirstMount(ws: seq<Word>, d: string): Option<Word> {
    if ws == [] then None
    else if DestinationOf(ws[0]) == Some(d) then Some(ws[0]) else FirstMount(ws[1..], d)
  }

  lemma {:induction false} FirstMountStays(ws: seq<Word>, seen: set<string>, d: string)
    requires d !in seen
    ensures FirstMount(DropWords(ws, seen), d) == FirstMount(ws, d)
    decreases |ws|
  {
    hide DestinationOf;
    if ws != [] {
      var e := DestinationOf(ws[0]);
      if e.None? {
        FirstMountStays(ws[1..], seen, d);
        assert ([ws[0]] + DropWords(ws[1..], seen))[1..] == DropWords(ws[1..], seen);
      } else if e.value in seen {
        FirstMountStays(ws[1..], seen, d);
      } else if e.value != d {
        var next := seen + {e.value};
        FirstMountStays(ws[1..], next, d);
        assert ([ws[0]] + DropWords(ws[1..], next))[1..] == DropWords(ws[1..], next);
      }
    }
  }

  function Others(ws: seq<Word>): seq<Word> {
    if ws == [] then [] else (if DestinationOf(ws[0]).None? then [ws[0]] else []) + Others(ws[1..])
  }

  lemma {:induction false} OthersStay(ws: seq<Word>, seen: set<string>)
    ensures Others(DropWords(ws, seen)) == Others(ws)
    decreases |ws|
  {
    hide DestinationOf;
    if ws != [] {
      var d := DestinationOf(ws[0]);
      var next := if d.Some? then seen + {d.value} else seen;
      OthersStay(ws[1..], seen);
      OthersStay(ws[1..], next);
      assert ([ws[0]] + DropWords(ws[1..], next))[1..] == DropWords(ws[1..], next);
    }
  }

  /** Every destination keeps the first mount that named it, and every other argument stays in its order. */
  lemma FirstMountWins(argv: seq<string>, d: string)
    ensures FirstMount(Words(Drop(argv, {})), d) == FirstMount(Words(argv), d)
    ensures Others(Words(Drop(argv, {}))) == Others(Words(argv))
  {
    DropIsOnWords(argv, {});
    FirstMountStays(Words(argv), {}, d);
    OthersStay(Words(argv), {});
  }

  lemma {:induction false} NothingToDrop(argv: seq<string>, seen: set<string>)
    requires DestinationsDiffer(Words(argv))
    requires forall w <- Words(argv) :: DestinationOf(w).Some? ==> DestinationOf(w).value !in seen
    ensures Drop(argv, seen) == argv
    decreases |argv|
  {
    hide MountDestination;
    if argv != [] {
      var ws := Words(argv);
      var k := if argv[0] == MOUNT_FLAG && |argv| > 1 then 2 else 1;
      var rest := Words(argv[k..]);
      assert ws == [ws[0]] + rest;
      assert forall i :: 0 <= i < |rest| ==> rest[i] == ws[i + 1];
      var d := DestinationOf(ws[0]);
      var next := if d.Some? then seen + {d.value} else seen;
      assert ws[0] in ws;
      assert d == if k == 2 then MountDestination(argv[1]) else None;
      hide DestinationOf, Words;
      RestDiffers(ws, rest, seen);
      NothingToDrop(argv[k..], next);
      assert argv == argv[..k] + argv[k..];
    }
  }

  lemma RestDiffers(ws: seq<Word>, rest: seq<Word>, seen: set<string>)
    requires ws != [] && rest == ws[1..] && DestinationsDiffer(ws)
    requires forall w <- ws :: DestinationOf(w).Some? ==> DestinationOf(w).value !in seen
    ensures DestinationsDiffer(rest)
    ensures var d := DestinationOf(ws[0]);
      var next := if d.Some? then seen + {d.value} else seen;
      forall w <- rest :: DestinationOf(w).Some? ==> DestinationOf(w).value !in next
  {
    hide DestinationOf;
    assert forall i :: 0 <= i < |rest| ==> rest[i] == ws[i + 1];
    forall w | w in rest && DestinationOf(w).Some?
      ensures w in ws && DestinationOf(w) != DestinationOf(ws[0])
    {
      var i :| 0 <= i < |rest| && rest[i] == w;
      assert ws[i + 1] == w;
    }
  }

  /** Dropping twice is dropping once. */
  lemma DropIsIdempotent(argv: seq<string>)
    ensures Drop(Drop(argv, {}), {}) == Drop(argv, {})
  {
    NoDestinationTwice(argv);
    NothingToDrop(Drop(argv, {}), {});
  }

  // ---- Sorting what a wildcard found ----

  predicate NotAfter(a: string, b: string)
    decreases |a|
  {
    a == "" || (b != "" && (a[0] < b[0] || (a[0] == b[0] && NotAfter(a[1..], b[1..]))))
  }

  function Insert(s: string, sorted: seq<string>): seq<string> {
    if sorted == [] || NotAfter(s, sorted[0]) then [s] + sorted else [sorted[0]] + Insert(s, sorted[1..])
  }

  /** `Vec::sort`. */
  function Sort(xs: seq<string>): seq<string> {
    if xs == [] then [] else Insert(xs[0], Sort(xs[1..]))
  }

  lemma {:induction false} OrderIsTotal(a: string, b: string)
    ensures NotAfter(a, b) || NotAfter(b, a)
    ensures NotAfter(a, b) && NotAfter(b, a) ==> a == b
    decreases |a|
  {
    if a != "" && b != "" && a[0] == b[0] {
      OrderIsTotal(a[1..], b[1..]);
      assert a == [a[0]] + a[1..] && b == [b[0]] + b[1..];
    }
  }

  lemma {:induction false} OrderIsTransitive(a: string, b: string, c: string)
    requires NotAfter(a, b) && NotAfter(b, c)
    ensures NotAfter(a, c)
    decreases |a|
  {
    if a != "" && a[0] == b[0] && b[0] == c[0] {
      OrderIsTransitive(a[1..], b[1..], c[1..]);
    }
  }

  ghost predicate Sorted(xs: seq<string>) {
    forall i, j :: 0 <= i < j < |xs| ==> NotAfter(xs[i], xs[j])
  }

  lemma {:induction false} InsertCounts(s: string, sorted: seq<string>)
    ensures multiset(Insert(s, sorted)) == multiset(sorted) + multiset{s}
    decreases |sorted|
  {
    hide NotAfter;
    if sorted != [] && !NotAfter(s, sorted[0]) {
      InsertCounts(s, sorted[1..]);
      assert sorted == [sorted[0]] + sorted[1..];
    }
  }

  lemma InsertMembers(s: string, sorted: seq<string>, x: string)
    ensures x in Insert(s, sorted) <==> x == s || x in sorted
  {
    InsertCounts(s, sorted);
    hide Insert;
    assert x in Insert(s, sorted) <==> x in multiset(Insert(s, sorted));
    assert x in sorted <==> x in multiset(sorted);
  }

  lemma {:induction false} InsertKeeps(s: string, sorted: seq<string>)
    requires Sorted(sorted)
    ensures Sorted(Insert(s, sorted))
    decreases |sorted|
  {
    hide NotAfter;
    if sorted == [] {
    } else if NotAfter(s, sorted[0]) {
      forall x | x in sorted
        ensures NotAfter(s, x)
      {
        var i :| 0 <= i < |sorted| && sorted[i] == x;
        if i > 0 {
          OrderIsTransitive(s, sorted[0], x);
        }
      }
      hide Sorted;
      ConsSorted(s, sorted);
    } else {
      OrderIsTotal(s, sorted[0]);
      TailSorted(sorted);
      InsertKeeps(s, sorted[1..]);
      forall x | x in Insert(s, sorted[1..])
        ensures NotAfter(sorted[0], x)
      {
        InsertMembers(s, sorted[1..], x);
        if x != s {
          var i :| 0 <= i < |sorted[1..]| && sorted[1..][i] == x;
          assert sorted[i + 1] == x;
        }
      }
      ConsSorted(sorted[0], Insert(s, sorted[1..]));
      hide Sorted;
    }
  }

  lemma ConsSorted(first: string, more: seq<string>)
    requires Sorted(more) && forall x <- more :: NotAfter(first, x)
    ensures Sorted([first] + more)
  {
    hide NotAfter;
    var all := [first] + more;
    forall i, j | 0 <= i < j < |all|
      ensures NotAfter(all[i], all[j])
    {
      assert all[j] == more[j - 1] && more[j - 1] in more;
      if i > 0 {
        assert all[i] == more[i - 1];
      }
    }
  }

  lemma {:induction false} SortSorts(xs: seq<string>)
    ensures Sorted(Sort(xs)) && multiset(Sort(xs)) == multiset(xs)
    decreases |xs|
  {
    if xs != [] {
      SortSorts(xs[1..]);
      InsertKeeps(xs[0], Sort(xs[1..]));
      InsertCounts(xs[0], Sort(xs[1..]));
      assert xs == [xs[0]] + xs[1..];
    }
  }

  lemma LeastIsFirst(xs: seq<string>, ys: seq<string>)
    requires xs != [] && Sorted(xs) && Sorted(ys) && multiset(xs) == multiset(ys)
    ensures ys != [] && xs[0] == ys[0]
  {
    hide NotAfter;
    assert xs[0] in multiset(ys);
    var j :| 0 <= j < |ys| && ys[j] == xs[0];
    assert ys[0] in multiset(xs);
    var i :| 0 <= i < |xs| && xs[i] == ys[0];
    assert i > 0 ==> NotAfter(xs[0], ys[0]);
    assert j > 0 ==> NotAfter(ys[0], xs[0]);
    OrderIsTotal(xs[0], ys[0]);
  }

  lemma TailCounts(xs: seq<string>)
    requires xs != []
    ensures multiset(xs[1..]) == multiset(xs) - multiset{xs[0]}
  {
    assert xs == [xs[0]] + xs[1..];
  }

  /** There is one sorted order. */
  lemma {:induction false} SortedIsUnique(xs: seq<string>, ys: seq<string>)
    requires Sorted(xs) && Sorted(ys) && multiset(xs) == multiset(ys)
    ensures xs == ys
    decreases |xs|
  {
    hide *;
    if xs == [] {
      assert |ys| == |multiset(ys)|;
    } else {
      LeastIsFirst(xs, ys);
      TailCounts(xs);
      TailCounts(ys);
      TailSorted(xs);
      TailSorted(ys);
      SortedIsUnique(xs[1..], ys[1..]);
      assert xs == [xs[0]] + xs[1..] && ys == [ys[0]] + ys[1..];
    }
  }

  lemma TailSorted(xs: seq<string>)
    requires xs != [] && Sorted(xs)
    ensures Sorted(xs[1..])
  {
    hide NotAfter;
    assert forall i :: 0 <= i < |xs[1..]| ==> xs[1..][i] == xs[i + 1];
  }

  // ---- Rules and items ----

  const MAX_BINDS := 512

  /** What the file system answers: the names in a directory, what can be bound, and what exists. */
  datatype Disk = Disk(list: string -> seq<string>, bindable: string -> bool, isThere: string -> bool)

  function TrimSlashes(s: string): string
    decreases |s|
  {
    if s != "" && s[|s| - 1] == '/' then TrimSlashes(s[..|s| - 1]) else s
  }

  function InDirectory(dir: string, file: string): string {
    TrimSlashes(dir) + "/" + file
  }

  function Matching(disk: Disk, dir: string, name: string, files: seq<string>): seq<string> {
    if files == [] then []
    else
      var path := InDirectory(dir, files[0]);
      (if Glob.GlobMatch(name, files[0]) && disk.bindable(path) then [path] else []) +
      Matching(disk, dir, name, files[1..])
  }

  function BindAll(paths: seq<string>, options: string): Option<seq<string>> {
    if paths == [] then Some([])
    else if Bind(paths[0], paths[0], options).None? || BindAll(paths[1..], options).None? then None
    else Some(Bind(paths[0], paths[0], options).value + BindAll(paths[1..], options).value)
  }

  /** The mounts of an expanded pattern. */
  function ExpandPattern(disk: Disk, pattern: string, options: string): Option<seq<string>> {
    match Text.LastIndexOf(pattern, '/')
    case None => None
    case Some(k) =>
      var dir, name := if k == 0 then "/" else pattern[..k], pattern[k + 1..];
      var found :=
        if '*' in name || '?' in name then Matching(disk, dir, name, disk.list(dir))
        else if disk.isThere(pattern) then [pattern] else [];
      if |Sort(found)| > MAX_BINDS then None else BindAll(Sort(found), options)
  }

  /** `expand_rule`. */
  function ExpandRule(disk: Disk, rule: Plan.Rule, values: Values): Option<seq<string>> {
    match rule
    case Mount(pattern, options) =>
      (match Expand(pattern, values)
       case None => None
       case Some(p) => ExpandPattern(disk, p, options))
    case MountAs(source, destination, options) =>
      (match Expand(source, values)
       case None => None
       case Some(s) =>
         if !disk.isThere(s) then Some([])
         else
           match Expand(destination, values)
           case None => None
           case Some(d) => Bind(s, d, options))
  }

  lemma {:induction false} MatchingIsByName(disk: Disk, dir: string, name: string, a: seq<string>, b: seq<string>)
    ensures Matching(disk, dir, name, a + b) == Matching(disk, dir, name, a) + Matching(disk, dir, name, b)
    decreases |a|
  {
    hide Glob.GlobMatch, InDirectory;
    if a == [] {
      assert a + b == b;
    } else {
      assert (a + b)[1..] == a[1..] + b;
      MatchingIsByName(disk, dir, name, a[1..], b);
    }
  }

  lemma {:induction false} MatchingOfSame(disk: Disk, dir: string, name: string, a: seq<string>, b: seq<string>)
    requires multiset(a) == multiset(b)
    ensures multiset(Matching(disk, dir, name, a)) == multiset(Matching(disk, dir, name, b))
    decreases |a|
  {
    hide Matching;
    if a == [] {
      assert |b| == |multiset(b)|;
    } else {
      assert a[0] in multiset(b);
      var j :| 0 <= j < |b| && b[j] == a[0];
      var x, y, mid := b[..j], b[j + 1..], [a[0]];
      assert a == mid + a[1..];
      assert b == x + (mid + y);
      assert multiset(x + y) == multiset(b) - multiset{a[0]};
      assert multiset(a[1..]) == multiset(a) - multiset{a[0]};
      MatchingOfSame(disk, dir, name, a[1..], x + y);
      MatchingIsByName(disk, dir, name, mid, a[1..]);
      MatchingIsByName(disk, dir, name, x, mid + y);
      MatchingIsByName(disk, dir, name, mid, y);
      MatchingIsByName(disk, dir, name, x, y);
    }
  }

  /** The order in which a directory is read does not show in the arguments. */
  lemma ListingOrderIsIrrelevant(disk: Disk, other: Disk, pattern: string, options: string)
    requires disk.bindable == other.bindable && disk.isThere == other.isThere
    requires forall dir :: multiset(disk.list(dir)) == multiset(other.list(dir))
    ensures ExpandPattern(disk, pattern, options) == ExpandPattern(other, pattern, options)
  {
    hide *;
    PatternFinds(disk, pattern, options);
    PatternFinds(other, pattern, options);
    var slash := Text.LastIndexOf(pattern, '/');
    if slash.Some? {
      var k := slash.value;
      SameSorted(disk, other, if k == 0 then "/" else pattern[..k], pattern[k + 1..]);
    }
  }

  lemma SameSorted(disk: Disk, other: Disk, dir: string, name: string)
    requires disk.bindable == other.bindable && multiset(disk.list(dir)) == multiset(other.list(dir))
    ensures Sort(Matching(disk, dir, name, disk.list(dir))) == Sort(Matching(other, dir, name, other.list(dir)))
  {
    hide *;
    var a, b := Matching(disk, dir, name, disk.list(dir)), Matching(other, dir, name, other.list(dir));
    SameMatching(disk, other, dir, name, other.list(dir));
    MatchingOfSame(disk, dir, name, disk.list(dir), other.list(dir));
    SortSorts(a);
    SortSorts(b);
    SortedIsUnique(Sort(a), Sort(b));
  }

  lemma PatternFinds(disk: Disk, pattern: string, options: string)
    ensures var slash := Text.LastIndexOf(pattern, '/');
      ExpandPattern(disk, pattern, options) ==
      if slash.None? then None
      else
        var dir, name := if slash.value == 0 then "/" else pattern[..slash.value], pattern[slash.value + 1..];
        var sorted :=
          if '*' in name || '?' in name then Sort(Matching(disk, dir, name, disk.list(dir)))
          else Sort(if disk.isThere(pattern) then [pattern] else []);
        if |sorted| > MAX_BINDS then None else BindAll(sorted, options)
  {
    hide Text.LastIndexOf, Sort, Matching, BindAll;
  }

  lemma {:induction false} SameMatching(disk: Disk, other: Disk, dir: string, name: string, files: seq<string>)
    requires disk.bindable == other.bindable
    ensures Matching(disk, dir, name, files) == Matching(other, dir, name, files)
    decreases |files|
  {
    hide Glob.GlobMatch, InDirectory;
    if files != [] {
      SameMatching(disk, other, dir, name, files[1..]);
    }
  }

  /** A wildcard leaves the hidden files out: a hidden name is bound only by a pattern whose own name is hidden. */
  lemma {:induction false} HiddenNeedsHiddenPattern(disk: Disk, dir: string, name: string, files: seq<string>,
        path: string)
    requires path in Matching(disk, dir, name, files)
    ensures exists file :: file in files && path == InDirectory(dir, file) && disk.bindable(path) &&
                           Glob.Means(name, file, true) && ("." <= file ==> "." <= name)
    decreases |files|
  {
    hide InDirectory, Glob.Means;
    var first := InDirectory(dir, files[0]);
    if Glob.GlobMatch(name, files[0]) && disk.bindable(first) && path == first {
      Glob.GoIsMeaning(name, files[0]);
      assert files[0] in files;
    } else {
      assert path in Matching(disk, dir, name, files[1..]);
      HiddenNeedsHiddenPattern(disk, dir, name, files[1..], path);
    }
  }

  function ExpandRules(disk: Disk, rules: seq<Plan.Rule>, values: Values): Option<seq<string>> {
    if rules == [] then Some([])
    else if ExpandRule(disk, rules[0], values).None? || ExpandRules(disk, rules[1..], values).None? then None
    else Some(ExpandRule(disk, rules[0], values).value + ExpandRules(disk, rules[1..], values).value)
  }

  function ResolveItem(disk: Disk, item: Plan.Item, providers: map<string, seq<Plan.Rule>>,
        values: Values): Option<seq<string>> {
    match item
    case Lit(text) => Some([text])
    case Var(name, prefix, suffix) => if name in values then Some([prefix + values[name] + suffix]) else None
    case Splice(name) => if name in providers then ExpandRules(disk, providers[name], values) else None
  }

  function ResolveItems(disk: Disk, items: seq<Plan.Item>, providers: map<string, seq<Plan.Rule>>, values: Values)
    : Option<seq<string>>
  {
    if items == [] then Some([])
    else
      var first, rest := ResolveItem(disk, items[0], providers, values), ResolveItems(disk, items[1..], providers, values);
      if first.None? || rest.None? then None else Some(first.value + rest.value)
  }

  /** `resolve`. */
  method Resolve(disk: Disk, items: seq<Plan.Item>, providers: map<string, seq<Plan.Rule>>, values: Values)
      returns (r: Option<seq<string>>)
    ensures var all := ResolveItems(disk, items, providers, values);
      r == if all.None? then None else Some(Drop(all.value, {}))
    ensures r.Some? ==> DestinationsDiffer(Words(r.value))
  {
    hide *;
    var argv: seq<string> := [];
    ghost var all := ResolveItems(disk, items, providers, values);
    assert items[0..] == items;
    OnNothing(all);
    var i := 0;
    while i < |items|
      invariant 0 <= i <= |items|
      invariant all == On(argv, ResolveItems(disk, items[i..], providers, values))
    {
      ItemsUnfold(disk, items, i, providers, values);
      ghost var left := ResolveItems(disk, items[i + 1..], providers, values);
      ItemIs(disk, items[i], providers, values);
      ghost var was := argv;
      OnFailed(was);
      match items[i] {
        case Lit(text) => argv := argv + [text];
        case Var(name, prefix, suffix) =>
          if name !in values {
            return None;
          }
          argv := argv + [prefix + values[name] + suffix];
        case Splice(name) =>
          if name !in providers {
            return None;
          }
          var more := Splice(disk, providers[name], values);
          if more.None? {
            return None;
          }
          argv := argv + more.value;
      }
      OnTwice(was, ResolveItem(disk, items[i], providers, values).value, left);
      i := i + 1;
    }
    assert items[i..] == [];
    ItemsNone(disk, providers, values);
    OnWhole(argv);
    var out := DropDuplicateMounts(argv);
    NoDestinationTwice(argv);
    return Some(out);
  }

  ghost function On(front: seq<string>, rest: Option<seq<string>>): Option<seq<string>> {
    if rest.None? then None else Some(front + rest.value)
  }

  lemma OnNothing(rest: Option<seq<string>>)
    ensures On([], rest) == rest
  {
    if rest.Some? {
      assert [] + rest.value == rest.value;
    }
  }

  lemma OnFailed(front: seq<string>)
    ensures On(front, None) == None
  {}

  lemma OnWhole(front: seq<string>)
    ensures On(front, Some([])) == Some(front)
  {
    assert front + [] == front;
  }

  lemma OnTwice(a: seq<string>, b: seq<string>, rest: Option<seq<string>>)
    ensures On(a, On(b, rest)) == On(a + b, rest)
  {
    if rest.Some? {
      assert a + (b + rest.value) == a + b + rest.value;
    }
  }

  lemma ItemIs(disk: Disk, item: Plan.Item, providers: map<string, seq<Plan.Rule>>, values: Values)
    ensures var r := ResolveItem(disk, item, providers, values);
      && (item.Lit? ==> r == Some([item.text]))
      && (item.Var? ==> r == if item.name in values then Some([item.prefix + values[item.name] + item.suffix]) else None)
      && (item.Splice? ==>
            r == if item.provider in providers then ExpandRules(disk, providers[item.provider], values) else None)
  {}

  lemma ItemsNone(disk: Disk, providers: map<string, seq<Plan.Rule>>, values: Values)
    ensures ResolveItems(disk, [], providers, values) == Some([])
  {}

  lemma ItemsUnfold(disk: Disk, items: seq<Plan.Item>, i: nat, providers: map<string, seq<Plan.Rule>>, values: Values)
    requires i < |items|
    ensures var first := ResolveItem(disk, items[i], providers, values);
      ResolveItems(disk, items[i..], providers, values) ==
      if first.None? then None else On(first.value, ResolveItems(disk, items[i + 1..], providers, values))
  {
    hide ResolveItem;
    assert items[i..][1..] == items[i + 1..] && items[i..][0] == items[i];
  }

  method Splice(disk: Disk, rules: seq<Plan.Rule>, values: Values) returns (r: Option<seq<string>>)
    ensures r == ExpandRules(disk, rules, values)
  {
    hide ExpandRule;
    var args: seq<string> := [];
    ghost var all := ExpandRules(disk, rules, values);
    assert rules[0..] == rules && (all.Some? ==> [] + all.value == all.value);
    var i := 0;
    while i < |rules|
      invariant 0 <= i <= |rules|
      invariant var left := ExpandRules(disk, rules[i..], values);
        all == if left.None? then None else Some(args + left.value)
    {
      assert rules[i..][1..] == rules[i + 1..] && rules[i..][0] == rules[i];
      ghost var left := ExpandRules(disk, rules[i + 1..], values);
      var one := ExpandRule(disk, rules[i], values);
      if one.None? {
        return None;
      }
      assert left.Some? ==> args + (one.value + left.value) == args + one.value + left.value;
      args := args + one.value;
      i := i + 1;
    }
    assert args + [] == args;
    return Some(args);
  }


  // ---- What a provider can splice in ----

  function Options(rule: Plan.Rule): string {
    match rule
    case Mount(_, options) => options
    case MountAs(_, _, options) => options
  }

  /** What an expanded pattern stands for on this disk. */
  ghost predicate Stands(disk: Disk, pattern: string, path: string) {
    match Text.LastIndexOf(pattern, '/')
    case None => false
    case Some(k) =>
      var dir, name := if k == 0 then "/" else pattern[..k], pattern[k + 1..];
      if '*' in name || '?' in name then
        exists file :: file in disk.list(dir) && path == InDirectory(dir, file) &&
                       Glob.Matches(name, file) && disk.bindable(path)
      else path == pattern && disk.isThere(pattern)
  }

  /** The rule asks for this source at this destination. */
  ghost predicate Asks(disk: Disk, rule: Plan.Rule, values: Values, source: string, destination: string) {
    match rule
    case Mount(pattern, _) =>
      source == destination && Expand(pattern, values).Some? && Stands(disk, Expand(pattern, values).value, source)
    case MountAs(from, to, _) =>
      Expand(from, values) == Some(source) && Expand(to, values) == Some(destination) && disk.isThere(source)
  }

  /** A mount of two safe paths, read as exactly these and the given options. */
  ghost predicate IsMount(spec: string, source: string, destination: string, options: string) {
    && Bindable(source) && Bindable(destination) && spec == MountSpec(source, destination, options)
    && Text.Split(spec, ',') ==
       ["type=bind", "source=" + source, "destination=" + destination] +
       (if options == "" then [] else Text.Split(options, ','))
  }

  /** The value of a mount one of the rules asks for, with that rule's own options. */
  ghost predicate FromARule(disk: Disk, rules: seq<Plan.Rule>, values: Values, spec: string) {
    exists rule, source, destination ::
      rule in rules && Asks(disk, rule, values, source, destination) && IsMount(spec, source, destination, Options(rule))
  }

  /** One such mount after the other, and nothing else. */
  ghost predicate MountsFrom(disk: Disk, rules: seq<Plan.Rule>, values: Values, argv: seq<string>)
    decreases |argv|
  {
    argv != [] ==>
      && |argv| > 1 && argv[0] == MOUNT_FLAG && FromARule(disk, rules, values, argv[1])
      && MountsFrom(disk, rules, values, argv[2..])
  }

  lemma BindIsFrom(disk: Disk, rules: seq<Plan.Rule>, rule: Plan.Rule, values: Values, source: string,
        destination: string)
    requires rule in rules && Asks(disk, rule, values, source, destination)
    requires Bind(source, destination, Options(rule)).Some?
    ensures MountsFrom(disk, rules, values, Bind(source, destination, Options(rule)).value)
  {
    BindReadsBack(source, destination, Options(rule));
    BindIff(source, destination, Options(rule));
    var argv := Bind(source, destination, Options(rule)).value;
    hide Asks, Text.Split, MountDestination, MountSpec, MountSafe, Bindable;
    assert IsMount(argv[1], source, destination, Options(rule));
    hide IsMount;
    assert FromARule(disk, rules, values, argv[1]);
    hide FromARule;
    assert argv[2..] == [];
  }

  lemma NothingIsFrom(disk: Disk, rules: seq<Plan.Rule>, values: Values)
    ensures MountsFrom(disk, rules, values, [])
  {}

  lemma {:induction false} MountsFromAppend(disk: Disk, rules: seq<Plan.Rule>, values: Values, a: seq<string>,
        b: seq<string>)
    requires MountsFrom(disk, rules, values, a) && MountsFrom(disk, rules, values, b)
    ensures MountsFrom(disk, rules, values, a + b)
    decreases |a|
  {
    hide FromARule;
    if a == [] {
      assert a + b == b;
    } else {
      MountsFromAppend(disk, rules, values, a[2..], b);
      assert (a + b)[2..] == a[2..] + b;
    }
  }

  /** What is from some of the rules is from all of them. */
  lemma {:induction false} MountsFromMore(disk: Disk, some: seq<Plan.Rule>, rules: seq<Plan.Rule>, values: Values,
        argv: seq<string>)
    requires MountsFrom(disk, some, values, argv) && forall rule <- some :: rule in rules
    ensures MountsFrom(disk, rules, values, argv)
    decreases |argv|
  {
    hide Asks, IsMount, Options;
    if argv != [] {
      MountsFromMore(disk, some, rules, values, argv[2..]);
    }
  }

  lemma {:induction false} BindAllIsFrom(
      disk: Disk, rules: seq<Plan.Rule>, rule: Plan.Rule, values: Values, paths: seq<string>)
    requires rule in rules && BindAll(paths, Options(rule)).Some?
    requires forall path <- paths :: Asks(disk, rule, values, path, path)
    ensures MountsFrom(disk, rules, values, BindAll(paths, Options(rule)).value)
    decreases |paths|
  {
    hide Bind, MountsFrom, Asks, Options;
    if paths == [] {
      NothingIsFrom(disk, rules, values);
    } else {
      assert paths[0] in paths;
      BindIsFrom(disk, rules, rule, values, paths[0], paths[0]);
      BindAllIsFrom(disk, rules, rule, values, paths[1..]);
      MountsFromAppend(disk, rules, values, Bind(paths[0], paths[0], Options(rule)).value,
                       BindAll(paths[1..], Options(rule)).value);
    }
  }

  lemma SortMembers(xs: seq<string>, x: string)
    ensures x in Sort(xs) <==> x in xs
  {
    SortSorts(xs);
    hide Sort, Sorted;
    assert x in Sort(xs) <==> x in multiset(xs);
  }

  lemma StandsIff(disk: Disk, pattern: string, k: nat, path: string)
    requires Text.LastIndexOf(pattern, '/') == Some(k)
    ensures var dir, name := if k == 0 then "/" else pattern[..k], pattern[k + 1..];
      Stands(disk, pattern, path) <==>
      path in (if '*' in name || '?' in name then Matching(disk, dir, name, disk.list(dir))
               else if disk.isThere(pattern) then [pattern] else [])
  {
    var dir, name := if k == 0 then "/" else pattern[..k], pattern[k + 1..];
    hide Matching, Text.LastIndexOf, Glob.Matches, InDirectory;
    if '*' in name || '?' in name {
      MatchingAre(disk, dir, name, disk.list(dir), path);
    }
  }

  /** The paths found for a pattern are those it stands for. */
  lemma FoundStand(disk: Disk, pattern: string, options: string) returns (paths: seq<string>)
    requires ExpandPattern(disk, pattern, options).Some?
    ensures ExpandPattern(disk, pattern, options) == BindAll(paths, options)
    ensures forall path :: path in paths <==> Stands(disk, pattern, path)
  {
    hide *;
    PatternFinds(disk, pattern, options);
    var k := Text.LastIndexOf(pattern, '/').value;
    var dir, name := if k == 0 then "/" else pattern[..k], pattern[k + 1..];
    var found :=
      if '*' in name || '?' in name then Matching(disk, dir, name, disk.list(dir))
      else if disk.isThere(pattern) then [pattern] else [];
    paths := Sort(found);
    forall path
      ensures path in paths <==> Stands(disk, pattern, path)
    {
      SortMembers(found, path);
      StandsIff(disk, pattern, k, path);
    }
  }

  lemma {:induction false} MatchingAre(disk: Disk, dir: string, name: string, files: seq<string>, path: string)
    ensures path in Matching(disk, dir, name, files) <==>
            exists file :: file in files && path == InDirectory(dir, file) &&
                           Glob.Matches(name, file) && disk.bindable(path)
    decreases |files|
  {
    hide InDirectory, Glob.GlobMatch, Glob.Matches;
    if files != [] {
      Glob.GlobMatchIff(name, files[0]);
      MatchingAre(disk, dir, name, files[1..], path);
      assert forall file :: file in files <==> file == files[0] || file in files[1..];
    }
  }

  /**
    Whatever the file names a provider's rules meet, what is spliced in is mounts that
    one of the rules asks for on this disk, each read as its source, its destination and
    that rule's own options.
  */
  lemma {:induction false} SplicesAreSafeMounts(disk: Disk, rules: seq<Plan.Rule>, values: Values)
    requires ExpandRules(disk, rules, values).Some?
    ensures MountsFrom(disk, rules, values, ExpandRules(disk, rules, values).value)
    decreases |rules|
  {
    hide MountsFrom, ExpandRule;
    if rules == [] {
      NothingIsFrom(disk, rules, values);
    } else {
      SplicesAreSafeMounts(disk, rules[1..], values);
      MountsFromMore(disk, rules[1..], rules, values, ExpandRules(disk, rules[1..], values).value);
      RuleIsFrom(disk, rules, rules[0], values);
      MountsFromAppend(disk, rules, values, ExpandRule(disk, rules[0], values).value,
                       ExpandRules(disk, rules[1..], values).value);
    }
  }

  lemma RuleIsFrom(disk: Disk, rules: seq<Plan.Rule>, rule: Plan.Rule, values: Values)
    requires rule in rules && ExpandRule(disk, rule, values).Some?
    ensures MountsFrom(disk, rules, values, ExpandRule(disk, rule, values).value)
  {
    hide MountsFrom, ExpandPattern, Expand, Bind, Stands, BindAll;
    match rule {
      case Mount(pattern, options) =>
        var paths := FoundStand(disk, Expand(pattern, values).value, options);
        assert forall path <- paths :: Asks(disk, rule, values, path, path);
        BindAllIsFrom(disk, rules, rule, values, paths);
      case MountAs(from, to, options) =>
        if disk.isThere(Expand(from, values).value) {
          BindIsFrom(disk, rules, rule, values, Expand(from, values).value, Expand(to, values).value);
        } else {
          NothingIsFrom(disk, rules, values);
        }
    }
  }

  lemma {:induction false} BindAllHas(paths: seq<string>, options: string, path: string)
    requires BindAll(paths, options).Some? && path in paths
    ensures MountSpec(path, path, options) in BindAll(paths, options).value
    decreases |paths|
  {
    hide MountSpec, MountSafe;
    var first := Bind(paths[0], paths[0], options).value;
    assert first == [MOUNT_FLAG, MountSpec(paths[0], paths[0], options)];
    assert first[1] == MountSpec(paths[0], paths[0], options);
    if path != paths[0] {
      BindAllHas(paths[1..], options, path);
    }
  }

  /** And nothing the rules ask for is left out. */
  lemma {:induction false} EveryAskedMountIsSpliced(
      disk: Disk, rules: seq<Plan.Rule>, values: Values, rule: Plan.Rule, source: string, destination: string)
    requires ExpandRules(disk, rules, values).Some? && rule in rules && Asks(disk, rule, values, source, destination)
    ensures MountSpec(source, destination, Options(rule)) in ExpandRules(disk, rules, values).value
    decreases |rules|
  {
    hide Expand, ExpandPattern, Stands, MountSpec, MountSafe, BindAll;
    if rule == rules[0] {
      match rule {
        case Mount(pattern, options) =>
          var paths := FoundStand(disk, Expand(pattern, values).value, options);
          BindAllHas(paths, options, source);
        case MountAs(_, _, options) =>
          var one := Bind(source, destination, options).value;
          assert one[1] == MountSpec(source, destination, options);
      }
    } else {
      EveryAskedMountIsSpliced(disk, rules[1..], values, rule, source, destination);
    }
  }
}
