/**
  The two wildcard matchers: the greedy one of the SSH agent filter
  (ssh-agent-filter/src/policy.rs:107-132), whose only wildcard is `*`, and the
  backtracking one of the launcher (nix/app/runner.rs:274-288), which also has `?`.
*/
module Glob {
  import opened Wrappers
  import Text

  // ---- What a pattern means ----

  function Concat(runs: seq<string>): string {
    if runs == [] then "" else runs[0] + Concat(runs[1..])
  }

  /** May one pattern character stand for this run of text? `question` says whether `?` is a wildcard. */
  predicate StandsFor(c: char, run: string, question: bool) {
    c == '*' || run == [c] || (question && c == '?' && |run| == 1)
  }

  /** The text can be cut into one run for each character of the pattern. */
  ghost predicate Means(p: string, text: string, question: bool) {
    exists runs: seq<string> :: Explains(p, runs, question) && Concat(runs) == text
  }

  ghost predicate Explains(p: string, runs: seq<string>, question: bool) {
    |runs| == |p| && forall i :: 0 <= i < |p| ==> StandsFor(p[i], runs[i], question)
  }

  lemma EmptyMeans(text: string, question: bool)
    ensures Means("", text, question) <==> text == ""
  {
    assert Explains("", [], question);
  }

  lemma MeansOn(p: string, run: string, text: string, question: bool)
    requires p != "" && StandsFor(p[0], run, question) && Means(p[1..], text, question)
    ensures Means(p, run + text, question)
  {
    var runs :| Explains(p[1..], runs, question) && Concat(runs) == text;
    var all := [run] + runs;
    assert Explains(p, all, question);
    assert all[1..] == runs;
  }

  /** A match of a pattern matches its first character with a first run and the rest with the rest. */
  lemma MeansBack(p: string, text: string, question: bool) returns (k: nat)
    requires p != "" && Means(p, text, question)
    ensures k <= |text| && StandsFor(p[0], text[..k], question) && Means(p[1..], text[k..], question)
  {
    var runs :| Explains(p, runs, question) && Concat(runs) == text;
    k := |runs[0]|;
    assert text[..k] == runs[0] && text[k..] == Concat(runs[1..]);
    assert Explains(p[1..], runs[1..], question);
  }

  // ---- The launcher's matcher ----

  function Go(p: string, n: string): bool
    decreases |p|
  {
    if p == "" then n == ""
    else if p[0] == '*' then exists skip | 0 <= skip <= |n| :: Go(p[1..], n[skip..])
    else if p[0] == '?' then n != "" && Go(p[1..], n[1..])
    else n != "" && n[0] == p[0] && Go(p[1..], n[1..])
  }

  /** A hidden name is matched only by a pattern that is itself hidden. */
  function GlobMatch(pattern: string, name: string): bool {
    if "." <= name && !("." <= pattern) then false else Go(pattern, name)
  }

  lemma {:induction false} GoIsMeaning(p: string, n: string)
    ensures Go(p, n) <==> Means(p, n, true)
    decreases |p|
  {
    EmptyMeans(n, true);
    if p != "" {
      if Go(p, n) {
        var skip: nat := if p[0] == '*' then var skip :| 0 <= skip <= |n| && Go(p[1..], n[skip..]); skip else 1;
        GoIsMeaning(p[1..], n[skip..]);
        MeansOn(p, n[..skip], n[skip..], true);
        assert n == n[..skip] + n[skip..];
      }
      if Means(p, n, true) {
        var k := MeansBack(p, n, true);
        GoIsMeaning(p[1..], n[k..]);
        assert Go(p[1..], n[k..]);
      }
    }
  }

  /** The pattern means the name, and a hidden name only if it is hidden itself. */
  ghost predicate Matches(pattern: string, name: string) {
    Means(pattern, name, true) && (name != "" && name[0] == '.' ==> pattern != "" && pattern[0] == '.')
  }

  lemma GlobMatchIff(pattern: string, name: string)
    ensures GlobMatch(pattern, name) <==> Matches(pattern, name)
  {
    GoIsMeaning(pattern, name);
    hide Go, Means;
  }

  // ---- The filter's matcher ----

  /** `part` occurs at position `k`. */
  predicate At(part: string, text: string, k: nat) {
    k + |part| <= |text| && text[k..k + |part|] == part
  }

  lemma AtShift(part: string, text: string, d: nat, k: nat)
    requires d <= |text|
    ensures At(part, text[d..], k) <==> At(part, text, d + k)
  {
    if d + k + |part| <= |text| {
      assert text[d..][k..k + |part|] == text[d + k..d + k + |part|];
    }
  }

  /** `str::find`: where `part` first occurs. */
  function Find(text: string, part: string): (r: Option<nat>)
    ensures r.Some? ==> At(part, text, r.value) && forall k: nat :: k < r.value ==> !At(part, text, k)
    ensures r.None? ==> forall k: nat :: !At(part, text, k)
  {
    FindStep(text, part);
    if At(part, text, 0) then Some(0)
    else if text == "" then None
    else
      match Find(text[1..], part)
      case None => None
      case Some(k) => Some(k + 1)
  }

  lemma FindStep(text: string, part: string)
    ensures text != "" ==> forall k: nat :: k > 0 ==> (At(part, text, k) <==> At(part, text[1..], k - 1))
  {
    if text != "" {
      forall k: nat | k > 0
        ensures At(part, text, k) <==> At(part, text[1..], k - 1)
      {
        AtShift(part, text, 1, k - 1);
      }
    }
  }

  /** What is left behind the first occurrence of `part`. */
  function Behind(text: string, part: string): Option<string> {
    match Find(text, part)
    case None => None
    case Some(k) => Some(text[k + |part|..])
  }

  lemma BehindNothing(text: string)
    ensures Behind(text, "") == Some(text)
  {
    assert At("", text, 0);
    assert text[0..] == text;
  }

  lemma BehindFound(text: string, part: string)
    ensures match Find(text, part)
            case None => Behind(text, part) == None
            case Some(k) => k + |part| <= |text| && Behind(text, part) == Some(text[k + |part|..])
  {}

  /** What is left once every part has been taken at its first occurrence. */
  function Place(parts: seq<string>, rest: string): (r: Option<string>)
    decreases |parts|
  {
    if parts == [] then Some(rest)
    else if Behind(rest, parts[0]).None? then None
    else Place(parts[1..], Behind(rest, parts[0]).value)
  }

  /** The specification of `Greedy`: the greedy choice, before any claim about what it is worth. */
  function GreedyMatches(pattern: string, text: string): bool {
    var parts := Text.Split(pattern, '*');
    parts[0] <= text &&
    match Place(parts[1..], text[|parts[0]|..])
    case None => false
    case Some(rest) => rest == "" || (|parts| > 1 && parts[|parts| - 1] == "")
  }

  lemma PlaceOne(parts: seq<string>, i: nat, rest: string)
    requires i < |parts|
    ensures Place(parts[i..], rest) ==
            if Behind(rest, parts[i]).None? then None else Place(parts[i + 1..], Behind(rest, parts[i]).value)
  {
    hide Behind;
    assert parts[i..][1..] == parts[i + 1..];
  }

  predicate EndsWithStar(p: string) {
    p != "" && p[|p| - 1] == '*'
  }

  /** `glob` of policy.rs. */
  method Greedy(pattern: string, text: string) returns (matched: bool)
    ensures matched == GreedyMatches(pattern, text)
    ensures matched ==> Means(pattern, text, false)
    ensures '*' !in pattern || EndsWithStar(pattern) ==> (matched <==> Means(pattern, text, false))
  {
    hide *;
    GreedyIsWorth(pattern, text);
    var parts := Text.Split(pattern, '*');
    GreedyUnfolds(pattern, text, parts);
    var first := parts[0];
    if !(first <= text) {
      return false;
    }
    var rest := text[|first|..];
    var last: Option<string> := None;
    ghost var placed := Place(parts[1..], rest);
    var i := 1;
    while i < |parts|
      invariant 1 <= i <= |parts|
      invariant last == if i == 1 then None else Some(parts[i - 1])
      invariant placed == Place(parts[i..], rest)
    {
      var part := parts[i];
      last := Some(part);
      PlaceOne(parts, i, rest);
      i := i + 1;
      if part == "" {
        BehindNothing(rest);
        continue;
      }
      BehindFound(rest, part);
      var at := Find(rest, part);
      match at {
        case Some(k) => rest := rest[k + |part|..];
        case None => return false;
      }
    }
    assert parts[i..] == [];
    PlaceNone(rest);
    match last {
      case None => return rest == "";
      case Some(p) =>
        if p != "" {
          return rest == "" || EndsWithStar(pattern);
        }
        return true;
    }
  }

  lemma GreedyUnfolds(pattern: string, text: string, parts: seq<string>)
    requires parts == Text.Split(pattern, '*')
    ensures !(parts[0] <= text) ==> !GreedyMatches(pattern, text)
    ensures parts[0] <= text ==>
              var placed := Place(parts[1..], text[|parts[0]|..]);
              && (placed.None? ==> !GreedyMatches(pattern, text))
              && (placed.Some? ==>
                    GreedyMatches(pattern, text) ==
                    if |parts| > 1 && parts[|parts| - 1] != "" then placed.value == "" || EndsWithStar(pattern)
                    else |parts| > 1 || placed.value == "")
  {
    hide Text.Split, Place, EndsWithStar;
    LastPart(pattern);
  }

  lemma GreedyIsWorth(pattern: string, text: string)
    ensures GreedyMatches(pattern, text) ==> Means(pattern, text, false)
    ensures '*' !in pattern || EndsWithStar(pattern) ==> (GreedyMatches(pattern, text) <==> Means(pattern, text, false))
  {
    if GreedyMatches(pattern, text) {
      GreedyIsSound(pattern, text);
    }
    if '*' !in pattern || EndsWithStar(pattern) {
      GreedyIsComplete(pattern, text);
    }
  }

  lemma PlaceNone(rest: string)
    ensures Place([], rest) == Some(rest)
  {}

  // ---- Patterns as parts ----

  /** The pattern text of the parts after the first: each behind its `*`. */
  function Tail(parts: seq<string>): string {
    if parts == [] then "" else "*" + parts[0] + Tail(parts[1..])
  }

  lemma {:induction false} JoinIsTail(parts: seq<string>)
    requires |parts| > 0
    ensures Text.Join(parts, '*') == parts[0] + Tail(parts[1..])
    decreases |parts|
  {
    if |parts| > 1 {
      JoinIsTail(parts[1..]);
    }
  }

  lemma PatternIsParts(pattern: string)
    ensures var parts := Text.Split(pattern, '*');
      pattern == parts[0] + Tail(parts[1..]) && (forall part <- parts :: '*' !in part)
  {
    Text.JoinSplit(pattern, '*');
    JoinIsTail(Text.Split(pattern, '*'));
  }

  lemma {:induction false} TailEnd(parts: seq<string>)
    requires parts != [] && forall part <- parts :: '*' !in part
    ensures Tail(parts) != "" && (EndsWithStar(Tail(parts)) <==> parts[|parts| - 1] == "")
    decreases |parts|
  {
    assert parts[0] in parts;
    if |parts| > 1 {
      TailEnd(parts[1..]);
    } else {
      assert Tail(parts) == "*" + parts[0];
    }
  }

  /** A pattern has a `*` when it has several parts, and ends in one when the last part is empty. */
  lemma LastPart(pattern: string)
    ensures var parts := Text.Split(pattern, '*');
      ('*' in pattern <==> |parts| > 1) && (EndsWithStar(pattern) <==> |parts| > 1 && parts[|parts| - 1] == "")
  {
    PatternIsParts(pattern);
    var parts := Text.Split(pattern, '*');
    assert parts[0] in parts;
    hide Text.Split;
    if |parts| > 1 {
      TailEnd(parts[1..]);
      assert Tail(parts[1..])[0] == '*';
    } else {
      assert pattern == parts[0];
    }
  }

  lemma {:induction false} LiteralOn(part: string, p: string, text: string)
    requires Means(p, text, false)
    ensures Means(part + p, part + text, false)
    decreases |part|
  {
    if part == "" {
      assert part + p == p && part + text == text;
    } else {
      LiteralOn(part[1..], p, text);
      assert (part + p)[1..] == part[1..] + p;
      MeansOn(part + p, [part[0]], part[1..] + text, false);
      assert [part[0]] + (part[1..] + text) == part + text;
    }
  }

  lemma {:induction false} LiteralBack(part: string, p: string, text: string)
    requires '*' !in part && Means(part + p, text, false)
    ensures part <= text && Means(p, text[|part|..], false)
    decreases |part|
  {
    if part == "" {
      assert part + p == p && text[0..] == text;
    } else {
      var k := MeansBack(part + p, text, false);
      assert (part + p)[1..] == part[1..] + p && text[..k] == [part[0]];
      LiteralBack(part[1..], p, text[1..]);
      assert text[1..][|part| - 1..] == text[|part|..];
    }
  }

  // ---- Leftmost placement is the best placement ----

  /** The parts can be placed in order, at any positions, leaving at least `n` characters. */
  ghost predicate Placeable(parts: seq<string>, text: string, n: nat)
    decreases |parts|
  {
    if parts == [] then n <= |text|
    else exists k: nat :: At(parts[0], text, k) && Placeable(parts[1..], text[k + |parts[0]|..], n)
  }

  lemma LongerTextHelps(parts: seq<string>, text: string, d: nat, n: nat)
    requires d <= |text| && Placeable(parts, text[d..], n)
    ensures Placeable(parts, text, n)
  {
    if parts != [] {
      var part := parts[0];
      var k: nat :| At(part, text[d..], k) && Placeable(parts[1..], text[d..][k + |part|..], n);
      AtShift(part, text, d, k);
      assert text[d..][k + |part|..] == text[d + k + |part|..];
      assert At(part, text, d + k);
    }
  }

  /** If any placement works the leftmost one does, and leaves at least as much. */
  lemma {:induction false} LeftmostIsBest(parts: seq<string>, text: string, n: nat)
    requires Placeable(parts, text, n)
    ensures Place(parts, text).Some? && |Place(parts, text).value| >= n
    decreases |parts|
  {
    hide At, Find, Behind, Placeable, Place;
    if parts == [] {
      PlaceNone(text);
      NothingPlaced(text, n);
    } else {
      var k := PlaceableAt(parts, text, n);
      var rest := BehindIsLonger(parts[0], text, k);
      PlaceOne(parts, 0, text);
      assert parts[0..] == parts;
      LongerTextHelps(parts[1..], rest, |rest| - |text[k + |parts[0]|..]|, n);
      LeftmostIsBest(parts[1..], rest, n);
    }
  }

  lemma NothingPlaced(text: string, n: nat)
    ensures Placeable([], text, n) <==> n <= |text|
  {}

  lemma PlaceableAt(parts: seq<string>, text: string, n: nat) returns (k: nat)
    requires parts != [] && Placeable(parts, text, n)
    ensures At(parts[0], text, k) && k + |parts[0]| <= |text| && Placeable(parts[1..], text[k + |parts[0]|..], n)
  {
    k :| At(parts[0], text, k) && Placeable(parts[1..], text[k + |parts[0]|..], n);
  }

  /** What is left behind the first occurrence ends with what is left behind any. */
  lemma BehindIsLonger(part: string, text: string, k: nat) returns (rest: string)
    requires At(part, text, k) && k + |part| <= |text|
    ensures Behind(text, part) == Some(rest) && |rest| >= |text| - (k + |part|)
    ensures rest[|rest| - (|text| - (k + |part|))..] == text[k + |part|..]
  {
    hide At, Behind;
    var least := Find(text, part).value;
    BehindFound(text, part);
    rest := text[least + |part|..];
    assert rest[k - least..] == text[k + |part|..];
  }

  lemma {:induction false} MeaningIsPlaceable(parts: seq<string>, text: string)
    requires (forall part <- parts :: '*' !in part) && Means(Tail(parts), text, false)
    ensures Placeable(parts, text, 0)
    decreases |parts|
  {
    if parts != [] {
      var p := parts[0] + Tail(parts[1..]);
      assert Tail(parts) == "*" + p && parts[0] in parts;
      var k := MeansBack("*" + p, text, false);
      assert ("*" + p)[1..] == p;
      LiteralBack(parts[0], Tail(parts[1..]), text[k..]);
      AtShift(parts[0], text, k, 0);
      assert text[k..][|parts[0]|..] == text[k + |parts[0]|..];
      MeaningIsPlaceable(parts[1..], text[k + |parts[0]|..]);
      assert At(parts[0], text, k);
    }
  }

  lemma StarOn(p: string, run: string, text: string)
    requires Means(p, text, false)
    ensures Means("*" + p, run + text, false)
  {
    assert ("*" + p)[1..] == p;
    MeansOn("*" + p, run, text, false);
  }

  lemma TailIs(part: string, tail: string, parts: seq<string>)
    requires parts != [] && part == parts[0] && tail == Tail(parts[1..])
    ensures Tail(parts) == "*" + (part + tail)
  {}

  lemma CutAt(part: string, text: string, k: nat)
    requires At(part, text, k)
    ensures k + |part| <= |text| && text == text[..k] + (part + text[k + |part|..])
  {}

  lemma PieceOn(text: string, k: nat, parts: seq<string>)
    requires parts != [] && At(parts[0], text, k)
    requires Means(Tail(parts[1..]), text[k + |parts[0]|..], false)
    ensures Means(Tail(parts), text, false)
  {
    var part, tail := parts[0], Tail(parts[1..]);
    TailIs(part, tail, parts);
    CutAt(part, text, k);
    hide *;
    var rest := text[k + |part|..];
    LiteralOn(part, tail, rest);
    StarOn(part + tail, text[..k], part + rest);
  }

  lemma {:induction false} PlacedMeans(parts: seq<string>, text: string)
    requires Place(parts, text).Some?
    requires Place(parts, text).value == "" || (parts != [] && parts[|parts| - 1] == "")
    ensures Means(Tail(parts), text, false)
    decreases |parts|
  {
    hide At, Means;
    if parts == [] {
      EmptyMeans(text, false);
    } else if |parts| == 1 && parts[0] == "" {
      EmptyMeans("", false);
      StarOn("", text, "");
      assert text + "" == text && Tail(parts) == "*" + "";
    } else {
      var k := Find(text, parts[0]).value;
      assert k + |parts[0]| <= |text| by { BehindFound(text, parts[0]); }
      PlacedMeans(parts[1..], text[k + |parts[0]|..]);
      PieceOn(text, k, parts);
    }
  }

  // ---- What the greedy matcher is worth ----

  /** It accepts nothing the pattern does not mean. */
  lemma GreedyIsSound(pattern: string, text: string)
    requires GreedyMatches(pattern, text)
    ensures Means(pattern, text, false)
  {
    PatternIsParts(pattern);
    var parts := Text.Split(pattern, '*');
    PlacedMeans(parts[1..], text[|parts[0]|..]);
    LiteralOn(parts[0], Tail(parts[1..]), text[|parts[0]|..]);
    assert text == parts[0] + text[|parts[0]|..];
  }

  /** With no `*`, or one at the end, it accepts all of it. */
  lemma GreedyIsComplete(pattern: string, text: string)
    requires '*' !in pattern || EndsWithStar(pattern)
    ensures GreedyMatches(pattern, text) <==> Means(pattern, text, false)
  {
    if GreedyMatches(pattern, text) {
      GreedyIsSound(pattern, text);
    }
    if Means(pattern, text, false) {
      PatternIsParts(pattern);
      LastPart(pattern);
      var parts := Text.Split(pattern, '*');
      assert parts[0] in parts;
      LiteralBack(parts[0], Tail(parts[1..]), text);
      var rest := text[|parts[0]|..];
      EmptyMeans(rest, false);
      MeaningIsPlaceable(parts[1..], rest);
      LeftmostIsBest(parts[1..], rest, 0);
    }
  }

  lemma LastAlone(last: string)
    ensures Means(Tail([last]), last + last, false)
  {
    EmptyMeans("", false);
    hide Means;
    assert [last][1..] == [] && Tail([]) == "";
    assert (last + last)[|last| + |last|..] == "";
    assert At(last, last + last, |last|);
    PieceOn(last + last, |last|, [last]);
  }

  lemma PlacedAlone(part: string)
    ensures Placeable([part], part + part, |part|)
  {
    var text := part + part;
    assert [part][1..] == [];
    assert At(part, text, 0) && text[0 + |part|..] == part;
    assert Placeable([], part, |part|);
  }

  lemma {:induction false} LastTwiceMeans(parts: seq<string>)
    requires parts != []
    ensures Means(Tail(parts), Concat(parts) + parts[|parts| - 1], false)
    ensures Placeable(parts, Concat(parts) + parts[|parts| - 1], |parts[|parts| - 1]|)
    decreases |parts|
  {
    var part, last := parts[0], parts[|parts| - 1];
    var text := Concat(parts) + last;
    if |parts| == 1 {
      assert parts[1..] == [] && Concat(parts) == part + "";
      assert parts == [part] && text == part + part;
      hide Means, Tail, Placeable;
      LastAlone(part);
      PlacedAlone(part);
    } else {
      hide Means, Tail;
      LastTwiceMeans(parts[1..]);
      var rest := Concat(parts[1..]) + last;
      assert text == part + rest;
      assert At(part, text, 0) && text[0 + |part|..] == rest;
      PieceOn(text, 0, parts);
    }
  }

  /** A text such a pattern means and the greedy matcher refuses: its parts with the last one twice. */
  function Witness(pattern: string): string {
    var parts := Text.Split(pattern, '*');
    Concat(parts) + parts[|parts| - 1]
  }

  lemma GreedyMisses(pattern: string)
    requires '*' in pattern && !EndsWithStar(pattern)
    ensures Means(pattern, Witness(pattern), false) && !GreedyMatches(pattern, Witness(pattern))
  {
    PatternIsParts(pattern);
    LastPart(pattern);
    var parts := Text.Split(pattern, '*');
    var more, last := parts[1..], parts[|parts| - 1];
    var rest := Concat(more) + last;
    assert Witness(pattern) == parts[0] + (Concat(more) + last);
    hide Means, Placeable, Tail, Place, Text.Split;
    assert more[|more| - 1] == last;
    LastTwiceMeans(more);
    LiteralOn(parts[0], Tail(more), rest);
    LeftmostIsBest(more, rest, |last|);
    assert (parts[0] + rest)[|parts[0]|..] == rest;
  }

  /** Exactly the patterns with no `*` or with one at the end are matched as they are meant. */
  lemma GreedyIsExactIff(pattern: string)
    ensures (forall text: string :: GreedyMatches(pattern, text) <==> Means(pattern, text, false)) <==>
            '*' !in pattern || EndsWithStar(pattern)
  {
    if '*' !in pattern || EndsWithStar(pattern) {
      forall text: string
        ensures GreedyMatches(pattern, text) <==> Means(pattern, text, false)
      {
        GreedyIsComplete(pattern, text);
      }
    } else {
      GreedyMisses(pattern);
    }
  }

  lemma {:induction false} QuestionIsLiteral(p: string, text: string)
    requires '?' !in p
    ensures Means(p, text, true) <==> Means(p, text, false)
    decreases |p|
  {
    EmptyMeans(text, true);
    EmptyMeans(text, false);
    if p != "" {
      if Means(p, text, true) {
        var k := MeansBack(p, text, true);
        QuestionIsLiteral(p[1..], text[k..]);
        MeansOn(p, text[..k], text[k..], false);
        assert text == text[..k] + text[k..];
      }
      if Means(p, text, false) {
        var k := MeansBack(p, text, false);
        QuestionIsLiteral(p[1..], text[k..]);
        MeansOn(p, text[..k], text[k..], true);
        assert text == text[..k] + text[k..];
      }
    }
  }

  /** Where the greedy matcher is exact it agrees with the launcher's backtracking one. */
  lemma GreedyIsBacktracking(pattern: string, text: string)
    requires '?' !in pattern && ('*' !in pattern || EndsWithStar(pattern))
    ensures GreedyMatches(pattern, text) <==> Go(pattern, text)
  {
    GreedyIsComplete(pattern, text);
    QuestionIsLiteral(pattern, text);
    GoIsMeaning(pattern, text);
  }

  lemma StarAIsRefused()
    ensures !GreedyMatches("*a", "aba")
  {
    var a, aba := "a", "aba";
    Text.SplitPart("", a, '*');
    Text.SplitPart(a, "", '*');
    assert "" + ['*'] + a == "*a";
    var parts := Text.Split("*a", '*');
    assert parts == ["", a];
    hide Text.Split;
    assert parts[1..] == [a] && aba[|parts[0]|..] == aba;
    assert Behind(aba, a) == Some(aba[1..]) by {
      assert At(a, aba, 0);
      hide Place;
    }
    hide Behind;
    PlaceOne([a], 0, aba);
    assert [a][0..] == [a] && [a][1..] == [];
    PlaceNone(aba[1..]);
  }

  /** `*a` means `aba`, and the greedy matcher stops at the first `a`. */
  lemma StarAMissesAba()
    ensures Means("*a", "aba", false) && Go("*a", "aba") && !GreedyMatches("*a", "aba")
  {
    StarAIsRefused();
    hide GreedyMatches, Means;
    assert Go("*a", "aba") by {
      assert "*a"[1..] == "a" && Go("a", "aba"[2..]);
    }
    hide Go;
    QuestionIsLiteral("*a", "aba");
    GoIsMeaning("*a", "aba");
  }
}
