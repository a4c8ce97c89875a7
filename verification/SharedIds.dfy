/**
  Which project paths share their session id with another one
  (nix/scripts/run.nix:411-436, nix/scripts/run/session.nix:15-20).
*/
module SharedIds {
  import opened Ids = MountId
  import Text

  // ---- Reading a path one character at a time ----

  /** The component so far, after one more character. */
  function Take(part: string, c: char): string {
    if c == '/' then "" else part + [c]
  }

  /** Every component is a proper name, when `part` has been read of the first one. */
  predicate GoodFrom(part: string, s: string)
    decreases |s|
  {
    if s == "" then ComponentOk(part)
    else (s[0] == '/' ==> ComponentOk(part)) && GoodFrom(Take(part, s[0]), s[1..])
  }

  /** The rest of the component that is being read. */
  function First(s: string): string {
    if s == "" || s[0] == '/' then "" else [s[0]] + First(s[1..])
  }

  /**
    Here the path can be read differently: a dash that ends a component can open the
    next one, or the other way round; two dashes can stand for a component `-`, or
    the other way round. What is left of each component must be a proper name.
  */
  predicate Ambiguous1(part: string, s: string) {
    || ("-/" <= s && ComponentOk(part))
    || ("/-" <= s && ComponentOk(First(s[2..])))
    || ("--" <= s && ComponentOk(part) && ComponentOk(First(s[2..])))
    || "/-/" <= s
  }

  predicate AmbiguousFrom(part: string, s: string)
    decreases |s|
  {
    s != "" && (Ambiguous1(part, s) || AmbiguousFrom(Take(part, s[0]), s[1..]))
  }

  /**
    Shares its id: the root and `/project`; a path that can be read differently
    somewhere; one that gets the `_` in front, unless it is too long for another to
    spell that `_`; and one that spells it itself in front of a proper name.
  */
  predicate Shares(p: string)
    requires "/" <= p
  {
    || p == "/"
    || p == "/project"
    || AmbiguousFrom("", p[1..])
    || ((p[1] == '-' || p[1] == '.') && |Encode(p[1..])| < 180)
    || (p[1] == '_' && |p| > 2 && (p[2] == '-' || p[2] == '.') && ComponentOk(First(p[2..])))
  }

  lemma {:induction false} GoodIsSplit(part: string, s: string)
    requires '/' !in part
    ensures var parts := Text.Split(s, '/');
      GoodFrom(part, s) <==> ComponentOk(part + parts[0]) && forall i :: 1 <= i < |parts| ==> ComponentOk(parts[i])
    decreases |s|
  {
    hide ComponentOk;
    if s == "" {
      assert part + "" == part;
    } else {
      var rest := Text.Split(s[1..], '/');
      var parts := Text.Split(s, '/');
      GoodIsSplit(Take(part, s[0]), s[1..]);
      if s[0] == '/' {
        assert parts == [""] + rest && part + "" == part && "" + rest[0] == rest[0];
        assert forall i :: 0 <= i < |rest| ==> parts[i + 1] == rest[i];
        assert forall i :: 1 <= i < |parts| ==> parts[i] == rest[i - 1];
      } else {
        assert part + ([s[0]] + rest[0]) == part + [s[0]] + rest[0];
        assert forall i :: 1 <= i < |rest| ==> parts[i] == rest[i];
      }
    }
  }

  /** The canonical absolute paths, by this reading. */
  lemma CarriedIsGood(p: string)
    ensures Carried(p) <==>
            && "/" <= p && (p == "/" || GoodFrom("", p[1..]))
            && (forall c <- p :: Plain(c) || c == '/') && |Encode(Bare(p))| <= 180
  {
    hide Encode, Plain, ComponentOk, GoodFrom, Text.Split;
    if "/" <= p && p != "/" {
      var parts := Text.Split(p[1..], '/');
      GoodIsSplit("", p[1..]);
      assert "" + parts[0] == parts[0];
      if GoodFrom("", p[1..]) {
        forall part | part in parts
          ensures ComponentOk(part)
        {
          var i :| 0 <= i < |parts| && parts[i] == part;
        }
      }
    }
  }

  /** A component with a dash in it is a proper name whatever else it holds. */
  lemma {:induction false} DashIsProper(part: string, other: string, s: string)
    requires '-' in part && '-' in other
    ensures GoodFrom(part, s) == GoodFrom(other, s)
    decreases |s|
  {
    if s != "" && s[0] != '/' {
      assert '-' in part + [s[0]] && '-' in other + [s[0]];
      DashIsProper(part + [s[0]], other + [s[0]], s[1..]);
    }
  }

  lemma {:induction false} GoodAppend(part: string, a: string, s: string)
    requires '/' !in a
    ensures GoodFrom(part, a + s) == GoodFrom(part + a, s)
    decreases |a|
  {
    hide ComponentOk;
    if a == "" {
      assert a + s == s && part + a == part;
    } else {
      assert (a + s)[1..] == a[1..] + s;
      assert part + [a[0]] + a[1..] == part + a;
      GoodAppend(part + [a[0]], a[1..], s);
    }
  }

  lemma {:induction false} AmbiguousAppend(part: string, a: string, s: string)
    requires '/' !in a && AmbiguousFrom(part + a, s)
    ensures AmbiguousFrom(part, a + s)
    decreases |a|
  {
    hide Ambiguous1;
    if a == "" {
      assert a + s == s && part + a == part;
    } else {
      assert (a + s)[1..] == a[1..] + s;
      assert part + [a[0]] + a[1..] == part + a;
      AmbiguousAppend(part + [a[0]], a[1..], s);
    }
  }

  /** What is left of the component decides the component; the rest does not depend on it. */
  lemma {:induction false} GoodByFirst(part: string, s: string)
    ensures GoodFrom(part, s) <==> ComponentOk(part + First(s)) && GoodFrom("-", s)
    decreases |s|
  {
    if s == "" {
      assert part + "" == part;
    } else if s[0] == '/' {
      assert part + "" == part;
    } else {
      GoodByFirst(part + [s[0]], s[1..]);
      assert part + ([s[0]] + First(s[1..])) == part + [s[0]] + First(s[1..]);
      DashIsProper("-", "-" + [s[0]], s[1..]);
    }
  }

  lemma {:induction false} FirstSplits(s: string) returns (rest: string)
    ensures s == First(s) + rest && (rest == "" || rest[0] == '/') && '/' !in First(s)
    decreases |s|
  {
    if s == "" || s[0] == '/' {
      rest := s;
    } else {
      rest := FirstSplits(s[1..]);
    }
  }

  // ---- Another reading ----

  lemma Encodings(s: string)
    ensures Encode("/" + s) == "-" + Encode(s) && Encode("-" + s) == "--" + Encode(s) && Encode("." + s) == "." + Encode(s)
  {
    EncodeStep("/" + s);
    EncodeStep("-" + s);
    EncodeStep("." + s);
    hide Encode;
    assert ("/" + s)[1..] == s && ("-" + s)[1..] == s && ("." + s)[1..] == s;
  }

  /** What an encoding starts with tells the first character, up to dash and separator. */
  lemma Starts(s: string)
    ensures s == "" <==> Encode(s) == ""
    ensures s != "" ==> s == [s[0]] + s[1..]
    ensures s != "" ==> (Encode(s)[0] == '-' <==> s[0] == '-' || s[0] == '/')
    ensures s != "" && s[0] != '-' && s[0] != '/' ==> Encode(s) == [s[0]] + Encode(s[1..])
  {
    EncodeStarts(s);
    if s != "" {
      EncodeStep(s);
    }
  }

  lemma Cancel(a: string, b: string, c: string)
    requires a + b == a + c
    ensures b == c
  {
    assert (a + b)[|a|..] == b && (a + c)[|a|..] == c;
  }

  lemma DotStep(t: string, x: string)
    requires Encode(t) == "." + Encode(x)
    ensures t != "" && t == "." + t[1..] && Encode(t[1..]) == Encode(x)
  {
    hide Encode;
    Starts(t);
    assert Encode(t)[0] == '.';
    Cancel(".", Encode(t[1..]), Encode(x));
  }

  /** After a word of dots that is a whole component, only a dash can stand where there is a separator. */
  lemma DotWord(dots: string, rest: string, t: string) returns (more: string)
    requires dots == "." || dots == ".."
    requires (rest == "" || rest[0] == '/') && GoodFrom("", t) && Encode(t) == Encode(dots + rest)
    ensures rest != "" && more != "" && more[0] == '-' && Encode(more) == Encode(rest)
    ensures t == dots + more && GoodFrom(dots, more)
  {
    hide Encode;
    Encodings(rest);
    if dots == "." {
      DotStep(t, rest);
      more := t[1..];
    } else {
      assert ".." + rest == "." + ("." + rest);
      Encodings("." + rest);
      DotStep(t, "." + rest);
      DotStep(t[1..], rest);
      more := t[2..];
      assert t[1..][1..] == more;
      assert "." + ("." + more) == ".." + more;
    }
    GoodAppend("", dots, more);
    assert "" + dots == dots && !ComponentOk(dots);
    Starts(rest);
    Starts(more);
  }

  /** Two readings where this one has a separator and the other a dash. */
  lemma {:induction false} SeparatorCanMove(part: string, s: string, other: string, t: string)
    requires GoodFrom(part, s) && GoodFrom(other, t) && Encode(s) == Encode(t)
    requires s != "" && t != "" && s[0] == '/' && t[0] == '-'
    ensures AmbiguousFrom(part, s)
    decreases |s|
  {
    var v, w := SeparatorDash(part, s, other, t);
    hide *;
    if MovesSeparator(v) {
      MovableSeparator(part, v);
    } else {
      var dots, rest, u := DotsFollow(other + "-", v, w);
      var more := DotWord(dots, rest, u);
      BehindSeparator(dots, rest);
      DotsHaveNoSlash(dots);
      GoodTail(part, "-" + dots, rest);
      SeparatorCanMove("-" + dots, rest, dots, more);
      assert "" + ("-" + dots) == "-" + dots;
      AmbiguousAppend("", "-" + dots, rest);
      AmbiguousTail(part, "-" + dots + rest);
    }
  }

  lemma BehindSeparator(dots: string, rest: string)
    ensures "/-" + (dots + rest) == "/" + ("-" + dots + rest)
  {}

  lemma DashEndsProper(part: string)
    ensures ComponentOk(part + "-")
  {
    assert (part + "-")[|part|] == '-';
  }

  lemma DotsHaveNoSlash(dots: string)
    requires dots == "." || dots == ".."
    ensures '/' !in "-" + dots && '/' !in "--" + dots
  {}

  lemma GoodTail(part: string, a: string, rest: string)
    requires GoodFrom(part, "/" + (a + rest)) && '/' !in a
    ensures GoodFrom(a, rest)
  {
    GoodSlash(part, a + rest);
    GoodAppend("", a, rest);
    assert "" + a == a;
  }

  predicate MovesSeparator(v: string) {
    ComponentOk(First(v)) || (v != "" && v[0] == '/')
  }

  lemma SeparatorDash(part: string, s: string, other: string, t: string) returns (v: string, w: string)
    requires GoodFrom(part, s) && GoodFrom(other, t) && Encode(s) == Encode(t)
    requires s != "" && t != "" && s[0] == '/' && t[0] == '-'
    ensures s == "/-" + v && t == "-" + w && Encode(w) == "-" + Encode(v) && GoodFrom(other + "-", w)
  {
    hide Encode;
    Starts(s);
    Starts(t);
    Encodings(s[1..]);
    Encodings(t[1..]);
    w := t[1..];
    assert "--" + Encode(w) == "-" + ("-" + Encode(w));
    Cancel("-", Encode(s[1..]), "-" + Encode(w));
    SecondIsDash(s[1..], Encode(w));
    v := s[2..];
    assert s[1..] == "-" + v && s == "/-" + v;
    GoodAppend(other, "-", w);
  }

  /** The separator cannot move when dots alone follow it; then the other reading has a separator in front of them. */
  lemma DotsFollow(part: string, v: string, w: string) returns (dots: string, rest: string, u: string)
    requires Encode(w) == "-" + Encode(v) && GoodFrom(part, w) && !MovesSeparator(v)
    ensures (dots == "." || dots == "..") && v == dots + rest && (rest == "" || rest[0] == '/')
    ensures w == "/" + u && Encode(u) == Encode(dots + rest) && GoodFrom("", u)
  {
    hide Encode;
    rest := FirstSplits(v);
    dots := First(v);
    FirstIsDots(v);
    u := AfterDash(part, v, w);
  }

  lemma FirstIsDots(v: string)
    requires !MovesSeparator(v)
    ensures v == "" || First(v) == "." || First(v) == ".."
  {}

  lemma AmbiguousTail(part: string, s: string)
    requires AmbiguousFrom("", s)
    ensures AmbiguousFrom(part, "/" + s)
  {
    hide Ambiguous1;
    assert ("/" + s)[1..] == s;
  }

  /** A separator is followed by no second one. */
  lemma SecondIsDash(z: string, e: string)
    requires GoodFrom("", z) && Encode(z) == "-" + e
    ensures z != "" && z[0] == '-' && z == "-" + z[1..] && e == "-" + Encode(z[1..])
  {
    hide Encode;
    Starts(z);
    assert Encode(z)[0] == '-';
    Encodings(z[1..]);
    assert "--" + Encode(z[1..]) == "-" + ("-" + Encode(z[1..]));
    Cancel("-", e, "-" + Encode(z[1..]));
  }

  lemma MovableSeparator(part: string, v: string)
    requires MovesSeparator(v)
    ensures AmbiguousFrom(part, "/-" + v)
  {
    var s := "/-" + v;
    assert s[2..] == v;
    assert "/-" <= s;
    if v != "" && v[0] == '/' {
      assert "/-/" <= s;
    }
    assert Ambiguous1(part, s);
  }

  lemma FirstStarts(v: string)
    requires v == "" || First(v) == "." || First(v) == ".."
    ensures v != "" ==> v[0] != '-' && v[0] != '/'
  {
    if v != "" && v[0] != '/' {
      assert First(v)[0] == v[0];
    }
  }

  /** Behind a dash the other reading has a separator, when this one ends or goes on with dots. */
  lemma AfterDash(part: string, v: string, w: string) returns (u: string)
    requires Encode(w) == "-" + Encode(v) && GoodFrom(part, w) && (v == "" || First(v) == "." || First(v) == "..")
    ensures v != "" && w == "/" + u && Encode(u) == Encode(v) && GoodFrom("", u)
  {
    hide Encode;
    Starts(w);
    Starts(v);
    assert Encode(w)[0] == '-';
    u := w[1..];
    Encodings(u);
    assert "--" + Encode(u) == "-" + ("-" + Encode(u));
    FirstStarts(v);
    if w[0] == '-' {
      Cancel("-", "-" + Encode(u), Encode(v));
    } else {
      Cancel("-", Encode(u), Encode(v));
    }
    Starts(u);
  }

  /** Two readings where this one has a dash and the other a separator. */
  lemma DashCanMove(part: string, s: string, t: string)
    requires GoodFrom(part, s) && GoodFrom(part, t) && Encode(s) == Encode(t)
    requires s != "" && t != "" && s[0] == '-' && t[0] == '/'
    ensures AmbiguousFrom(part, s)
  {
    var z, v := DashSeparator(part, s, t);
    hide *;
    if z != "" && z[0] == '/' {
      assert s == "-/" + z[1..];
      MovableDash(part, z[1..]);
    } else {
      var u := DashDash(z, v);
      assert s == "--" + u;
      DashesCanMove(part, u, v);
    }
  }

  lemma DashesCanMove(part: string, u: string, v: string)
    requires ComponentOk(part) && Encode(v) == "-" + Encode(u) && GoodFrom("-", v) && GoodFrom(part, "--" + u)
    ensures AmbiguousFrom(part, "--" + u)
  {
    hide *;
    if MovesSeparator(u) {
      MovableDashes(part, u);
    } else {
      var dots, rest, x := DotsFollow("-", u, v);
      var more := DotWord(dots, rest, x);
      DotsHaveNoSlash(dots);
      var front := "--" + dots;
      assert "--" + u == front + rest;
      GoodAppend(part, front, rest);
      SeparatorCanMove(part + front, rest, dots, more);
      AmbiguousAppend(part, front, rest);
    }
  }

  lemma DashSeparator(part: string, s: string, t: string) returns (z: string, v: string)
    requires GoodFrom(part, s) && GoodFrom(part, t) && Encode(s) == Encode(t)
    requires s != "" && t != "" && s[0] == '-' && t[0] == '/'
    ensures ComponentOk(part) && s == "-" + z && Encode(z) == "-" + Encode(v) && GoodFrom("-", v)
  {
    var w: string;
    v, w := SeparatorDash(part, t, part, s);
    z := w;
    GoodSlash(part, "-" + v);
    assert t == "/" + ("-" + v);
    GoodAppend("", "-", v);
    assert "" + "-" == "-";
  }

  lemma DashDash(z: string, v: string) returns (u: string)
    requires Encode(z) == "-" + Encode(v) && !(z != "" && z[0] == '/')
    ensures z == "-" + u && Encode(v) == "-" + Encode(u)
  {
    hide Encode;
    Starts(z);
    assert Encode(z)[0] == '-';
    u := z[1..];
    Encodings(u);
    assert "--" + Encode(u) == "-" + ("-" + Encode(u));
    Cancel("-", Encode(v), "-" + Encode(u));
  }

  lemma MovableDash(part: string, v: string)
    requires ComponentOk(part)
    ensures AmbiguousFrom(part, "-/" + v)
  {
    assert "-/" <= "-/" + v;
    assert Ambiguous1(part, "-/" + v);
  }

  lemma MovableDashes(part: string, u: string)
    requires ComponentOk(part) && MovesSeparator(u)
    ensures AmbiguousFrom(part, "--" + u)
  {
    var s := "--" + u;
    assert s[2..] == u && "--" <= s;
    if ComponentOk(First(u)) {
      assert Ambiguous1(part, s);
    } else {
      assert s[1..] == "-/" + u[1..];
      assert (part + "-")[|part|] == '-';
      MovableDash(part + "-", u[1..]);
      assert Take(part, s[0]) == part + "-";
    }
  }

  /** A path with a second reading can be read differently at one place. */
  lemma {:induction false} SecondReadingShows(part: string, s: string, t: string)
    requires GoodFrom(part, s) && GoodFrom(part, t) && Encode(s) == Encode(t) && s != t
    ensures AmbiguousFrom(part, s)
    decreases |s|
  {
    hide Encode, Ambiguous1;
    Starts(s);
    Starts(t);
    if s[0] == t[0] {
      EncodeStep(s);
      EncodeStep(t);
      var k := |EncodeChar(s[0])|;
      assert (EncodeChar(s[0]) + Encode(s[1..]))[k..] == Encode(s[1..]);
      assert (EncodeChar(s[0]) + Encode(t[1..]))[k..] == Encode(t[1..]);
      SecondReadingShows(Take(part, s[0]), s[1..], t[1..]);
    } else if s[0] == '/' {
      SeparatorCanMove(part, s, part, t);
    } else {
      assert s[0] == '-' && t[0] == '/';
      DashCanMove(part, s, t);
    }
  }

  /** And a place to read differently gives a second reading. */
  lemma {:induction false} AnotherReading(part: string, s: string) returns (t: string)
    requires GoodFrom(part, s) && AmbiguousFrom(part, s)
    requires forall c <- s :: Plain(c) || c == '/'
    ensures t != s && GoodFrom(part, t) && Encode(t) == Encode(s) && forall c <- t :: Plain(c) || c == '/'
    decreases |s|
  {
    hide Encode, Plain;
    assert forall c <- s[1..] :: c in s;
    if Ambiguous1(part, s) {
      t := ReadDifferently(part, s);
    } else {
      var more := AnotherReading(Take(part, s[0]), s[1..]);
      t := [s[0]] + more;
      assert s == [s[0]] + s[1..] && t[1..] == more;
      assert s[0] in s;
      EncodeStep(s);
      EncodeStep(t);
    }
  }

  lemma ReadDifferently(part: string, s: string) returns (t: string)
    requires GoodFrom(part, s) && Ambiguous1(part, s)
    requires forall c <- s :: Plain(c) || c == '/'
    ensures t != s && GoodFrom(part, t) && Encode(t) == Encode(s) && forall c <- t :: Plain(c) || c == '/'
  {
    if "-/" <= s && ComponentOk(part) {
      assert s == "-/" + s[2..];
      t := MoveDash(part, s[2..]);
    } else if "/-/" <= s {
      assert s == "/-/" + s[3..];
      t := MergeDash(part, s[3..]);
    } else if "/-" <= s && ComponentOk(First(s[2..])) {
      assert s == "/-" + s[2..];
      t := MoveSeparator(part, s[2..]);
    } else {
      assert s == "--" + s[2..];
      t := SplitDashes(part, s[2..]);
    }
    hide Encode, Plain, GoodFrom;
    assert Plain('-') by { PlainMarks(); }
  }

  /** What each of the four spellings takes to be good. */
  lemma GoodSpellings(part: string, v: string)
    ensures GoodFrom(part, "-/" + v) <==> GoodFrom("", v)
    ensures GoodFrom(part, "/-" + v) <==> ComponentOk(part) && GoodFrom("-", v)
    ensures GoodFrom(part, "--" + v) <==> GoodFrom("-", v)
    ensures GoodFrom(part, "/-/" + v) <==> ComponentOk(part) && GoodFrom("", v)
    ensures GoodFrom("", v) <==> ComponentOk(First(v)) && GoodFrom("-", v)
  {
    hide *;
    Spellings(v);
    DashEndsProper(part);
    DashEndsProper("");
    GoodAppend(part, "-", "/" + v);
    GoodSlash(part + "-", v);
    GoodSlash(part, "-" + v);
    GoodAppend("", "-", v);
    GoodAppend(part, "--", v);
    assert (part + "--")[|part|] == '-';
    DashIsProper(part + "--", "-", v);
    GoodSlash(part, "-/" + v);
    GoodAppend("", "-", "/" + v);
    GoodSlash("-", v);
    GoodByFirst("", v);
  }

  lemma Spellings(v: string)
    ensures "-" + ("/" + v) == "-/" + v && "/" + ("-" + v) == "/-" + v
    ensures "-" + ("-" + v) == "--" + v && "/" + ("-/" + v) == "/-/" + v
    ensures "" + "-" == "-" && "" + First(v) == First(v)
  {}

  lemma MoveDash(part: string, v: string) returns (t: string)
    requires GoodFrom(part, "-/" + v) && ComponentOk(part)
    ensures t == "/-" + v && t != "-/" + v && GoodFrom(part, t) && Encode(t) == Encode("-/" + v)
  {
    hide *;
    t := "/-" + v;
    SamePairs(v);
    GoodSpellings(part, v);
    assert t[0] != ("-/" + v)[0];
  }

  lemma MoveSeparator(part: string, v: string) returns (t: string)
    requires GoodFrom(part, "/-" + v) && ComponentOk(First(v))
    ensures t == "-/" + v && t != "/-" + v && GoodFrom(part, t) && Encode(t) == Encode("/-" + v)
  {
    hide *;
    t := "-/" + v;
    SamePairs(v);
    GoodSpellings(part, v);
    assert t[0] != ("/-" + v)[0];
  }

  lemma SplitDashes(part: string, v: string) returns (t: string)
    requires GoodFrom(part, "--" + v) && ComponentOk(part) && ComponentOk(First(v))
    ensures t == "/-/" + v && t != "--" + v && GoodFrom(part, t) && Encode(t) == Encode("--" + v)
  {
    hide *;
    t := "/-/" + v;
    SamePairs(v);
    GoodSpellings(part, v);
    assert t[0] != ("--" + v)[0];
  }

  lemma MergeDash(part: string, v: string) returns (t: string)
    requires GoodFrom(part, "/-/" + v)
    ensures t == "--" + v && t != "/-/" + v && GoodFrom(part, t) && Encode(t) == Encode("/-/" + v)
  {
    hide *;
    t := "--" + v;
    SamePairs(v);
    GoodSpellings(part, v);
    assert t[0] != ("/-/" + v)[0];
  }

  lemma GoodSlash(part: string, v: string)
    ensures GoodFrom(part, "/" + v) <==> ComponentOk(part) && GoodFrom("", v)
  {
    assert ("/" + v)[1..] == v;
  }

  lemma SamePairs(v: string)
    ensures Encode("-/" + v) == Encode("/-" + v) && Encode("--" + v) == Encode("/-/" + v)
  {
    hide *;
    Spellings(v);
    Encodings(v);
    Encodings("/" + v);
    Encodings("-" + v);
    Encodings("-/" + v);
    assert "-" + ("--" + Encode(v)) == "--" + ("-" + Encode(v));
  }

  // ---- Which paths share an id ----

  ghost predicate IdIsShared(p: string, hash: string -> string) {
    exists q :: Carried(q) && q != p && MountId(q, hash) == MountId(p, hash)
  }

  lemma SharedBy(p: string, q: string, hash: string -> string)
    requires Carried(q) && q != p && MountId(q, hash) == MountId(p, hash)
    ensures IdIsShared(p, hash)
  {}

  /** What a carried path is made of. */
  lemma CarriedParts(p: string, hash: string -> string) returns (s: string)
    requires Carried(p) && p != "/"
    ensures p == "/" + s && s == p[1..] && s != "" && s[0] != '/' && GoodFrom("", s) && |Encode(s)| <= LONGEST
    ensures (forall c <- s :: Plain(c) || c == '/') && MountId(p, hash) == Prefixed(Encode(s))
    ensures Encode(s) != "" && (Encode(s)[0] == '-' <==> s[0] == '-') && (s[0] != '-' ==> Encode(s)[0] == s[0])
  {
    s := p[1..];
    CarriedIsGood(p);
    CarriedId(p, hash);
    hide Encode, MountId, Carried, Plain;
    assert Bare(p) == s;
    assert forall c <- s :: c in p;
    Starts(s);
  }

  lemma CarriedFrom(s: string)
    requires s != "" && GoodFrom("", s) && |Encode(s)| <= LONGEST && forall c <- s :: Plain(c) || c == '/'
    ensures Carried("/" + s)
  {
    CarriedIsGood("/" + s);
    hide Encode, Carried, Plain, GoodFrom;
    assert ("/" + s)[1..] == s && Bare("/" + s) == s;
    assert forall c <- "/" + s :: c == '/' || c in s;
  }

  lemma {:induction false} NoDashNoChange(s: string)
    requires '-' !in Encode(s)
    ensures Encode(s) == s
    decreases |s|
  {
    hide Encode;
    Starts(s);
    if s != "" {
      assert Encode(s)[0] in Encode(s);
      assert forall c :: c in Encode(s[1..]) ==> c in [s[0]] + Encode(s[1..]);
      NoDashNoChange(s[1..]);
    }
  }

  /** Sharing with a path of the same encoding. */
  lemma SameEncodingShows(s: string, t: string)
    requires GoodFrom("", s) && GoodFrom("", t) && Encode(s) == Encode(t) && s != t
    ensures AmbiguousFrom("", s)
  {
    SecondReadingShows("", s, t);
  }

  lemma UnderscoreGood(s: string)
    requires GoodFrom("", s)
    ensures GoodFrom("", "_" + s) && Encode("_" + s) == "_" + Encode(s)
  {
    GoodAppend("", "_", s);
    assert "" + "_" == "_" && "" + First(s) == First(s);
    GoodByFirst("", s);
    GoodByFirst("_", s);
    EncodeStep("_" + s);
    assert ("_" + s)[1..] == s;
  }

  lemma SharedMeansShares(p: string, q: string, hash: string -> string)
    requires Carried(p) && Carried(q) && q != p && MountId(q, hash) == MountId(p, hash)
    ensures "/" <= p && Shares(p)
  {
    hide *;
    if p == "/" {
      RootShares();
    } else {
      var s := CarriedParts(p, hash);
      if q == "/" {
        RootIdIsProject(hash);
        OnlyProject(Encode(s));
        ProjectHasNoDash();
        NoDashNoChange(s);
      } else {
        var t := CarriedParts(q, hash);
        SamePrefixed(Encode(s), Encode(t));
        if Encode(s) == Encode(t) {
          SameEncodingShows(s, t);
        } else if Encode(s) == "_" + Encode(t) {
          UnderscoreShows(s, t);
        } else {
          assert |Encode(s)| < LONGEST;
        }
      }
      SharesByText(p, s);
    }
  }

  lemma RootShares()
    ensures Shares("/")
  {}

  lemma ProjectHasNoDash()
    ensures '-' !in "project"
  {}

  lemma SharesByText(p: string, s: string)
    requires p == "/" + s && s != "" && s[0] != '/'
    requires || s == "project" || AmbiguousFrom("", s)
             || ((s[0] == '-' || s[0] == '.') && |Encode(s)| < LONGEST)
             || (s[0] == '_' && |s| > 1 && (s[1] == '-' || s[1] == '.') && ComponentOk(First(s[1..])))
    ensures Shares(p)
  {
    hide AmbiguousFrom, Encode, First, ComponentOk;
    assert p[1..] == s && p[1] == s[0];
    if |s| > 1 {
      assert p[2] == s[1] && p[2..] == s[1..];
    }
  }

  lemma RootIdIsProject(hash: string -> string)
    ensures MountId("/", hash) == "project"
  {
    RootIsCarried();
    CarriedId("/", hash);
  }

  /** Sharing with a path that gets the `_` this one spells. */
  lemma UnderscoreShows(s: string, t: string)
    requires s != "" && s[0] != '/' && GoodFrom("", s) && GoodFrom("", t)
    requires Encode(s) == "_" + Encode(t) && t != "" && (t[0] == '-' || t[0] == '.')
    ensures AmbiguousFrom("", s) ||
            (s[0] == '_' && |s| > 1 && (s[1] == '-' || s[1] == '.') && ComponentOk(First(s[1..])))
  {
    hide AmbiguousFrom, Encode;
    Starts(s);
    UnderscoreGood(t);
    if "_" + t != s {
      SameEncodingShows(s, "_" + t);
    } else {
      assert s[1..] == t;
      GoodByFirst("", t);
      assert "" + First(t) == First(t);
    }
  }

  lemma OnlyProject(e: string)
    requires Prefixed(e) == "project"
    ensures e == "project"
  {
    assert "project"[0] == 'p';
  }

  /** Two encodings that give one id. */
  lemma SamePrefixed(e: string, f: string)
    requires e != "" && f != "" && Prefixed(e) == Prefixed(f)
    ensures e == f || (f == "_" + e && (e[0] == '-' || e[0] == '.')) || (e == "_" + f && (f[0] == '-' || f[0] == '.'))
  {
    assert ("_" + e)[1..] == e && ("_" + f)[1..] == f;
  }

  lemma SharesMeansShared(p: string, hash: string -> string)
    requires Carried(p) && "/" <= p && Shares(p)
    ensures IdIsShared(p, hash)
  {
    assert "/" <= p;
    hide Encode, Plain, AmbiguousFrom, IdIsShared, GoodFrom;
    RootIsProject(hash);
    if p == "/" {
      SharedBy(p, "/project", hash);
    } else if p == "/project" {
      RootIsCarried();
      SharedBy(p, "/", hash);
    } else {
      hide MountId, Carried, InDomain;
      var s := CarriedParts(p, hash);
      var t: string;
      if AmbiguousFrom("", s) {
        t := AnotherReading("", s);
      } else if (p[1] == '-' || p[1] == '.') && |Encode(s)| < LONGEST {
        t := "_" + s;
        UnderscoreGood(s);
        assert t != s && t[0] == '_';
        PlainMarks();
      } else {
        t := s[1..];
        UnderscoreSpelled(s);
      }
      assert t != "" by { Starts(s); Starts(t); NothingIsGood(); }
      CarriedFrom(t);
      var u := CarriedParts("/" + t, hash);
      assert u == t;
      assert Prefixed(Encode(t)) == Prefixed(Encode(s)) by { PrefixedCases(s, t); }
      SharedBy(p, "/" + t, hash);
    }
  }

  lemma NothingIsGood()
    ensures !GoodFrom("", "")
  {}

  lemma PrefixedCases(s: string, t: string)
    requires s != "" && t != "" && s[0] != '/' && t[0] != '/'
    requires Encode(t) == Encode(s)
             || (Encode(t) == "_" + Encode(s) && (s[0] == '-' || s[0] == '.'))
             || (Encode(s) == "_" + Encode(t) && (t[0] == '-' || t[0] == '.'))
    ensures Prefixed(Encode(t)) == Prefixed(Encode(s))
  {
    hide Encode;
    Starts(s);
    Starts(t);
  }

  lemma UnderscoreSpelled(s: string)
    requires s != "" && s[0] == '_' && |s| > 1 && GoodFrom("", s) && ComponentOk(First(s[1..]))
    ensures var t := s[1..]; t != s && GoodFrom("", t) && Encode(s) == "_" + Encode(t)
  {
    var t := s[1..];
    assert s == "_" + t;
    GoodAppend("", "_", t);
    assert "" + "_" == "_" && "" + First(t) == First(t);
    GoodByFirst("", t);
    GoodByFirst("_", t);
    EncodeStep(s);
  }

  /**
    Of the canonical paths an id can carry, exactly these share it with another one
    of them. A path that needs a hash can still spell the id of any, as
    `HashedLooksPlain` shows; `OwnId` says when none does.
  */
  lemma SharedIdIff(p: string, hash: string -> string)
    requires Carried(p)
    ensures "/" <= p && (IdIsShared(p, hash) <==> Shares(p))
  {
    assert "/" <= p;
    hide Shares, MountId, Carried;
    if IdIsShared(p, hash) {
      var q :| Carried(q) && q != p && MountId(q, hash) == MountId(p, hash);
      SharedMeansShares(p, q, hash);
    }
    if Shares(p) {
      SharesMeansShared(p, hash);
    }
  }

  // ---- Paths the id cannot carry ----

  predicate HexDigit(c: char) {
    '0' <= c <= '9' || 'a' <= c <= 'f'
  }

  /** A dash and eight digits of a digest. */
  predicate EndsInDigest(id: string) {
    |id| > 8 && id[|id| - 9] == '-' && forall i | |id| - 8 <= i < |id| :: HexDigit(id[i])
  }

  lemma HashedEndsInDigest(q: string, hash: string -> string)
    requires Hashed(q) && |hash(q)| == 8 && forall i | 0 <= i < 8 :: HexDigit(hash(q)[i])
    ensures EndsInDigest(MountId(q, hash))
  {
    HashedIdEnds(q, hash);
    hide MountId, Hashed, HexDigit;
    var id := MountId(q, hash);
    forall i | |id| - 8 <= i < |id|
      ensures HexDigit(id[i])
    {
      assert id[i] == id[|id| - 8..][i - (|id| - 8)];
    }
  }

  lemma {:induction false} EncodedHolds(s: string, c: char)
    requires c in s && c != '/'
    ensures c in Encode(s)
    decreases |s|
  {
    EncodeStep(s);
    hide Encode;
    if c != s[0] {
      EncodedHolds(s[1..], c);
    }
  }

  /** A canonical path that is not carried and needs no hash keeps a newline in its id. */
  lemma UncarriedKeepsNewline(q: string, hash: string -> string)
    requires Canonical(q) && !Carried(q) && !Hashed(q)
    ensures '\n' in MountId(q, hash)
  {
    var s := Bare(q);
    assert q == "/" + s;
    hide Canonical, Encode, Fold, DropNewlines;
    var c :| c in q && !Plain(c) && c != '/';
    EncodedHolds(s, c);
    FoldIsPlain(Encode(s));
    DropNewlinesIsPrefix(Fold(Encode(s)));
    assert c == '\n';
  }

  lemma CarriedIdIsPlain(p: string, hash: string -> string)
    requires Carried(p)
    ensures '\n' !in MountId(p, hash)
  {
    CarriedId(p, hash);
    assert forall c <- p[1..] :: c in p;
    EncodeIsPlain(p[1..]);
    PlainMarks();
    hide Encode, Plain, Carried, MountId;
  }

  /**
    A carried path whose id none of the others shares, and does not end like a
    hashed one, has its id for itself: no other canonical path at all gets it,
    whatever its characters and however long it is.
  */
  lemma OwnId(p: string, q: string, hash: string -> string)
    requires Carried(p) && "/" <= p && !Shares(p) && !EndsInDigest(MountId(p, hash))
    requires Canonical(q) && q != p && |hash(q)| == 8 && forall i | 0 <= i < 8 :: HexDigit(hash(q)[i])
    ensures MountId(q, hash) != MountId(p, hash)
  {
    hide MountId, Shares, EndsInDigest, Hashed, Carried, HexDigit;
    if Hashed(q) {
      HashedEndsInDigest(q, hash);
    } else if Carried(q) {
      SharedIdIff(p, hash);
      assert MountId(q, hash) == MountId(p, hash) ==> IdIsShared(p, hash);
    } else {
      UncarriedKeepsNewline(q, hash);
      CarriedIdIsPlain(p, hash);
    }
  }

  /** `/a--b` and `/a/-/b` share one id; the only other readings of the id of `/a/-` are no canonical paths. */
  lemma SharingByExample()
    ensures Shares("/a--b") && Shares("/a/-/b") && !Shares("/a/-")
  {
    TwoReadingsByExample();
    OneReadingByExample();
  }

  lemma OneReadingByExample()
    ensures !Shares("/a/-")
  {
    assert "/a/-"[1..] == "a/-" && "a/-"[1..] == "/-" && "/-"[1..] == "-" && "/-"[2..] == "" && "-"[1..] == "";
    assert !AmbiguousFrom("", "-") && !AmbiguousFrom("a", "/-");
  }

  lemma TwoReadingsByExample()
    ensures Shares("/a--b") && Shares("/a/-/b")
  {
    assert "/a--b"[1..] == "a--b" && "a--b"[1..] == "--b" && "--b"[2..] == "b" && First("b") == "b";
    assert Ambiguous1("a", "--b");
    assert "/a/-/b"[1..] == "a/-/b" && "a/-/b"[1..] == "/-/b";
    assert Ambiguous1("a", "/-/b");
  }
}
