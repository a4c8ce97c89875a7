/**
  The session id of a project path (nix/scripts/run.nix:427-436 and
  nix/scripts/run/session.nix:15-20), and from which ids the path can be read back.
*/
module MountId {
  import Text

  /** The id length from which a hash replaces the end. */
  const LONGEST := 180

  /** `${s//c/with}`. */
  function ReplaceAll(s: string, c: char, with: string): string {
    if s == "" then "" else (if s[0] == c then with else [s[0]]) + ReplaceAll(s[1..], c, with)
  }

  /** Double the dashes, and only then turn the separators into dashes. */
  function Encode(s: string): string {
    ReplaceAll(ReplaceAll(s, '-', "--"), '/', "-")
  }

  predicate Plain(c: char) {
    'A' <= c <= 'Z' || 'a' <= c <= 'z' || '0' <= c <= '9' || c == '.' || c == '_' || c == '-'
  }

  /** Letters, digits, dot, underscore and dash. */
  lemma PlainIs(c: char)
    ensures Plain(c) <==>
            || c in "ABCDEFGHIJKLMNOPQRSTUVWXYZ" || c in "abcdefghijklmnopqrstuvwxyz" || c in "0123456789"
            || c in "._-"
  {
    Text.InRange("ABCDEFGHIJKLMNOPQRSTUVWXYZ", 'A', 'Z', c);
    Text.InRange("abcdefghijklmnopqrstuvwxyz", 'a', 'z', c);
    Text.InRange("0123456789", '0', '9', c);
    var marks := "._-";
    assert marks[0] == '.' && marks[1] == '_' && marks[2] == '-';
  }

  /** `sed` works line by line, so it folds every other character but never a newline. */
  function Fold(s: string): string {
    if s == "" then "" else [if Plain(s[0]) || s[0] == '\n' then s[0] else '_'] + Fold(s[1..])
  }

  /** `$(...)` drops the newlines at the end. */
  function DropNewlines(s: string): string {
    if s != "" && s[|s| - 1] == '\n' then DropNewlines(s[..|s| - 1]) else s
  }

  function Bare(hostpath: string): string {
    if "/" <= hostpath then hostpath[1..] else hostpath
  }

  function Safe(hostpath: string): string {
    DropNewlines(Fold(Encode(Bare(hostpath))))
  }

  predicate Hashed(hostpath: string) {
    Safe(hostpath) != Encode(Bare(hostpath)) || |Safe(hostpath)| > LONGEST
  }

  /** The encoded path as far as the id holds it. */
  function Taken(hostpath: string): string {
    var safe := Safe(hostpath);
    if Hashed(hostpath) && |safe| > LONGEST then safe[..LONGEST] else safe
  }

  function Prefixed(id: string): string {
    if id != "" && (id[0] == '-' || id[0] == '.') then "_" + id else id
  }

  /** The specification of `ComputeMountId`; `hash` gives the first eight digits of the digest of the path. */
  function MountId(hostpath: string, hash: string -> string): string {
    var id := if Hashed(hostpath) then Taken(hostpath) + "-" + hash(hostpath) else Taken(hostpath);
    Prefixed(if id == "" then "project" else id)
  }

  method ComputeMountId(hostpath: string, hash: string -> string) returns (mountId: string)
    ensures mountId == MountId(hostpath, hash)
    ensures InDomain(hostpath) ==> Decode(mountId) == hostpath
  {
    if InDomain(hostpath) {
      DecodesInDomain(hostpath, hash);
    }
    hide Encode, Fold, DropNewlines;
    var enc := if "/" <= hostpath then hostpath[1..] else hostpath;
    assert Encode(enc) == ReplaceAll(ReplaceAll(enc, '-', "--"), '/', "-") by { EncodeIsTwoPasses(enc); }
    enc := ReplaceAll(enc, '-', "--");
    enc := ReplaceAll(enc, '/', "-");
    var safe := DropNewlines(Fold(enc));
    mountId := safe;
    if safe != enc || |safe| > LONGEST {
      mountId := (if |safe| > LONGEST then safe[..LONGEST] else safe) + "-" + hash(hostpath);
    }
    if mountId == "" {
      mountId := "project";
    }
    if mountId[0] == '-' || mountId[0] == '.' {
      mountId := "_" + mountId;
    }
  }

  lemma EncodeIsTwoPasses(s: string)
    ensures Encode(s) == ReplaceAll(ReplaceAll(s, '-', "--"), '/', "-")
  {}

  // ---- Reading an id back ----

  /** Two dashes are a dash and one is a separator, from the left. */
  function DecodeBare(id: string): string {
    if id == "" then ""
    else if id[0] != '-' then [id[0]] + DecodeBare(id[1..])
    else if |id| > 1 && id[1] == '-' then "-" + DecodeBare(id[2..])
    else "/" + DecodeBare(id[1..])
  }

  function Decode(id: string): string {
    "/" + DecodeBare(id)
  }

  predicate ComponentOk(part: string) {
    part != "" && part != "." && part != ".."
  }

  /** An absolute path with nothing redundant in it. */
  predicate Canonical(p: string) {
    "/" <= p && (p == "/" || forall part <- Text.Split(p[1..], '/') :: ComponentOk(part))
  }

  /** A canonical path of characters the id can carry, and short enough. */
  predicate Carried(p: string) {
    && Canonical(p)
    && (forall c <- p :: Plain(c) || c == '/')
    && |Encode(Bare(p))| <= 180
  }

  /** No component starts with a dash, and the first one not with a dot either. */
  predicate InDomain(p: string) {
    && Carried(p) && p != "/"
    && (forall part <- Text.Split(p[1..], '/') :: part[0] != '-')
    && p[1] != '.'
  }

  function EncodeChar(c: char): string {
    if c == '-' then "--" else if c == '/' then "-" else [c]
  }

  lemma {:induction false} ReplaceAllAppend(a: string, b: string, c: char, with: string)
    ensures ReplaceAll(a + b, c, with) == ReplaceAll(a, c, with) + ReplaceAll(b, c, with)
    decreases |a|
  {
    if a == "" {
      assert a + b == b;
    } else {
      assert (a + b)[1..] == a[1..] + b;
      ReplaceAllAppend(a[1..], b, c, with);
    }
  }

  lemma ReplaceOne(x: char, c: char, with: string)
    ensures ReplaceAll([x], c, with) == if x == c then with else [x]
  {
    assert [x][1..] == "";
  }

  lemma EncodeStep(s: string)
    requires s != ""
    ensures Encode(s) == EncodeChar(s[0]) + Encode(s[1..])
  {
    var first := if s[0] == '-' then "--" else [s[0]];
    ReplaceAllAppend(first, ReplaceAll(s[1..], '-', "--"), '/', "-");
    ReplaceOne(s[0], '/', "-");
    ReplaceAllAppend("-", "-", '/', "-");
    ReplaceOne('-', '/', "-");
    assert "-" + "-" == "--";
  }

  /** No separator is followed by a dash or another separator. */
  ghost predicate Separated(s: string) {
    forall i :: 0 <= i < |s| - 1 && s[i] == '/' ==> s[i + 1] != '-' && s[i + 1] != '/'
  }

  lemma DecodeStep(c: char, rest: string)
    requires c == '/' ==> rest == "" || rest[0] != '-'
    ensures DecodeBare(EncodeChar(c) + rest) == [c] + DecodeBare(rest)
  {
    assert (EncodeChar(c) + rest)[|EncodeChar(c)|..] == rest;
  }

  lemma EncodeStarts(s: string)
    ensures Encode(s) == "" <==> s == ""
    ensures s != "" ==> (Encode(s)[0] == '-' <==> s[0] == '-' || s[0] == '/')
    ensures s != "" && s[0] != '/' ==> Encode(s)[0] == s[0]
  {
    if s != "" {
      EncodeStep(s);
    }
  }

  lemma {:induction false} DecodeEncode(s: string)
    requires Separated(s)
    ensures DecodeBare(Encode(s)) == s
    decreases |s|
  {
    hide DecodeBare, Encode;
    EncodeStarts(s);
    if s == "" {
      assert Encode(s) == "" && DecodeBare("") == "" by { DecodeNothing(); }
    } else {
      EncodeStep(s);
      EncodeStarts(s[1..]);
      assert Separated(s[1..]) by {
        forall i | 0 <= i < |s[1..]| - 1 && s[1..][i] == '/'
          ensures s[1..][i + 1] != '-' && s[1..][i + 1] != '/'
        {
          assert s[i + 1] == '/';
        }
      }
      DecodeEncode(s[1..]);
      DecodeStep(s[0], Encode(s[1..]));
      assert [s[0]] + s[1..] == s;
    }
  }

  lemma DecodeNothing()
    ensures DecodeBare("") == ""
  {}

  /** Whatever an id decodes to is separated, up to a leading separator. */
  lemma {:induction false} DecodedIsSeparated(id: string)
    requires '/' !in id
    ensures Separated(DecodeBare(id))
    ensures DecodeBare(id) != "" ==> (DecodeBare(id)[0] == '-' <==> |id| > 1 && id[0] == '-' && id[1] == '-')
    ensures DecodeBare(id) != "" ==> (DecodeBare(id)[0] == '/' <==> id[0] == '-' && (|id| == 1 || id[1] != '-'))
    ensures DecodeBare(id) == "" <==> id == ""
    decreases |id|
  {
    if id != "" {
      var k := if |id| > 1 && id[0] == '-' && id[1] == '-' then 2 else 1;
      var rest := id[k..];
      DecodedIsSeparated(rest);
      var s := DecodeBare(id);
      assert s[1..] == DecodeBare(rest);
      forall i | 0 <= i < |s| - 1 && s[i] == '/'
        ensures s[i + 1] != '-' && s[i + 1] != '/'
      {
        if i > 0 {
          assert s[1..][i - 1] == '/' && s[1..][i] == s[i + 1];
        }
      }
    }
  }

  lemma {:induction false} EncodeHasNoSlash(s: string)
    ensures '/' !in Encode(s)
    decreases |s|
  {
    hide Encode;
    EncodeStarts(s);
    if s != "" {
      EncodeStep(s);
      EncodeHasNoSlash(s[1..]);
    }
  }

  /** The decoder recovers a string exactly when no separator is followed by a dash or a separator. */
  lemma DecodeEncodeIff(s: string)
    ensures DecodeBare(Encode(s)) == s <==> Separated(s)
  {
    hide DecodeBare, Encode, Separated;
    if Separated(s) {
      DecodeEncode(s);
    }
    EncodeHasNoSlash(s);
    DecodedIsSeparated(Encode(s));
  }

  /** Encoding undoes decoding, always. */
  lemma {:induction false} EncodeDecode(id: string)
    requires '/' !in id
    ensures Encode(DecodeBare(id)) == id
    decreases |id|
  {
    hide Encode;
    EncodeStarts(DecodeBare(id));
    if id != "" {
      var s := DecodeBare(id);
      EncodeStep(s);
      var k := if |id| > 1 && id[0] == '-' && id[1] == '-' then 2 else 1;
      EncodeDecode(id[k..]);
      assert s[1..] == DecodeBare(id[k..]);
      assert id == id[..k] + id[k..];
      assert id[0] in id;
    }
  }

  // ---- Components ----

  /** The parts behind the first: nonempty but for a last one, and none with a dash in front. */
  ghost predicate PartsSeparated(parts: seq<string>) {
    forall k :: 1 <= k < |parts| ==> if parts[k] == "" then k == |parts| - 1 else parts[k][0] != '-'
  }

  lemma {:induction false} SplitSeparated(s: string)
    ensures Separated(s) <==> PartsSeparated(Text.Split(s, '/'))
    ensures Text.Split(s, '/')[0] == "" <==> s == "" || s[0] == '/'
    ensures s != "" && s[0] != '/' ==> Text.Split(s, '/')[0][0] == s[0]
    ensures |Text.Split(s, '/')| == 1 <==> '/' !in s
    decreases |s|
  {
    if s != "" {
      var rest := Text.Split(s[1..], '/');
      var parts := Text.Split(s, '/');
      SplitSeparated(s[1..]);
      assert s == [s[0]] + s[1..];
      assert Separated(s) <==>
             Separated(s[1..]) && (s[0] == '/' && |s| > 1 ==> s[1] != '-' && s[1] != '/') by {
        SeparatedStep(s);
      }
      hide Separated;
      if s[0] == '/' {
        assert parts == [""] + rest;
        ShiftParts(rest);
      } else {
        assert forall k :: 1 <= k < |parts| ==> parts[k] == rest[k];
      }
    }
  }

  lemma SeparatedStep(s: string)
    requires s != ""
    ensures Separated(s) <==>
            Separated(s[1..]) && (s[0] == '/' && |s| > 1 ==> s[1] != '-' && s[1] != '/')
  {
    if Separated(s) {
      forall i | 0 <= i < |s[1..]| - 1 && s[1..][i] == '/'
        ensures s[1..][i + 1] != '-' && s[1..][i + 1] != '/'
      {
        assert s[i + 1] == '/';
      }
    }
    if Separated(s[1..]) && (s[0] == '/' && |s| > 1 ==> s[1] != '-' && s[1] != '/') {
      forall i | 0 <= i < |s| - 1 && s[i] == '/'
        ensures s[i + 1] != '-' && s[i + 1] != '/'
      {
        if i > 0 {
          assert s[1..][i - 1] == '/';
        }
      }
    }
  }

  lemma ShiftParts(rest: seq<string>)
    requires rest != []
    ensures PartsSeparated([""] + rest) <==>
            PartsSeparated(rest) && (if rest[0] == "" then |rest| == 1 else rest[0][0] != '-')
  {
    var parts := [""] + rest;
    assert forall k :: 0 <= k < |rest| ==> parts[k + 1] == rest[k];
    if PartsSeparated(parts) {
      assert parts[1] == rest[0];
      forall k | 1 <= k < |rest|
        ensures if rest[k] == "" then k == |rest| - 1 else rest[k][0] != '-'
      {
        assert parts[k + 1] == rest[k];
      }
    }
    if PartsSeparated(rest) && (if rest[0] == "" then |rest| == 1 else rest[0][0] != '-') {
      forall k | 1 <= k < |parts|
        ensures if parts[k] == "" then k == |parts| - 1 else parts[k][0] != '-'
      {
        assert parts[k] == rest[k - 1];
      }
    }
  }

  // ---- Ids of carried paths ----

  lemma {:induction false} FoldKeepsPlain(s: string)
    requires forall c <- s :: Plain(c)
    ensures Fold(s) == s
    decreases |s|
  {
    if s != "" {
      assert s[0] in s;
      FoldKeepsPlain(s[1..]);
    }
  }

  lemma {:induction false} EncodeIsPlain(s: string)
    requires forall c <- s :: Plain(c) || c == '/'
    ensures forall c <- Encode(s) :: Plain(c)
    decreases |s|
  {
    hide Encode;
    EncodeStarts(s);
    if s != "" {
      assert s[0] in s;
      EncodeStep(s);
      EncodeIsPlain(s[1..]);
    }
  }

  /** A carried path is its own id, but for the two repairs. */
  lemma CarriedId(p: string, hash: string -> string)
    requires Carried(p)
    ensures MountId(p, hash) == if p == "/" then "project" else Prefixed(Encode(p[1..]))
    ensures p != "/" ==> Encode(p[1..]) != ""
    ensures !Hashed(p) && Taken(p) == Encode(p[1..])
  {
    var enc := Encode(p[1..]);
    assert forall c <- p[1..] :: c in p;
    EncodeIsPlain(p[1..]);
    FoldKeepsPlain(enc);
    EncodeStarts(p[1..]);
    hide Encode, Fold;
    assert enc != "" ==> enc[|enc| - 1] in enc;
    assert p != "/" ==> p[1..] != "";
  }

  lemma DomainIsSeparated(p: string)
    requires Carried(p) && p != "/"
    ensures var s := p[1..];
      && s != "" && s[0] != '/'
      && (InDomain(p) <==> Separated(s) && s[0] != '-' && s[0] != '.')
  {
    var s := p[1..];
    var parts := Text.Split(s, '/');
    SplitSeparated(s);
    hide Text.Split, Separated, Encode;
    assert parts[0] in parts;
    assert forall k :: 0 <= k < |parts| ==> parts[k] in parts;
    if s[0] != '-' && Separated(s) {
      forall part | part in parts
        ensures part[0] != '-'
      {
        var k :| 0 <= k < |parts| && parts[k] == part;
      }
    }
  }

  /** Of the paths an id can carry, exactly those in the domain are recovered from it. */
  lemma DecodesIff(p: string, hash: string -> string)
    requires Carried(p)
    ensures Decode(MountId(p, hash)) == p <==> InDomain(p)
  {
    CarriedId(p, hash);
    if p == "/" {
      assert Decode("project")[1..] == DecodeBare("project");
    } else {
      var s := p[1..];
      DomainIsSeparated(p);
      EncodeStarts(s);
      DecodeEncodeIff(s);
      hide Encode, InDomain, Carried, Separated;
      var enc := Encode(s);
      assert p == "/" + s;
      if enc[0] == '-' || enc[0] == '.' {
        assert Decode("_" + enc)[1] == '_';
        assert p[1] == s[0];
      } else {
        assert Decode(enc)[1..] == DecodeBare(enc);
      }
    }
  }

  lemma DecodesInDomain(p: string, hash: string -> string)
    requires InDomain(p)
    ensures Decode(MountId(p, hash)) == p
  {
    DecodesIff(p, hash);
  }

  /** So no two paths of the domain share an id. */
  lemma DistinctProjectsDistinctIds(p: string, q: string, hash: string -> string)
    requires InDomain(p) && InDomain(q)
    ensures MountId(p, hash) == MountId(q, hash) <==> p == q
  {
    hide MountId, Decode, InDomain;
    DecodesInDomain(p, hash);
    DecodesInDomain(q, hash);
  }

  /** Where the decoder errs it names another path with the same encoding. */
  lemma ErrsByCollision(p: string, q: string, hash: string -> string)
    requires Carried(p) && p != "/" && p[1] != '.' && p[1] != '-' && !InDomain(p)
    requires q == Decode(MountId(p, hash))
    ensures p != q
    ensures Carried(q) ==> MountId(q, hash) == MountId(p, hash)
  {
    DecodesIff(p, hash);
    CarriedId(p, hash);
    var s := p[1..];
    DomainIsSeparated(p);
    EncodeStarts(s);
    EncodeHasNoSlash(s);
    EncodeDecode(Encode(s));
    hide InDomain, Encode, Separated, DecodeBare;
    assert q == "/" + DecodeBare(Encode(s)) && q[1..] == DecodeBare(Encode(s));
    if Carried(q) {
      CarriedId(q, hash);
      hide Carried, MountId;
    }
  }

  // ---- Paths that share an id ----

  lemma {:induction false} EncodeAppend(a: string, b: string)
    ensures Encode(a + b) == Encode(a) + Encode(b)
    decreases |a|
  {
    hide Encode;
    EncodeStarts(a);
    if a == "" {
      assert a + b == b;
    } else {
      EncodeStep(a);
      EncodeStep(a + b);
      assert (a + b)[1..] == a[1..] + b;
      EncodeAppend(a[1..], b);
    }
  }

  lemma ThreeDashes()
    ensures Encode("-/") == Encode("/-")
  {
    EncodeStep("-/");
    EncodeStep("/-");
    EncodeStep("/");
    EncodeStep("-");
    EncodeStarts("");
    hide Encode;
    assert "-/"[1..] == "/" && "/-"[1..] == "-" && "/"[1..] == "" && "-"[1..] == "";
  }

  lemma IdOf(s: string, hash: string -> string)
    requires s != "" && Carried("/" + s)
    ensures MountId("/" + s, hash) == Prefixed(Encode(s))
  {
    CarriedId("/" + s, hash);
    hide *;
    assert ("/" + s)[1..] == s;
    assert "/" + s != "/";
  }

  /** A dash before a separator and one behind it look the same. */
  lemma DashesAroundSeparatorCollide(a: string, b: string, hash: string -> string)
    requires Carried("/" + (a + ("-/" + b))) && Carried("/" + (a + ("/-" + b)))
    ensures MountId("/" + (a + ("-/" + b)), hash) == MountId("/" + (a + ("/-" + b)), hash)
    ensures "/" + (a + ("-/" + b)) != "/" + (a + ("/-" + b))
  {
    hide *;
    var s, t := a + ("-/" + b), a + ("/-" + b);
    assert s[|a|] == '-' && t[|a|] == '/';
    assert ("/" + s)[|a| + 1] == '-' && ("/" + t)[|a| + 1] == '/';
    IdOf(s, hash);
    IdOf(t, hash);
    EncodeAppend(a, "-/" + b);
    EncodeAppend(a, "/-" + b);
    EncodeAppend("-/", b);
    EncodeAppend("/-", b);
    ThreeDashes();
  }

  /** A path of one name of letters and the like. */
  lemma NameIsInDomain(name: string)
    requires 0 < |name| <= LONGEST
    requires forall i :: 0 <= i < |name| ==> Plain(name[i]) && name[i] != '-' && name[i] != '.'
    ensures InDomain("/" + name) && Encode(name) == name
  {
    Text.SplitPart(name, "", '/');
    EncodeLetters(name);
    hide Text.Split, Encode;
    assert ("/" + name)[1..] == name;
    assert ComponentOk(name);
  }

  /** The root has the id of a project called `project`. */
  lemma RootIsProject(hash: string -> string)
    ensures MountId("/", hash) == MountId("/project", hash) && InDomain("/project")
  {
    RootIsCarried();
    assert "/" + "project" == "/project" && "/project"[1..] == "project";
    NameIsInDomain("project");
    CarriedId("/", hash);
    CarriedId("/project", hash);
    hide MountId, Carried, Encode;
  }

  lemma RootIsCarried()
    ensures Carried("/")
  {
    assert "/"[1..] == "";
    EncodeStarts("");
  }

  lemma {:induction false} EncodeLetters(s: string)
    requires '-' !in s && '/' !in s
    ensures Encode(s) == s
    decreases |s|
  {
    hide Encode;
    EncodeStarts(s);
    if s != "" {
      assert s[0] in s;
      EncodeStep(s);
      EncodeLetters(s[1..]);
    }
  }

  /** A hidden first component has the id of the one with an underscore in front. */
  lemma HiddenLooksUnderscored(s: string, hash: string -> string)
    requires s != "" && s[0] == '.' && Carried("/" + s) && Carried("/_" + s)
    ensures MountId("/" + s, hash) == MountId("/_" + s, hash)
  {
    CarriedId("/" + s, hash);
    CarriedId("/_" + s, hash);
    hide MountId, Carried;
    assert ("/" + s)[1..] == s && ("/_" + s)[1..] == "_" + s;
    EncodeStep("_" + s);
    assert ("_" + s)[1..] == s;
    EncodeStarts(s);
    EncodeStarts("_" + s);
    hide Encode;
  }

  lemma TwoNamesSplit(a: string, b: string)
    requires '/' !in a && '/' !in b
    ensures Text.Split(a + "/" + b, '/') == [a, b]
  {
    hide *;
    Text.SplitPart(a, b, '/');
    Text.SplitPart(b, "", '/');
    assert a + ['/'] + b == a + "/" + b;
  }

  lemma TwoNamesEncode(a: string, b: string)
    requires '-' !in a && '/' !in a && '-' !in b && '/' !in b
    ensures Encode(a + "/" + b) == a + "-" + b
  {
    hide *;
    EncodeLetters(a);
    EncodeLetters(b);
    EncodeAppend(a + "/", b);
    EncodeAppend(a, "/");
    EncodeStep("/");
    EncodeStarts("");
    SeparatorBecomesDash();
    assert "/"[1..] == "" && "-" + "" == "-";
  }

  lemma SeparatorBecomesDash()
    ensures EncodeChar('/') == "-"
  {}

  lemma TwoNamesInDomain(a: string, b: string)
    requires 0 < |a| && 0 < |b| && |a| + 1 + |b| <= LONGEST
    requires forall i :: 0 <= i < |a| ==> Plain(a[i]) && a[i] != '-' && a[i] != '.'
    requires forall i :: 0 <= i < |b| ==> Plain(b[i]) && b[i] != '-' && b[i] != '.'
    ensures InDomain("/" + (a + "/" + b)) && Encode(a + "/" + b) == a + "-" + b
  {
    var s := a + "/" + b;
    TwoNamesEncode(a, b);
    TwoNamesSplit(a, b);
    hide Text.Split, Encode;
    var p := "/" + s;
    assert p[1..] == s && p[1] == a[0];
    forall c | c in p
      ensures Plain(c) || c == '/'
    {
      hide Plain;
    }
    hide Plain;
    assert a[0] != '.' && b[0] != '.';
    assert ComponentOk(a) && ComponentOk(b);
    assert Carried(p) by { assert Bare(p) == s; }
    assert [a, b][0] == a;
  }

  lemma IdInSteps(p: string, enc: string, safe: string, hash: string -> string)
    requires enc == Encode(Bare(p)) && safe == DropNewlines(Fold(enc)) && 0 < |safe| <= LONGEST
    ensures MountId(p, hash) == Prefixed(if safe == enc then safe else safe + "-" + hash(p))
  {
    hide Encode, DropNewlines, Fold, Prefixed;
  }

  /** A hashed id can be the id of a path that spells it: whatever the digest, `/a b` and `/a_b/<digest>` share one. */
  lemma HashedLooksPlain(hash: string -> string)
    requires |hash("/a b")| == 8
    requires forall i :: 0 <= i < 8 ==> Plain(hash("/a b")[i]) && hash("/a b")[i] != '-' && hash("/a b")[i] != '.'
    ensures MountId("/a b", hash) == MountId("/" + ("a_b/" + hash("/a b")), hash)
    ensures InDomain("/" + ("a_b/" + hash("/a b")))
  {
    var h := hash("/a b");
    var s := "a_b/" + h;
    assert "a_b" + "/" + h == s && "a_b" + "-" + h == "a_b-" + h;
    TwoNamesInDomain("a_b", h);
    assert Carried("/" + s);
    hide *;
    IdOf(s, hash);
    assert Prefixed("a_b-" + h) == "a_b-" + h by { LettersNeedNoPrefix("a_b-" + h); }
    SpacedId(hash);
  }

  lemma LettersNeedNoPrefix(id: string)
    requires id != "" && id[0] != '-' && id[0] != '.'
    ensures Prefixed(id) == id
  {}

  lemma BareName(s: string)
    ensures Bare("/" + s) == s
  {}

  /** A name that is changed by the folding gets a hash. */
  lemma FoldedId(s: string, safe: string, hash: string -> string)
    requires '-' !in s && '/' !in s && safe == DropNewlines(Fold(s)) && safe != s
    requires 0 < |safe| <= LONGEST && safe[0] != '-' && safe[0] != '.'
    ensures MountId("/" + s, hash) == safe + "-" + hash("/" + s)
  {
    hide *;
    BareName(s);
    EncodeLetters(s);
    IdInSteps("/" + s, s, safe, hash);
    LettersNeedNoPrefix(safe + "-" + hash("/" + s));
  }

  lemma SpacedId(hash: string -> string)
    ensures MountId("/a b", hash) == "a_b-" + hash("/a b")
  {
    var s, safe := "a b", "a_b";
    assert |safe| <= LONGEST && safe[1] != s[1] && safe[0] == 'a';
    hide *;
    FoldAb();
    FoldedId(s, safe, hash);
    assert "/" + s == "/a b" && safe + "-" == "a_b-";
  }

  lemma FoldAb()
    ensures DropNewlines(Fold("a b")) == "a_b"
  {
    assert "a b"[1..] == " b" && " b"[1..] == "b" && "b"[1..] == "";
    assert Fold("b") == "b";
    assert Fold(" b") == "_b";
    assert Fold("a b") == "a_b";
  }

  // ---- What an id can hold ----

  lemma {:induction false} FoldIsPlain(s: string)
    ensures forall c <- Fold(s) :: Plain(c) || c == '\n'
    decreases |s|
  {
    if s != "" {
      FoldIsPlain(s[1..]);
    }
  }

  lemma {:induction false} DropNewlinesIsPrefix(s: string)
    ensures DropNewlines(s) <= s
    decreases |s|
  {
    if s != "" && s[|s| - 1] == '\n' {
      DropNewlinesIsPrefix(s[..|s| - 1]);
    }
  }

  // ---- Newlines in an id ----

  lemma {:induction false} FoldKeepsNewlines(s: string)
    ensures |Fold(s)| == |s|
    ensures forall k | 0 <= k < |s| :: Fold(s)[k] == '\n' <==> s[k] == '\n'
    decreases |s|
  {
    if s != "" {
      FoldKeepsNewlines(s[1..]);
    }
  }

  /** What is dropped is newlines, and what stays ends in none. */
  lemma {:induction false} DropNewlinesCuts(s: string)
    ensures var kept := DropNewlines(s);
      && kept <= s && (forall k | |kept| <= k < |s| :: s[k] == '\n')
      && (kept != "" ==> kept[|kept| - 1] != '\n')
    decreases |s|
  {
    if s != "" && s[|s| - 1] == '\n' {
      DropNewlinesCuts(s[..|s| - 1]);
    }
  }

  lemma EncodeAround(s: string, i: nat)
    requires i < |s|
    ensures Encode(s[..i + 1]) == Encode(s[..i]) + EncodeChar(s[i])
    ensures Encode(s[..i + 1]) <= Encode(s)
  {
    EncodeAppend(s[..i], [s[i]]);
    EncodeAppend(s[..i + 1], s[i + 1..]);
    EncodeStep([s[i]]);
    EncodeStarts("");
    hide Encode, EncodeChar;
    assert [s[i]][1..] == "" && s[..i] + [s[i]] == s[..i + 1] && s[..i + 1] + s[i + 1..] == s;
    assert EncodeChar(s[i]) + "" == EncodeChar(s[i]);
  }

  /** The first character that stands for `s[i]` is a newline exactly when `s[i]` is. */
  lemma EncodedAt(s: string, i: nat)
    requires i < |s|
    ensures var k := |Encode(s[..i])|;
      k < |Encode(s[..i + 1])| <= |Encode(s)| && (Encode(s)[k] == '\n' <==> s[i] == '\n')
  {
    EncodeAround(s, i);
    hide Encode;
    assert Encode(s)[|Encode(s[..i])|] == EncodeChar(s[i])[0];
  }

  lemma EncodeGrows(s: string, i: nat, j: nat)
    requires i <= j <= |s|
    ensures Encode(s[..i]) <= Encode(s[..j])
  {
    assert s[..i] + s[..j][i..] == s[..j];
    EncodeAppend(s[..i], s[..j][i..]);
    hide Encode;
  }

  /** The character that `Encode(s)[k]` stands for. */
  lemma {:induction false} EncodedFrom(s: string, k: nat) returns (i: nat)
    requires k < |Encode(s)|
    ensures i < |s| && |Encode(s[..i])| <= k < |Encode(s[..i + 1])|
    ensures Encode(s)[k] == '\n' <==> s[i] == '\n'
    ensures s[i] == '\n' ==> k == |Encode(s[..i])|
    decreases |s|
  {
    hide Encode;
    EncodeStarts(s);
    i := |s| - 1;
    var init := s[..i];
    EncodeAround(s, i);
    assert s[..i + 1] == s;
    if k < |Encode(init)| {
      var n := EncodedFrom(init, k);
      assert init[..n] == s[..n] && init[..n + 1] == s[..n + 1];
      i := n;
    } else {
      assert Encode(s)[k] == EncodeChar(s[i])[k - |Encode(init)|];
    }
  }

  /**
    A newline that something else follows, within the part of the path the id
    holds: fewer than 180 characters are before it, every dash counted twice.
  */
  ghost predicate NewlineInside(s: string) {
    exists i, j | 0 <= i < j < |s| :: s[i] == '\n' && s[j] != '\n' && |Encode(s[..i])| < 180
  }

  lemma NewlineIsTaken(s: string, i: nat, j: nat)
    requires i < j < |s| && s[i] == '\n' && s[j] != '\n' && |Encode(s[..i])| < LONGEST
    ensures var safe := DropNewlines(Fold(Encode(s)));
      |Encode(s[..i])| < |safe| && safe[|Encode(s[..i])|] == '\n'
  {
    EncodedAt(s, i);
    EncodedAt(s, j);
    EncodeGrows(s, i + 1, j);
    hide Encode, Fold, DropNewlines;
    FoldKeepsNewlines(Encode(s));
    DropNewlinesCuts(Fold(Encode(s)));
  }

  lemma TakenNewline(s: string, k: nat)
    requires k < LONGEST && k < |DropNewlines(Fold(Encode(s)))| && DropNewlines(Fold(Encode(s)))[k] == '\n'
    ensures NewlineInside(s)
  {
    var enc, safe := Encode(s), DropNewlines(Fold(Encode(s)));
    FoldKeepsNewlines(enc);
    DropNewlinesCuts(Fold(enc));
    hide Fold, DropNewlines;
    var last := |safe| - 1;
    var i := EncodedFrom(s, k);
    var j := EncodedFrom(s, last);
    hide Encode;
    assert i != j;
    if j < i {
      EncodeGrows(s, j + 1, i);
      assert false;
    }
  }

  /** A newline gets into the id exactly when the path holds one inside that part. */
  lemma TakenHoldsNewlineIff(p: string)
    ensures '\n' in Taken(p) <==> NewlineInside(Bare(p))
  {
    var s, safe := Bare(p), Safe(p);
    hide Encode, Fold, DropNewlines;
    if NewlineInside(s) {
      var i, j :| 0 <= i < j < |s| && s[i] == '\n' && s[j] != '\n' && |Encode(s[..i])| < LONGEST;
      NewlineIsTaken(s, i, j);
      assert Taken(p)[|Encode(s[..i])|] == '\n';
    }
    if '\n' in Taken(p) {
      var k :| 0 <= k < |Taken(p)| && Taken(p)[k] == '\n';
      TakenNewline(s, k);
    }
  }

  /**
    An id is nonempty and starts like no option and no hidden file. It is made of
    plain characters exactly when the path holds no newline inside the part the
    id takes.
  */
  lemma IdIsPlainIff(p: string, hash: string -> string)
    requires hash(p) != "" && forall c <- hash(p) :: Plain(c)
    ensures var id := MountId(p, hash);
      && id != "" && id[0] != '-' && id[0] != '.'
      && ((forall c <- id :: Plain(c)) <==> !NewlineInside(Bare(p)))
  {
    TakenHoldsNewlineIff(p);
    hide NewlineInside;
    IdIsPlainIfTaken(p, hash);
    hide *;
  }

  lemma IdIsPlainIfTaken(p: string, hash: string -> string)
    requires hash(p) != "" && forall c <- hash(p) :: Plain(c)
    ensures var id := MountId(p, hash);
      && id != "" && id[0] != '-' && id[0] != '.'
      && ((forall c <- id :: Plain(c)) <==> '\n' !in Taken(p))
  {
    var folded := Fold(Encode(Bare(p)));
    FoldIsPlain(Encode(Bare(p)));
    DropNewlinesIsPrefix(folded);
    hide Fold, Encode, DropNewlines;
    var safe := Safe(p);
    forall c | c in Taken(p)
      ensures Plain(c) || c == '\n'
    {
      assert c in folded;
    }
    var id := if Hashed(p) then Taken(p) + "-" + hash(p) else Taken(p);
    hide Taken, Hashed, Safe;
    hide Plain;
    PlainMarks();
    assert forall c :: c in "project" ==> Plain(c);
    var full := if id == "" then "project" else id;
    assert MountId(p, hash) == Prefixed(full);
    if '\n' in Taken(p) {
      assert '\n' in id && '\n' in full && '\n' in Prefixed(full);
    } else {
      assert forall c <- id :: Plain(c);
      assert forall c <- Prefixed(full) :: c == '_' || c in full;
    }
  }

  lemma PlainMarks()
    ensures Plain('-') && Plain('_') && !Plain('\n')
    ensures Plain('p') && Plain('r') && Plain('o') && Plain('j') && Plain('e') && Plain('c') && Plain('t')
  {}

  lemma FoldKeepsNewline()
    ensures DropNewlines(Fold("a\nb")) == "a\nb"
  {
    assert "a\nb"[1..] == "\nb" && "\nb"[1..] == "b" && "b"[1..] == "";
    assert Fold("b") == "b";
    assert Fold("\nb") == "\nb";
    assert Fold("a\nb") == "a\nb";
  }

  /** An inner newline is neither folded nor hashed away. */
  lemma NewlineSurvives(hash: string -> string)
    ensures MountId("/a\nb", hash) == "a\nb"
  {
    BareName("a\nb");
    assert "/" + "a\nb" == "/a\nb" && |"a\nb"| <= LONGEST;
    hide *;
    EncodeLetters("a\nb");
    FoldKeepsNewline();
    IdInSteps("/a\nb", "a\nb", "a\nb", hash);
    LettersNeedNoPrefix("a\nb");
  }

  /** An id leaves room for the prefix and the suffix of a user name of at most 255 characters. */
  lemma IdIsShort(p: string, hash: string -> string)
    requires |hash(p)| == 8
    ensures 0 < |MountId(p, hash)| <= 190
  {
    hide Encode, Fold, DropNewlines;
  }

  lemma HashedIdEnds(p: string, hash: string -> string)
    requires |hash(p)| == 8 && Hashed(p)
    ensures var id := MountId(p, hash); |id| > 8 && id[|id| - 8..] == hash(p) && id[|id| - 9] == '-'
  {
    hide Hashed, Taken;
    var id := Taken(p) + "-" + hash(p);
    assert id[|id| - 8..] == hash(p);
    var prefixed := "_" + id;
    assert prefixed[|prefixed| - 8..] == hash(p);
  }

  /** Two paths that need a hash have one id only if their digests agree. */
  lemma HashedIdsTellDigestsApart(p: string, q: string, hash: string -> string)
    requires Hashed(p) && Hashed(q) && |hash(p)| == |hash(q)| == 8 && hash(p) != hash(q)
    ensures MountId(p, hash) != MountId(q, hash)
  {
    hide MountId, Hashed;
    HashedIdEnds(p, hash);
    HashedIdEnds(q, hash);
  }
}
