/** Which keys an agent client may see and use (ssh-agent-filter/src/policy.rs:134-194). */
module Policy {
  import opened Wrappers
  import Proto
  import Digest
  import Glob
  import Text

  type Bytes = Proto.Bytes
  type Identity = Proto.Identity

  datatype Mode = PassAll | Allow | Deny

  /** `decode` is how a comment's bytes are read as text. */
  datatype Policy = Policy(mode: Mode, specs: seq<string>, decode: Bytes -> string)

  /** Two lists are refused, not resolved by precedence. */
  function New(allow: seq<string>, deny: seq<string>, decode: Bytes -> string): Option<Policy> {
    if allow == [] && deny == [] then Some(Policy(PassAll, [], decode))
    else if deny == [] then Some(Policy(Allow, allow, decode))
    else if allow == [] then Some(Policy(Deny, deny, decode))
    else None
  }

  predicate SpecMatches(spec: string, finger: string, comment: string) {
    || spec == finger
    || Digest.PREFIX + spec == finger
    || ('*' in spec && Glob.GreedyMatches(spec, comment))
    || spec == comment
  }

  predicate Matches(p: Policy, blob: Bytes, comment: Bytes) {
    exists spec | spec in p.specs :: SpecMatches(spec, Digest.Fingerprint(blob), p.decode(comment))
  }

  predicate Permits(p: Policy, blob: Bytes, comment: Bytes) {
    match p.mode
    case PassAll => true
    case Allow => Matches(p, blob, comment)
    case Deny => !Matches(p, blob, comment)
  }

  /** The comment under which a blob was first listed, and the empty one if it never was. */
  function CommentOf(blob: Bytes, known: seq<Identity>): Bytes {
    if known == [] then [] else if known[0].blob == blob then known[0].comment else CommentOf(blob, known[1..])
  }

  /** A sign request names a key by its blob alone. */
  predicate PermitsBlob(p: Policy, blob: Bytes, known: seq<Identity>) {
    Permits(p, blob, CommentOf(blob, known))
  }

  predicate Lists(known: seq<Identity>, blob: Bytes) {
    exists id | id in known :: id.blob == blob
  }

  /** No blob is listed with comments that read differently. */
  ghost predicate OneCommentEach(decode: Bytes -> string, known: seq<Identity>) {
    forall a, b :: a in known && b in known && a.blob == b.blob ==> decode(a.comment) == decode(b.comment)
  }

  /** The identities a client is shown. */
  function Shown(p: Policy, known: seq<Identity>): seq<Identity> {
    Proto.Filter(known, (id: Identity) => Permits(p, id.blob, id.comment))
  }

  // ---- Listing and signing agree ----

  lemma {:induction false} ShownAre(p: Policy, known: seq<Identity>, id: Identity)
    ensures id in Shown(p, known) <==> id in known && Permits(p, id.blob, id.comment)
    decreases |known|
  {
    if known != [] {
      ShownAre(p, known[1..], id);
    }
  }

  lemma {:induction false} CommentIsFirst(blob: Bytes, known: seq<Identity>)
    requires Lists(known, blob)
    ensures Proto.Identity(blob, CommentOf(blob, known)) in known
    decreases |known|
  {
    if known[0].blob != blob {
      var id :| id in known && id.blob == blob;
      assert id in known[1..];
      CommentIsFirst(blob, known[1..]);
    }
  }

  /** A listed key the client may sign with is one it is shown. */
  lemma SignableIsShown(p: Policy, blob: Bytes, known: seq<Identity>)
    requires Lists(known, blob) && PermitsBlob(p, blob, known)
    ensures Lists(Shown(p, known), blob)
  {
    hide Permits, Shown;
    CommentIsFirst(blob, known);
    ShownAre(p, known, Proto.Identity(blob, CommentOf(blob, known)));
  }

  /** With one comment for each blob a key is shown exactly when it may be signed with. */
  lemma ShownIsSignable(p: Policy, known: seq<Identity>, id: Identity)
    requires OneCommentEach(p.decode, known) && id in known
    ensures Lists(Shown(p, known), id.blob) <==> PermitsBlob(p, id.blob, known)
    ensures id in Shown(p, known) <==> PermitsBlob(p, id.blob, known)
  {
    assert Lists(known, id.blob);
    CommentIsFirst(id.blob, known);
    var first := Proto.Identity(id.blob, CommentOf(id.blob, known));
    ShownAre(p, known, id);
    hide Shown, CommentOf, Digest.Fingerprint, Glob.GreedyMatches;
    assert p.decode(first.comment) == p.decode(id.comment);
    if Lists(Shown(p, known), id.blob) {
      var other :| other in Shown(p, known) && other.blob == id.blob;
      ShownAre(p, known, other);
      assert p.decode(other.comment) == p.decode(first.comment);
    }
  }

  /**
    Without that, the list can show a key under its second comment, `b`, that signing
    refuses under its first, `a`.
  */
  lemma RepeatedBlobDisagrees(blob: Bytes, decode: Bytes -> string)
    requires decode([97]) == "a" && decode([98]) == "b"
    ensures var p := Policy(Allow, ["b"], decode);
      var known := [Proto.Identity(blob, [97]), Proto.Identity(blob, [98])];
      Lists(Shown(p, known), blob) && !PermitsBlob(p, blob, known)
  {
    var p := Policy(Allow, ["b"], decode);
    var second := Proto.Identity(blob, [98]);
    var known := [Proto.Identity(blob, [97]), second];
    var finger := Digest.Fingerprint(blob);
    OneLetterNamesNoKey(blob);
    hide Digest.Fingerprint, Glob.GreedyMatches;
    assert p.specs[0] == "b";
    assert SpecMatches("b", finger, p.decode([98])) && !SpecMatches("b", finger, p.decode([97]));
    ShownAre(p, known, second);
    hide Shown;
    assert known[1] == second;
    assert second in Shown(p, known);
  }

  lemma OneLetterNamesNoKey(blob: Bytes)
    ensures Digest.PREFIX + "b" != Digest.Fingerprint(blob) && Digest.Fingerprint(blob) != "b"
  {
    hide Digest.Sha256;
    var digest := Digest.Sha256(blob);
    var finger := Digest.Fingerprint(blob);
    assert finger[|Digest.PREFIX|..] == Digest.Base64(digest);
    assert |Digest.Base64(digest)| != 1;
  }

  // ---- And only then ----

  /** The client is shown a key of this blob exactly when it may sign with it. */
  predicate Agrees(p: Policy, blob: Bytes, known: seq<Identity>) {
    Lists(Shown(p, known), blob) <==> PermitsBlob(p, blob, known)
  }

  predicate NamesKey(spec: string, finger: string) {
    spec == finger || Digest.PREFIX + spec == finger
  }

  lemma PrefixSpec(finger: string, comment: string)
    requires '*' !in finger && '*' !in comment
    ensures SpecMatches(Digest.PREFIX + "*", finger, comment) <==> Digest.PREFIX <= comment
  {
    var spec := Digest.PREFIX + "*";
    assert spec[|Digest.PREFIX|] == '*';
    assert (Digest.PREFIX + spec)[2 * |Digest.PREFIX|] == '*';
    Text.SplitPart(Digest.PREFIX, "", '*');
    assert Digest.PREFIX + ['*'] + "" == spec;
    assert Text.Split(spec, '*') == [Digest.PREFIX, ""];
    hide Text.Split, Glob.Behind;
    if Digest.PREFIX <= comment {
      var rest := comment[|Digest.PREFIX|..];
      Glob.BehindNothing(rest);
      assert [Digest.PREFIX, ""][1..] == [""];
      Glob.PlaceOne([""], 0, rest);
      assert [""][0..] == [""] && [""][1..] == [];
    }
  }

  /** Some one spec matches a key under just one of two comments. */
  lemma SpecTellsApart(blob: Bytes, c: string, d: string) returns (spec: string)
    requires c != d && '*' !in c && '*' !in d
    ensures SpecMatches(spec, Digest.Fingerprint(blob), c) != SpecMatches(spec, Digest.Fingerprint(blob), d)
  {
    hide Digest.Sha256, Digest.Base64, Glob.GreedyMatches;
    var finger, digits := Digest.Fingerprint(blob), Digest.Base64(Digest.Sha256(blob));
    Digest.Base64HasNoColon(Digest.Sha256(blob));
    if !NamesKey(c, finger) {
      spec := c;
    } else if !NamesKey(d, finger) {
      spec := d;
    } else {
      spec := Digest.PREFIX + "*";
      assert forall x | Digest.PREFIX + x == finger :: x == digits by {
        assert finger[|Digest.PREFIX|..] == digits;
      }
      assert Digest.PREFIX[6] == ':' && (|digits| > 6 ==> digits[6] in digits);
      PrefixSpec(finger, c);
      PrefixSpec(finger, d);
    }
  }

  /** With a list of that spec, the key under its first comment and under another are treated differently. */
  lemma RepeatedKeyDisagrees(decode: Bytes -> string, known: seq<Identity>, id: Identity) returns (p: Policy)
    requires id in known && decode(id.comment) != decode(CommentOf(id.blob, known))
    requires '*' !in decode(id.comment) && '*' !in decode(CommentOf(id.blob, known))
    ensures p.decode == decode && !Agrees(p, id.blob, known)
  {
    var first := CommentOf(id.blob, known);
    var spec := SpecTellsApart(id.blob, decode(id.comment), decode(first));
    hide SpecMatches, Shown, CommentOf, Digest.Fingerprint;
    var finger := Digest.Fingerprint(id.blob);
    p := Policy(if SpecMatches(spec, finger, decode(first)) then Deny else Allow, [spec], decode);
    OneSpec(p, spec, id.blob, id.comment);
    OneSpec(p, spec, id.blob, first);
    hide Permits;
    ShownAre(p, known, id);
  }

  lemma OneSpec(p: Policy, spec: string, blob: Bytes, comment: Bytes)
    requires p.specs == [spec] && !p.mode.PassAll?
    ensures Permits(p, blob, comment) <==> p.mode.Allow? == SpecMatches(spec, Digest.Fingerprint(blob), p.decode(comment))
  {
    hide SpecMatches, Digest.Fingerprint;
    assert p.specs[0] == spec;
  }

  /**
    Listing and signing agree under every allow and deny list exactly when no blob is
    listed with comments that read differently; of comments that hold no `*`.
  */
  lemma AlwaysAgreesIffOneComment(decode: Bytes -> string, known: seq<Identity>)
    requires forall id <- known :: '*' !in decode(id.comment)
    ensures (forall mode, specs, id :: id in known ==> Agrees(Policy(mode, specs, decode), id.blob, known))
            <==> OneCommentEach(decode, known)
  {
    hide Agrees;
    if OneCommentEach(decode, known) {
      forall mode, specs, id | id in known
        ensures Agrees(Policy(mode, specs, decode), id.blob, known)
      {
        AgreesWithOneComment(Policy(mode, specs, decode), known, id);
      }
    } else {
      var a, b :| a in known && b in known && a.blob == b.blob && decode(a.comment) != decode(b.comment);
      assert Lists(known, a.blob);
      CommentIsFirst(a.blob, known);
      var id := if decode(a.comment) != decode(CommentOf(a.blob, known)) then a else b;
      var p := RepeatedKeyDisagrees(decode, known, id);
      assert p == Policy(p.mode, p.specs, decode);
    }
  }

  lemma AgreesWithOneComment(p: Policy, known: seq<Identity>, id: Identity)
    requires OneCommentEach(p.decode, known) && id in known
    ensures Agrees(p, id.blob, known)
  {
    ShownIsSignable(p, known, id);
  }

  // ---- Keys that were never listed ----

  predicate AllStars(s: string) {
    forall i :: 0 <= i < |s| ==> s[i] == '*'
  }

  lemma {:induction false} EmptyTextNeedsStars(s: string)
    ensures Glob.Means(s, "", false) <==> AllStars(s)
    decreases |s|
  {
    Glob.EmptyMeans("", false);
    hide Glob.Means;
    if s != "" {
      EmptyTextNeedsStars(s[1..]);
      assert s == [s[0]] + s[1..];
      if Glob.Means(s, "", false) {
        var k := Glob.MeansBack(s, "", false);
        assert s[0] == '*' && "" == ""[k..];
      }
      if AllStars(s) {
        assert s[0] in s && AllStars(s[1..]);
        Glob.MeansOn(s, "", "", false);
      }
    }
  }

  lemma EmptyTextMatches(s: string)
    requires '*' in s
    ensures Glob.GreedyMatches(s, "") <==> AllStars(s)
  {
    hide Glob.GreedyMatches, Glob.Means;
    EmptyTextNeedsStars(s);
    if AllStars(s) {
      assert s[|s| - 1] in s;
      Glob.GreedyIsComplete(s, "");
    }
    if Glob.GreedyMatches(s, "") {
      Glob.GreedyIsSound(s, "");
    }
  }

  /**
    A key that was never listed is judged by its fingerprint and the empty comment, so
    of the specs that name no fingerprint only the empty one and runs of `*` reach it.
    An allow list without those refuses it; a deny list without those lets it through.
  */
  lemma UnlistedKeyIsJudgedByPrint(p: Policy, blob: Bytes, known: seq<Identity>)
    requires !Lists(known, blob) && p.decode([]) == ""
    ensures var finger := Digest.Fingerprint(blob);
      var named := exists spec | spec in p.specs ::
        (spec == finger || Digest.PREFIX + spec == finger || AllStars(spec));
      PermitsBlob(p, blob, known) <==> p.mode.PassAll? || (p.mode.Allow? && named) || (p.mode.Deny? && !named)
  {
    NeverListed(blob, known);
    var finger := Digest.Fingerprint(blob);
    hide Digest.Fingerprint, Glob.GreedyMatches;
    forall spec | spec in p.specs
      ensures SpecMatches(spec, finger, "") <==>
              spec == finger || Digest.PREFIX + spec == finger || AllStars(spec)
    {
      if '*' in spec {
        EmptyTextMatches(spec);
      } else if spec != "" {
        assert spec[0] in spec;
      }
    }
  }

  lemma {:induction false} NeverListed(blob: Bytes, known: seq<Identity>)
    requires !Lists(known, blob)
    ensures CommentOf(blob, known) == []
    decreases |known|
  {
    if known != [] {
      assert known[0] in known;
      NeverListed(blob, known[1..]);
    }
  }

  /** One nonempty list taken as an allow list and as a deny list split the keys between them. */
  lemma AllowAndDenyAreOpposite(list: seq<string>, decode: Bytes -> string, blob: Bytes, comment: Bytes)
    ensures New(list, list, decode).None? <==> list != []
    ensures list != [] ==> Permits(New(list, [], decode).value, blob, comment) !=
                           Permits(New([], list, decode).value, blob, comment)
  {}

  // ---- What a spec means ----

  /** The spec is the key's fingerprint, with or without `SHA256:` in front. */
  ghost predicate IsPrintOf(spec: string, blob: Bytes) {
    var digits := Digest.Base64(Digest.Sha256(blob));
    spec == "SHA256:" + digits || spec == digits
  }

  lemma PrintsAre(spec: string, blob: Bytes)
    ensures IsPrintOf(spec, blob) <==> NamesKey(spec, Digest.Fingerprint(blob))
  {
    hide Digest.Sha256, Digest.Base64;
    var digits := Digest.Base64(Digest.Sha256(blob));
    assert ("SHA256:" + digits)[7..] == digits && ("SHA256:" + spec)[7..] == spec;
  }

  /** Without a `*` the meaning of a pattern is the text itself. */
  lemma {:induction false} LiteralMeans(spec: string, text: string)
    requires '*' !in spec
    ensures Glob.Means(spec, text, false) <==> text == spec
    decreases |spec|
  {
    Glob.EmptyMeans(text, false);
    hide Glob.Means;
    if spec != "" {
      if Glob.Means(spec, text, false) {
        var k := Glob.MeansBack(spec, text, false);
        LiteralMeans(spec[1..], text[k..]);
        assert text == text[..k] + text[k..];
      }
      if text == spec {
        LiteralMeans(spec[1..], spec[1..]);
        Glob.MeansOn(spec, [spec[0]], spec[1..], false);
        assert [spec[0]] + spec[1..] == spec;
      }
    }
  }

  /**
    A spec matches a key that it names, and a comment only if it means it; with no
    `*` or one at the end it matches every comment it means.
  */
  lemma SpecMeans(spec: string, blob: Bytes, comment: string)
    ensures SpecMatches(spec, Digest.Fingerprint(blob), comment) ==>
              IsPrintOf(spec, blob) || Glob.Means(spec, comment, false)
    ensures '*' !in spec || Glob.EndsWithStar(spec) ==>
              (SpecMatches(spec, Digest.Fingerprint(blob), comment) <==>
               IsPrintOf(spec, blob) || Glob.Means(spec, comment, false))
  {
    PrintsAre(spec, blob);
    hide Glob.GreedyMatches, Glob.Means, IsPrintOf, Digest.Fingerprint;
    if '*' !in spec {
      LiteralMeans(spec, comment);
    } else {
      Glob.GreedyIsWorth(spec, comment);
      if spec == comment {
        OwnTextMeans(spec);
      }
      if Glob.EndsWithStar(spec) {
        Glob.GreedyIsComplete(spec, comment);
      }
    }
  }

  /** Every pattern means its own text. */
  lemma {:induction false} OwnTextMeans(spec: string)
    ensures Glob.Means(spec, spec, false)
    decreases |spec|
  {
    Glob.EmptyMeans("", false);
    hide Glob.Means;
    if spec != "" {
      OwnTextMeans(spec[1..]);
      Glob.MeansOn(spec, [spec[0]], spec[1..], false);
      assert [spec[0]] + spec[1..] == spec;
    }
  }

  /** `y` ends the text and occurs nowhere before its end. */
  predicate EndsFirst(text: string, y: string) {
    |y| <= |text| && text[|text| - |y|..] == y && forall k: nat | k < |text| - |y| :: !Glob.At(y, text, k)
  }

  lemma TwoTextsMatch(x: string, y: string, text: string)
    requires '*' !in x && '*' !in y && y != ""
    ensures Glob.GreedyMatches(x + "*" + y, text) <==> x <= text && EndsFirst(text[|x|..], y)
  {
    Text.SplitPart(x, y, '*');
    Text.SplitPart(y, "", '*');
    assert x + ['*'] + y == x + "*" + y;
    assert [x, y][1..] == [y] && [y][0..] == [y] && [y][1..] == [];
    hide Text.Split, Glob.Behind, Glob.Find, EndsFirst;
    if x <= text {
      var rest := text[|x|..];
      Glob.PlaceOne([y], 0, rest);
      Glob.PlaceNone(rest);
      Glob.BehindFound(rest, y);
      FirstAtEnd(rest, y);
    }
  }

  /** With one `*` between two texts, the comment must begin with the one and have the other first at its end. */
  lemma SpecOfTwoTexts(x: string, y: string, blob: Bytes, comment: string)
    requires '*' !in x && '*' !in y && y != ""
    ensures SpecMatches(x + "*" + y, Digest.Fingerprint(blob), comment) <==>
            || IsPrintOf(x + "*" + y, blob)
            || (x <= comment && EndsFirst(comment[|x|..], y))
            || x + "*" + y == comment
  {
    hide Glob.GreedyMatches, EndsFirst, IsPrintOf, Digest.Fingerprint;
    PrintsAre(x + "*" + y, blob);
    TwoTextsMatch(x, y, comment);
    assert (x + "*" + y)[|x|] == '*';
  }

  lemma FirstAtEnd(rest: string, y: string)
    requires y != ""
    ensures EndsFirst(rest, y) <==> Glob.Find(rest, y).Some? && Glob.Find(rest, y).value + |y| == |rest|
  {
    var found := Glob.Find(rest, y);
    if EndsFirst(rest, y) {
      assert Glob.At(y, rest, |rest| - |y|);
    }
  }

  /** A list of specs with no `*` or one at the end matches by name and meaning alone. */
  lemma PolicyMeans(p: Policy, blob: Bytes, comment: Bytes)
    requires forall spec <- p.specs :: '*' !in spec || Glob.EndsWithStar(spec)
    ensures var text := p.decode(comment);
      var named := (exists spec :: spec in p.specs && (IsPrintOf(spec, blob) || Glob.Means(spec, text, false)));
      Permits(p, blob, comment) <==> p.mode.PassAll? || (p.mode.Allow? && named) || (p.mode.Deny? && !named)
  {
    hide SpecMatches, IsPrintOf, Glob.Means, Digest.Fingerprint;
    forall spec | spec in p.specs
      ensures SpecMatches(spec, Digest.Fingerprint(blob), p.decode(comment)) <==>
              IsPrintOf(spec, blob) || Glob.Means(spec, p.decode(comment), false)
    {
      SpecMeans(spec, blob, p.decode(comment));
    }
  }

  /** The comment by which a key is judged for signing: that of the first entry with its blob. */
  lemma {:induction false} JudgedByFirstComment(blob: Bytes, before: seq<Identity>, comment: Bytes, after: seq<Identity>)
    requires !Lists(before, blob)
    ensures CommentOf(blob, before + [Proto.Identity(blob, comment)] + after) == comment
    decreases |before|
  {
    var known := before + [Proto.Identity(blob, comment)] + after;
    if before == [] {
      assert known[0] == Proto.Identity(blob, comment);
    } else {
      assert before[0] in before;
      assert known[0] == before[0] && known[1..] == before[1..] + [Proto.Identity(blob, comment)] + after;
      JudgedByFirstComment(blob, before[1..], comment, after);
    }
  }
}
