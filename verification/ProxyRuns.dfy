/** What the filtering agent proxy guarantees over whole connections (ssh-agent-filter/src/lib.rs:11-124). */
module ProxyRuns {
  import opened Wrappers
  import opened Proto
  import opened Proxy
  import Policy

  // ---- What reaches upstream ----

  /** The turns are the proxy's, each from the state the one before it left. */
  ghost predicate Chained(config: Config, turns: seq<Turn>, known: seq<Identity>, upstream: Bytes)
    decreases |turns|
  {
    turns != [] ==>
      && turns[0] == Handle(config, turns[0].req, known, upstream)
      && Chained(config, turns[1..], turns[0].known, turns[0].left)
  }

  ghost predicate AllGoing(turns: seq<Turn>) {
    forall t <- turns :: t.fate.Going?
  }

  lemma {:induction false} RunIsChained(config: Config, client: Bytes, upstream: Bytes, known: seq<Identity>)
    ensures Chained(config, Serve(config, client, upstream, known).turns, known, upstream)
    decreases |client|
  {
    hide *;
    ServeUnfolds(config, client, upstream, known);
    var (got, rest) := Receive(client);
    if got.Got? {
      var t := Handle(config, got.m, known, upstream);
      OnwardIs(t, config, rest);
      if t.fate.Going? {
        RunIsChained(config, rest, t.left, t.known);
        ChainedOn(config, got.m, known, upstream, Serve(config, rest, t.left, t.known).turns);
      } else {
        NothingIsChained(config, t.known, t.left);
        ChainedOn(config, got.m, known, upstream, []);
        assert [t] + [] == [t];
      }
    } else {
      NothingIsChained(config, known, upstream);
    }
  }

  lemma NothingIsChained(config: Config, known: seq<Identity>, upstream: Bytes)
    ensures Chained(config, [], known, upstream)
  {}

  lemma ChainedOn(config: Config, req: Message, known: seq<Identity>, upstream: Bytes, more: seq<Turn>)
    requires var t := Handle(config, req, known, upstream); Chained(config, more, t.known, t.left)
    ensures Chained(config, [Handle(config, req, known, upstream)] + more, known, upstream)
  {
    HandleDecides(config, req, known, upstream);
    hide Handle, Decided;
    var turns := [Handle(config, req, known, upstream)] + more;
    assert turns[1..] == more;
  }

  /** The client's messages are taken one turn each, in order, to the end unless upstream ends the connection. */
  lemma {:induction false} TurnsFollowTheClient(config: Config, client: Bytes, upstream: Bytes, known: seq<Identity>)
    ensures var turns := Serve(config, client, upstream, known).turns;
      && Requests(turns) <= ReceiveAll(client)
      && (AllGoing(turns) ==> Requests(turns) == ReceiveAll(client))
    decreases |client|
  {
    ServeUnfolds(config, client, upstream, known);
    var (got, rest) := Receive(client);
    if got.Got? {
      var t := Handle(config, got.m, known, upstream);
      OnwardIs(t, config, rest);
      assert t.req == got.m;
      assert ReceiveAll(client) == [got.m] + ReceiveAll(rest);
      var turns := Serve(config, client, upstream, known).turns;
      if t.fate.Going? {
        TurnsFollowTheClient(config, rest, t.left, t.known);
        var more := Serve(config, rest, t.left, t.known).turns;
        hide Serve, Handle, Receive, ReceiveAll;
        assert turns == [t] + more && turns[1..] == more;
        assert Requests(turns) == [got.m] + Requests(more);
        if AllGoing(turns) {
          assert forall u <- more :: u in turns;
        }
      } else {
        hide Serve, Handle, Receive, ReceiveAll;
        assert turns == [t] && turns[0] == t && turns[1..] == [];
        assert Requests(turns) == [got.m];
      }
    }
  }

  /** How one turn decides: ask only about a key never listed, forward exactly what is admitted. */
  ghost predicate Decided(config: Config, t: Turn, before: seq<Identity>) {
    && t.asked == MustAsk(config, t.req, before)
    && t.judged == (if t.asked then Told(t.own) else before)
    && t.forwarded == Admitted(config, t.req, t.judged)
    && t.known == (if t.answer.Some? then Learned(t.req, t.answer.value, t.judged) else t.judged)
    && (t.answer.Some? ==> t.forwarded)
  }

  lemma HandleDecides(config: Config, req: Message, known: seq<Identity>, upstream: Bytes)
    ensures Decided(config, Handle(config, req, known, upstream), known)
    ensures Handle(config, req, known, upstream).req == req
  {
    hide Admitted, MustAsk, Told, Learned, Answered, Receive;
  }

  /** The bytes a turn's own request is answered from. */
  ghost function Behind(t: Turn, upstream: Bytes): Bytes {
    if t.asked then Receive(upstream).1 else upstream
  }

  lemma HandleReads(config: Config, req: Message, known: seq<Identity>, upstream: Bytes)
    ensures var t := Handle(config, req, known, upstream);
      var (last, rest) := Receive(Behind(t, upstream));
      && t.req == req
      && t.own == (if t.asked then Arrived(Receive(upstream).0) else None)
      && (!t.forwarded ==> t.answer == None && t.reply == Some(FAILURE) && t.fate == Going && t.left == Behind(t, upstream))
      && (t.forwarded && last.Got? ==>
            && t.answer == Some(last.m) && t.reply == Some(Answered(config, req, last.m))
            && t.fate == Going && t.left == rest)
      && (t.forwarded && !last.Got? ==> t.answer == None && t.reply == None && t.fate != Going)
  {
    hide Admitted, MustAsk, Told, Learned, Answered, Receive;
  }

  /** What was known before turn `i`. */
  ghost function Before(turns: seq<Turn>, i: nat): seq<Identity>
    requires i <= |turns|
  {
    if i == 0 then [] else turns[i - 1].known
  }

  lemma {:induction false} ChainDecides(config: Config, turns: seq<Turn>, known: seq<Identity>, upstream: Bytes, i: nat)
    requires Chained(config, turns, known, upstream) && i < |turns|
    ensures Decided(config, turns[i], if i == 0 then known else turns[i - 1].known)
    decreases i
  {
    hide Decided, Handle;
    if i == 0 {
      HandleDecides(config, turns[0].req, known, upstream);
    } else {
      ChainDecides(config, turns[1..], turns[0].known, turns[0].left, i - 1);
    }
  }

  /** Every message in the stream to upstream, with the turn that put it there. */
  lemma {:induction false} SentUpByATurn(turns: seq<Turn>, m: Message)
    requires m in ToUpstream(turns)
    ensures exists i :: 0 <= i < |turns| && m in SentUp(turns[i])
    decreases |turns|
  {
    hide SentUp;
    if m !in SentUp(turns[0]) {
      SentUpByATurn(turns[1..], m);
      var i :| 0 <= i < |turns[1..]| && m in SentUp(turns[1..][i]);
      assert turns[1..][i] == turns[i + 1];
    }
  }

  /**
    For every client, every upstream and every policy: the client's messages are
    handled in order, one turn each; a turn forwards its request exactly when it is
    neither mutating nor an unwanted extension nor a signature the policy refuses by
    what is then known; the proxy asks for identities of its own exactly before ruling
    on a key that was never listed.
  */
  lemma UpstreamSeesOnlyAdmitted(config: Config, client: Bytes, upstream: Bytes, i: nat)
    requires i < |Serve(config, client, upstream, []).turns|
    ensures var turns := Serve(config, client, upstream, []).turns;
      && i < |ReceiveAll(client)| && turns[i].req == ReceiveAll(client)[i]
      && Decided(config, turns[i], Before(turns, i))
  {
    TurnsFollowTheClient(config, client, upstream, []);
    RunIsChained(config, client, upstream, []);
    var turns := Serve(config, client, upstream, []).turns;
    ChainDecides(config, turns, [], upstream, i);
    hide *;
    RequestAt(turns, i);
  }

  lemma {:induction false} RequestAt(turns: seq<Turn>, i: nat)
    ensures |Requests(turns)| == |turns|
    ensures i < |turns| ==> Requests(turns)[i] == turns[i].req
    decreases |turns|
  {
    if turns != [] {
      RequestAt(turns[1..], if i > 0 then i - 1 else 0);
    }
  }

  /** Nothing that mutates the agent ever reaches it, no extension unless allowed, and only signatures the policy permits. */
  lemma NothingRefusedReachesUpstream(config: Config, client: Bytes, upstream: Bytes, m: Message)
    requires m in ToUpstream(Serve(config, client, upstream, []).turns)
    ensures m == OWN_QUERY || m in ReceiveAll(client)
    ensures Kind(m) !in {17, 18, 19, 20, 21, 22, 23, 25, 26} && (Kind(m) == 27 ==> config.allowExtensions)
    ensures Kind(m) == 13 ==>
              && SignKey(Payload(m)).Some?
              && exists t :: t in Serve(config, client, upstream, []).turns && t.req == m &&
                             Policy.PermitsBlob(config.policy, SignKey(Payload(m)).value, t.judged)
  {
    var turns := Serve(config, client, upstream, []).turns;
    SentUpByATurn(turns, m);
    var i :| 0 <= i < |turns| && m in SentUp(turns[i]);
    hide Serve, ReceiveAll;
    UpstreamSeesOnlyAdmitted(config, client, upstream, i);
    hide SignKey, Policy.PermitsBlob;
    assert turns[i] in turns;
  }

  // ---- What the proxy knows ----

  /** The answers read from upstream in these turns. */
  function Answers(t: Turn): seq<Message> {
    (if t.own.Some? then [t.own.value] else []) + (if t.answer.Some? then [t.answer.value] else [])
  }

  /** Nothing, or the whole of one identities answer that was read in one of the turns. */
  ghost predicate KnownFrom(known: seq<Identity>, turns: seq<Turn>) {
    known == [] ||
    exists t, a :: t in turns && a in Answers(t) && Kind(a) == IDENTITIES_ANSWER && Parse(Payload(a)) == Some(known)
  }

  lemma KnownFromOne(known: seq<Identity>, turns: seq<Turn>, t: Turn, a: Message)
    requires t in turns && a in Answers(t) && Kind(a) == IDENTITIES_ANSWER && Parse(Payload(a)) == Some(known)
    ensures KnownFrom(known, turns)
  {}

  lemma KnownFromMore(known: seq<Identity>, turns: seq<Turn>, t: Turn)
    requires KnownFrom(known, turns)
    ensures KnownFrom(known, turns + [t])
  {
    hide Answers, Parse;
  }

  lemma TurnKeepsKnownWhole(config: Config, t: Turn, before: seq<Identity>, turns: seq<Turn>)
    requires Decided(config, t, before) && KnownFrom(before, turns)
    ensures KnownFrom(t.judged, turns + [t]) && KnownFrom(t.known, turns + [t])
  {
    var all := turns + [t];
    assert all[|turns|] == t;
    KnownFromMore(before, turns, t);
    hide KnownFrom, Parse, Kind, Admitted, MustAsk;
    if t.asked {
      if Told(t.own) == [] {
        assert KnownFrom([], all) by { NothingIsKnownFrom(all); }
      } else {
        KnownFromOne(Told(t.own), all, t, t.own.value);
      }
    }
    if t.known != t.judged {
      KnownFromOne(t.known, all, t, t.answer.value);
    }
  }

  lemma NothingIsKnownFrom(turns: seq<Turn>)
    ensures KnownFrom([], turns)
  {}

  /** In every reachable state what is known is empty or the whole of one unfiltered answer. */
  lemma {:induction false} KnownIsOneWholeAnswer(config: Config, client: Bytes, upstream: Bytes, i: nat)
    requires i < |Serve(config, client, upstream, []).turns|
    ensures var turns := Serve(config, client, upstream, []).turns;
      KnownFrom(turns[i].judged, turns[..i + 1]) && KnownFrom(turns[i].known, turns[..i + 1])
    decreases i
  {
    hide *;
    var turns := Serve(config, client, upstream, []).turns;
    UpstreamSeesOnlyAdmitted(config, client, upstream, i);
    var before := Before(turns, i);
    if i > 0 {
      KnownIsOneWholeAnswer(config, client, upstream, i - 1);
      assert before == turns[i - 1].known by { BeforeIs(turns, i); }
      assert turns[..i - 1 + 1] == turns[..i];
    } else {
      BeforeIs(turns, i);
      NothingIsKnownFrom(turns[..0]);
    }
    assert turns[..i + 1] == turns[..i] + [turns[i]];
    TurnKeepsKnownWhole(config, turns[i], before, turns[..i]);
  }

  lemma BeforeIs(turns: seq<Turn>, i: nat)
    requires i <= |turns|
    ensures Before(turns, i) == if i == 0 then [] else turns[i - 1].known
  {}

  // ---- What the client gets ----

  /** The reply a turn owes, when the stream of answers is paired with the stream of requests. */
  ghost function Owed(config: Config, t: Turn, answers: seq<Message>, sent: nat): Message {
    if t.forwarded && 0 < sent <= |answers| then Answered(config, t.req, answers[sent - 1]) else FAILURE
  }

  lemma ReceiveNext(answers: seq<Message>, tail: Bytes)
    requires AllSendable(answers) && answers != []
    ensures Receive(Frames(answers) + tail) == (Got(answers[0]), Frames(answers[1..]) + tail)
    ensures AllSendable(answers[1..])
  {
    assert answers[0] in answers;
    ReceiveFrame(answers[0], Frames(answers[1..]) + tail);
    hide Receive, Frame;
    assert Frames(answers) + tail == Frame(answers[0]) + (Frames(answers[1..]) + tail);
  }

  /** A turn reads one answer for each message it sends upstream. */
  lemma TurnTakesItsAnswers(config: Config, req: Message, known: seq<Identity>, answers: seq<Message>, tail: Bytes)
    requires AllSendable(answers)
    requires |SentUp(Handle(config, req, known, Frames(answers) + tail))| <= |answers|
    ensures var t := Handle(config, req, known, Frames(answers) + tail);
      var k := |SentUp(t)|;
      && k <= |answers|
      && t.fate == Going && t.left == Frames(answers[k..]) + tail
      && t.reply == Some(Owed(config, t, answers, k))
      && t.own == (if t.asked then Some(answers[0]) else None)
      && t.answer == (if t.forwarded then Some(answers[k - 1]) else None)
  {
    var upstream := Frames(answers) + tail;
    var t := Handle(config, req, known, upstream);
    HandleReads(config, req, known, upstream);
    hide Handle, Answered, Receive, Frames;
    assert answers[0..] == answers;
    if t.asked {
      ReceiveNext(answers, tail);
      if t.forwarded {
        ReceiveNext(answers[1..], tail);
        assert answers[1..][1..] == answers[2..];
      }
    } else if t.forwarded {
      ReceiveNext(answers, tail);
    }
  }

  lemma UpstreamInSteps(turns: seq<Turn>, i: nat)
    requires i < |turns|
    ensures ToUpstream(turns) == SentUp(turns[0]) + ToUpstream(turns[1..])
    ensures ToUpstream(turns[..i + 1]) == SentUp(turns[0]) + ToUpstream(turns[1..][..i])
    ensures ToUpstream(turns[1..][..0]) == []
  {
    hide SentUp;
    assert turns[..i + 1][0] == turns[0] && turns[..i + 1][1..] == turns[1..][..i];
  }

  lemma {:induction false} ChainIsPaired(config: Config, turns: seq<Turn>, known: seq<Identity>,
        answers: seq<Message>, tail: Bytes, i: nat)
    requires Chained(config, turns, known, Frames(answers) + tail) && AllSendable(answers)
    requires |ToUpstream(turns)| <= |answers| && i < |turns|
    ensures turns[i].fate == Going
    ensures turns[i].reply == Some(Owed(config, turns[i], answers, |ToUpstream(turns[..i + 1])|))
    decreases i
  {
    var t := turns[0];
    var k := |SentUp(t)|;
    hide Handle, SentUp, Owed, Frames, ToUpstream;
    UpstreamInSteps(turns, i);
    TurnTakesItsAnswers(config, t.req, known, answers, tail);
    if i > 0 {
      assert AllSendable(answers[k..]);
      hide AllSendable, Answered;
      assert Chained(config, turns[1..], t.known, Frames(answers[k..]) + tail);
      hide Chained;
      ChainIsPaired(config, turns[1..], t.known, answers[k..], tail, i - 1);
      var u := turns[1..][i - 1];
      assert u == turns[i];
      SentUpAt(turns[1..], i - 1);
      OwedShifts(config, u, answers, k, |ToUpstream(turns[1..][..i])|);
    }
  }

  lemma OwedShifts(config: Config, t: Turn, answers: seq<Message>, k: nat, sent: nat)
    requires k <= |answers| && (t.forwarded ==> sent > 0)
    ensures Owed(config, t, answers[k..], sent) == Owed(config, t, answers, k + sent)
  {
    hide Answered;
    if t.forwarded && sent <= |answers| - k {
      assert answers[k..][sent - 1] == answers[k + sent - 1];
    }
  }

  lemma {:induction false} SentUpAt(turns: seq<Turn>, i: nat)
    requires i < |turns|
    ensures turns[i].forwarded ==> |ToUpstream(turns[..i + 1])| > 0
    decreases i
  {
    assert turns[..i + 1][0] == turns[0] && turns[..i + 1][1..] == turns[1..][..i];
    if i > 0 {
      SentUpAt(turns[1..], i - 1);
      assert turns[1..][..i - 1 + 1] == turns[1..][..i];
    }
  }

  /**
    With an upstream that answers each message it is sent with one well-formed
    message, every client request gets exactly one reply, in order: the failure if it
    was refused, and otherwise the answer that stands where the request stood in the
    stream to upstream, filtered if it is a listing.
  */
  lemma EachRequestGetsItsOwnAnswer(config: Config, client: Bytes, answers: seq<Message>, tail: Bytes, i: nat)
    requires AllSendable(answers)
    requires |ToUpstream(Serve(config, client, Frames(answers) + tail, []).turns)| <= |answers|
    requires i < |ReceiveAll(client)|
    ensures var turns := Serve(config, client, Frames(answers) + tail, []).turns;
      && Requests(turns) == ReceiveAll(client) && |turns| == |ToClient(turns)| == |ReceiveAll(client)|
      && ToClient(turns)[i] == Owed(config, turns[i], answers, |ToUpstream(turns[..i + 1])|)
  {
    var upstream := Frames(answers) + tail;
    var turns := Serve(config, client, upstream, []).turns;
    RunIsChained(config, client, upstream, []);
    TurnsFollowTheClient(config, client, upstream, []);
    hide *;
    forall j: nat | j < |turns|
      ensures turns[j].fate == Going && turns[j].reply.Some?
    {
      ChainIsPaired(config, turns, [], answers, tail, j);
    }
    GoingAll(turns);
    RequestAt(turns, i);
    OneReplyEach(turns, i);
    ChainIsPaired(config, turns, [], answers, tail, i);
  }

  lemma GoingAll(turns: seq<Turn>)
    requires forall j: nat :: j < |turns| ==> turns[j].fate == Going
    ensures AllGoing(turns)
  {}

  lemma {:induction false} OneReplyEach(turns: seq<Turn>, i: nat)
    requires forall j: nat :: j < |turns| ==> turns[j].reply.Some?
    ensures |ToClient(turns)| == |turns|
    ensures i < |turns| ==> Some(ToClient(turns)[i]) == turns[i].reply
    decreases |turns|
  {
    if turns != [] {
      OneReplyEach(turns[1..], if i > 0 then i - 1 else 0);
    }
  }

  // ---- Both streams can be read back ----

  lemma HandleSendsSendable(config: Config, req: Message, known: seq<Identity>, upstream: Bytes)
    requires Sendable(req)
    ensures AllSendable(SentUp(Handle(config, req, known, upstream)))
    ensures AllSendable(SentBack(Handle(config, req, known, upstream)))
  {
    var t := Handle(config, req, known, upstream);
    HandleReads(config, req, known, upstream);
    assert Sendable(OWN_QUERY) && Sendable(FAILURE);
    hide Handle, Receive;
    if t.answer.Some? {
      ReceivedWasFramed(Behind(t, upstream));
      AnsweredIsSendable(config, req, t.answer.value);
    }
  }

  lemma AnsweredIsSendable(config: Config, req: Message, answer: Message)
    requires Sendable(answer)
    ensures Sendable(Answered(config, req, answer))
  {
    assert Sendable(FAILURE);
    if IsListing(req, answer) && Parse(Payload(answer)).Some? {
      FilteredAnswerFits(answer, (id: Identity) => Policy.Permits(config.policy, id.blob, id.comment));
    }
  }

  lemma AllSendableAppend(a: seq<Message>, b: seq<Message>)
    requires AllSendable(a) && AllSendable(b)
    ensures AllSendable(a + b)
  {}

  lemma {:induction false} ChainSendsSendable(config: Config, turns: seq<Turn>, known: seq<Identity>, upstream: Bytes)
    requires Chained(config, turns, known, upstream) && forall t <- turns :: Sendable(t.req)
    ensures AllSendable(ToUpstream(turns)) && AllSendable(ToClient(turns))
    decreases |turns|
  {
    if turns != [] {
      assert turns[0] in turns;
      HandleSendsSendable(config, turns[0].req, known, upstream);
      assert forall t <- turns[1..] :: t in turns;
      hide Handle, SentUp, SentBack, AllSendable, Sendable;
      ChainSendsSendable(config, turns[1..], turns[0].known, turns[0].left);
      AllSendableAppend(SentUp(turns[0]), ToUpstream(turns[1..]));
      AllSendableAppend(SentBack(turns[0]), ToClient(turns[1..]));
    }
  }

  lemma {:induction false} ReceivedAreSendable(input: Bytes)
    ensures AllSendable(ReceiveAll(input))
    decreases |input|
  {
    if Receive(input).0.Got? {
      ReceivedWasFramed(input);
      ReceivedAreSendable(Receive(input).1);
      hide Receive, Sendable;
      assert ReceiveAll(input) == [Receive(input).0.m] + ReceiveAll(Receive(input).1);
    }
  }

  /** Whatever the peers send, each side can read back exactly the messages that were written to it. */
  lemma BothSidesCanReadEverything(config: Config, client: Bytes, upstream: Bytes)
    ensures var turns := Serve(config, client, upstream, []).turns;
      && ReceiveAll(Frames(ToClient(turns))) == ToClient(turns)
      && ReceiveAll(Frames(ToUpstream(turns))) == ToUpstream(turns)
  {
    var turns := Serve(config, client, upstream, []).turns;
    RunIsChained(config, client, upstream, []);
    TurnsFollowTheClient(config, client, upstream, []);
    ReceivedAreSendable(client);
    hide Serve, ReceiveAll, Chained, Sendable, Requests;
    forall t | t in turns
      ensures Sendable(t.req)
    {
      var i :| 0 <= i < |turns| && turns[i] == t;
      RequestAt(turns, i);
      assert t.req == ReceiveAll(client)[i];
    }
    ChainSendsSendable(config, turns, [], upstream);
    ReceiveAllFrames(ToClient(turns));
    ReceiveAllFrames(ToUpstream(turns));
  }

  // ---- Listing and signing ----

  lemma {:induction false} ReadFits(buf: Bytes, pos: nat, n: nat)
    requires pos <= |buf| < U32_LIMIT && ReadIdentities(buf, pos, n).Some?
    ensures forall id <- ReadIdentities(buf, pos, n).value :: |id.blob| < U32_LIMIT && |id.comment| < U32_LIMIT
    decreases n
  {
    if n > 0 {
      var (blob, mid) := ReadString(buf, pos).value;
      var (comment, end) := ReadString(buf, mid).value;
      ReadFits(buf, end, n - 1);
    }
  }

  /** The client can parse the filtered listing, and finds the permitted identities in upstream's order. */
  lemma ClientSeesPermittedSublist(config: Config, req: Message, answer: Message)
    requires Sendable(answer) && IsListing(req, answer) && Parse(Payload(answer)).Some?
    ensures Parse(Payload(Answered(config, req, answer))) ==
            Some(Policy.Shown(config.policy, Parse(Payload(answer)).value))
  {
    var payload := Payload(answer);
    var ids := Parse(payload).value;
    assert |ids| <= |payload|;
    assert ReadIdentities(payload, 4, |ids|) == Some(ids);
    ReadFits(payload, 4, |ids|);
    var shown := Policy.Shown(config.policy, ids);
    hide ReadIdentities, Parse, Policy.Permits;
    forall id | id in shown
      ensures |id.blob| < U32_LIMIT && |id.comment| < U32_LIMIT
    {
      Policy.ShownAre(config.policy, ids, id);
    }
    ParseBuild(shown);
  }

  lemma ForwardedIfShown(config: Config, sign: Message, ids: seq<Identity>, later: Bytes)
    requires Kind(sign) == SIGN_REQUEST && SignKey(Payload(sign)).Some?
    requires Policy.OneCommentEach(config.policy.decode, ids) && Policy.Lists(ids, SignKey(Payload(sign)).value)
    ensures Handle(config, sign, ids, later).forwarded <==>
            Policy.Lists(Policy.Shown(config.policy, ids), SignKey(Payload(sign)).value)
  {
    hide Handle, Told, Learned, SignKey, Policy.PermitsBlob, Policy.Shown;
    var blob := SignKey(Payload(sign)).value;
    HandleDecides(config, sign, ids, later);
    var id :| id in ids && id.blob == blob;
    Policy.ShownIsSignable(config.policy, ids, id);
    assert !MustAsk(config, sign, ids);
    assert !Refused(config, SIGN_REQUEST);
  }

  /**
    After a listing with one comment for each blob, a key is on the list the client got
    exactly when a request to sign with it is forwarded.
  */
  lemma ListedIsSignable(config: Config, list: Message, sign: Message, known: seq<Identity>, upstream: Bytes,
        later: Bytes)
    requires var t := Handle(config, list, known, upstream);
      && t.answer.Some? && IsListing(list, t.answer.value) && Parse(Payload(t.answer.value)).Some?
      && Policy.OneCommentEach(config.policy.decode, t.known)
      && Kind(sign) == SIGN_REQUEST && SignKey(Payload(sign)).Some? && Policy.Lists(t.known, SignKey(Payload(sign)).value)
    ensures var t := Handle(config, list, known, upstream);
      && t.reply.Some? && Parse(Payload(t.reply.value)).Some?
      && (Handle(config, sign, t.known, later).forwarded <==>
          Policy.Lists(Parse(Payload(t.reply.value)).value, SignKey(Payload(sign)).value))
  {
    var t := Handle(config, list, known, upstream);
    HandleReads(config, list, known, upstream);
    HandleDecides(config, list, known, upstream);
    hide Handle, Receive, Parse, Answered, SignKey, Policy.Lists, Policy.OneCommentEach, Policy.Shown, IsListing;
    var answer := t.answer.value;
    assert t.known == Parse(Payload(answer)).value by { hide Told, Admitted, MustAsk; }
    hide Decided;
    ReceivedWasFramed(Behind(t, upstream));
    hide Sendable, Frame, Payload, Kind;
    ClientSeesPermittedSublist(config, list, answer);
    ForwardedIfShown(config, sign, t.known, later);
  }

  /**
    A client that signs without listing gains nothing: the key is judged as upstream
    lists it, and if upstream does not answer with a list, as a key nobody lists.
  */
  lemma UnlistedSignIsJudgedByUpstream(config: Config, sign: Message, known: seq<Identity>, answer: Message,
        tail: Bytes)
    requires Kind(sign) == SIGN_REQUEST && SignKey(Payload(sign)).Some? && Sendable(answer)
    requires !Policy.Lists(known, SignKey(Payload(sign)).value)
    ensures var t := Handle(config, sign, known, Frame(answer) + tail);
      var listed := if Kind(answer) == IDENTITIES_ANSWER then Parse(Payload(answer)) else None;
      && SentUp(t) == [OWN_QUERY] + (if t.forwarded then [sign] else [])
      && (t.forwarded <==>
          Policy.PermitsBlob(config.policy, SignKey(Payload(sign)).value, if listed.Some? then listed.value else []))
  {
    ReceiveFrame(answer, tail);
    HandleDecides(config, sign, known, Frame(answer) + tail);
    HandleReads(config, sign, known, Frame(answer) + tail);
    hide Handle, Receive, Parse, Frame, SignKey, Policy.PermitsBlob, Policy.Lists, Learned;
    assert !Refused(config, SIGN_REQUEST);
  }
}
