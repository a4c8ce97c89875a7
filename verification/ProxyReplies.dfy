/**
  The turns of a connection in the numbers of the protocol
  (ssh-agent-filter/src/lib.rs:30-107): which requests go on, by whose word they
  are judged, what the client is told, and how the connection ends.
*/
module ProxyReplies {
  import opened Wrappers
  import opened Proto
  import opened Proxy
  import opened ProxyRuns
  import Policy

  /** The requests that would change the agent: keys and cards added or removed, lock and unlock. */
  const MUTATING: set<byte> := {17, 18, 19, 20, 21, 22, 23, 25, 26}

  /** The identities an answer lists: it is of type 12 and can be parsed. */
  function Listed(answer: Message): Option<seq<Identity>> {
    if answer.body != [] && answer.body[0] == 12 then Parse(answer.body[1..]) else None
  }

  /** The key blob behind the type byte of a signing request. */
  function KeyOf(req: Message): Option<Bytes> {
    if req.body == [] || ReadString(req.body[1..], 0).None? then None
    else Some(ReadString(req.body[1..], 0).value.0)
  }

  predicate Knows(known: seq<Identity>, blob: Bytes) {
    exists id | id in known :: id.blob == blob
  }

  /**
    A turn that begins with `known`: the proxy asks upstream itself exactly for a
    signing request (13) whose key is readable and was never listed, and judges by
    what that answer lists; a request goes on exactly if it is none of the mutating
    ones, if it is an extension (27) only when those are allowed, and if it is a
    signing request only with a readable key that the policy permits; and the listing
    a client asked for (11) is what is known afterwards.
  */
  ghost predicate Ruled(config: Config, t: Turn, known: seq<Identity>)
    requires t.req.body != []
  {
    var kind, key := t.req.body[0], KeyOf(t.req);
    && (t.asked <==> kind == 13 && key.Some? && !Knows(known, key.value))
    && t.judged == (if !t.asked then known
                    else if t.own.Some? && Listed(t.own.value).Some? then Listed(t.own.value).value else [])
    && (t.forwarded <==>
        && kind !in MUTATING && (kind == 27 ==> config.allowExtensions)
        && (kind == 13 ==> key.Some? && Policy.PermitsBlob(config.policy, key.value, t.judged)))
    && t.known == (if t.answer.Some? && kind == 11 && Listed(t.answer.value).Some? then Listed(t.answer.value).value
                   else t.judged)
    && SentUp(t) == (if t.asked then [Message([11])] else []) + (if t.forwarded then [t.req] else [])
  }

  lemma DecidedIsRuled(config: Config, t: Turn, known: seq<Identity>)
    requires Decided(config, t, known) && t.req.body != []
    ensures Ruled(config, t, known)
  {
    hide ReadString, Parse, Policy.PermitsBlob;
  }

  /** Every turn of every connection is ruled so. */
  lemma EveryTurnIsRuled(config: Config, client: Bytes, upstream: Bytes, i: nat)
    requires i < |Serve(config, client, upstream, []).turns|
    ensures var turns := Serve(config, client, upstream, []).turns;
      && turns[i].req.body != []
      && Ruled(config, turns[i], if i == 0 then [] else turns[i - 1].known)
  {
    hide *;
    UpstreamSeesOnlyAdmitted(config, client, upstream, i);
    var turns := Serve(config, client, upstream, []).turns;
    ReceivedNotEmpty(client, i);
    BeforeIs(turns, i);
    DecidedIsRuled(config, turns[i], Before(turns, i));
  }

  lemma ReceivedNotEmpty(input: Bytes, i: nat)
    requires i < |ReceiveAll(input)|
    ensures ReceiveAll(input)[i].body != []
  {
    hide ReceiveAll;
    ReceivedAreSendable(input);
    assert Sendable(ReceiveAll(input)[i]);
  }

  // ---- What the client is told ----

  /**
    For an answer to its own request the client gets that answer, byte for byte; but
    to a request for identities (11) that is answered with a list (12) it gets a list
    of those the policy permits, or a failure (5) if the list cannot be parsed.
  */
  ghost predicate Told(config: Config, req: Message, answer: Message, reply: Message)
    requires req.body != [] && answer.body != []
  {
    if req.body[0] != 11 || answer.body[0] != 12 then reply == answer
    else if Parse(answer.body[1..]).None? then reply == Message([5])
    else Listed(reply) == Some(Policy.Shown(config.policy, Parse(answer.body[1..]).value))
  }

  lemma AnsweredIsTold(config: Config, req: Message, answer: Message)
    requires req.body != [] && Sendable(answer)
    ensures Told(config, req, answer, Answered(config, req, answer))
  {
    hide Parse, Policy.Shown;
    if IsListing(req, answer) && Parse(Payload(answer)).Some? {
      hide Answered;
      ClientSeesPermittedSublist(config, req, answer);
      AnsweredIsListing(config, req, answer);
    }
  }

  lemma AnsweredIsListing(config: Config, req: Message, answer: Message)
    requires IsListing(req, answer) && Parse(Payload(answer)).Some?
    ensures Kind(Answered(config, req, answer)) == 12 && Answered(config, req, answer).body != []
  {
    hide Parse, Policy.Shown, PutIdentities, Be32;
  }

  /**
    With an upstream that answers each message it is sent with one message: the reply
    to the client's i-th request is a failure if it was refused, and otherwise what
    `Told` says of the answer at its place in the stream to upstream.
  */
  lemma EveryReply(config: Config, client: Bytes, answers: seq<Message>, tail: Bytes, i: nat)
    requires AllSendable(answers)
    requires |ToUpstream(Serve(config, client, Frames(answers) + tail, []).turns)| <= |answers|
    requires i < |ReceiveAll(client)|
    ensures var turns := Serve(config, client, Frames(answers) + tail, []).turns;
      && |turns| == |ToClient(turns)| == |ReceiveAll(client)| && turns[i].req == ReceiveAll(client)[i]
      && turns[i].req.body != []
      && var reply, sent := ToClient(turns)[i], |ToUpstream(turns[..i + 1])|;
         && (!turns[i].forwarded ==> reply == Message([5]))
         && (turns[i].forwarded ==>
               && 0 < sent <= |answers| && answers[sent - 1].body != []
               && Told(config, turns[i].req, answers[sent - 1], reply))
  {
    hide *;
    EachRequestGetsItsOwnAnswer(config, client, answers, tail, i);
    var turns := Serve(config, client, Frames(answers) + tail, []).turns;
    RequestAt(turns, i);
    ReceivedNotEmpty(client, i);
    SentUpAt(turns, i);
    SentInAll(turns, i);
    var sent := |ToUpstream(turns[..i + 1])|;
    OwedIs(config, turns[i], answers, sent);
    if turns[i].forwarded {
      OneIsSendable(answers, sent - 1);
      AnsweredIsTold(config, turns[i].req, answers[sent - 1]);
    }
  }

  lemma OwedIs(config: Config, t: Turn, answers: seq<Message>, sent: nat)
    ensures Owed(config, t, answers, sent) ==
            if t.forwarded && 0 < sent <= |answers| then Answered(config, t.req, answers[sent - 1]) else Message([5])
  {
    hide Answered;
  }

  lemma OneIsSendable(answers: seq<Message>, k: nat)
    requires AllSendable(answers) && k < |answers|
    ensures Sendable(answers[k]) && answers[k].body != []
  {
    assert answers[k] in answers;
  }

  lemma {:induction false} SentInAll(turns: seq<Turn>, i: nat)
    requires i < |turns|
    ensures |ToUpstream(turns[..i + 1])| <= |ToUpstream(turns)|
    decreases i
  {
    hide SentUp;
    UpstreamInSteps(turns, i);
    if i > 0 {
      SentInAll(turns[1..], i - 1);
      assert turns[1..][..i - 1 + 1] == turns[1..][..i];
    }
  }

  // ---- The list a client is shown ----

  lemma {:induction false} ShownAppend(p: Policy.Policy, a: seq<Identity>, b: seq<Identity>)
    ensures Policy.Shown(p, a + b) == Policy.Shown(p, a) + Policy.Shown(p, b)
    decreases |a|
  {
    hide Policy.Permits;
    if a == [] {
      assert a + b == b;
    } else {
      assert (a + b)[1..] == a[1..] + b;
      ShownAppend(p, a[1..], b);
    }
  }

  /** It holds the permitted identities and no others, in upstream's order, each as often as listed. */
  lemma ShownIsPermittedPart(p: Policy.Policy, a: seq<Identity>, id: Identity, b: seq<Identity>)
    ensures Policy.Shown(p, []) == []
    ensures Policy.Shown(p, a + [id] + b) ==
            Policy.Shown(p, a) + (if Policy.Permits(p, id.blob, id.comment) then [id] else []) + Policy.Shown(p, b)
  {
    hide Policy.Permits;
    ShownAppend(p, a + [id], b);
    ShownAppend(p, a, [id]);
    assert [id][1..] == [];
  }

  // ---- How it ends ----

  /**
    Fewer than four bytes are the end of a stream; four that give no length from 1 to
    262144, or too few behind them, break it.
  */
  lemma ReceiveEnds(input: Bytes)
    ensures Receive(input).0.End? <==> |input| < 4
    ensures Receive(input).0.Got? <==>
            |input| >= 4 && 1 <= FromBe32(input[..4]) <= 262144 && |input| >= 4 + FromBe32(input[..4])
  {
    hide FromBe32;
  }

  /** Of a turn whose request got no answer: the connection ends well exactly if upstream's stream has ended. */
  lemma UnansweredTurn(config: Config, req: Message, known: seq<Identity>, upstream: Bytes)
    ensures var t := Handle(config, req, known, upstream);
      && (t.fate.Going? <==> !t.forwarded || t.answer.Some?)
      && (t.fate.Closed? <==> t.forwarded && |Behind(t, upstream)| < 4)
      && (!t.fate.Going? ==> t.reply == None)
  {
    hide Admitted, MustAsk, Proxy.Told, Learned, Answered, Receive;
    ReceiveEnds(Behind(Handle(config, req, known, upstream), upstream));
  }

  /** What the client still has to send when the turns are over. */
  lemma {:induction false} ConnectionEnds(config: Config, client: Bytes, upstream: Bytes, known: seq<Identity>)
      returns (rest: Bytes)
    ensures var run := Serve(config, client, upstream, known);
      && client == Frames(Requests(run.turns)) + rest
      && (AllGoing(run.turns) ==> !Receive(rest).0.Got? && (run.ok <==> |rest| < 4))
      && (!AllGoing(run.turns) ==> (run.ok <==> run.turns[|run.turns| - 1].fate.Closed?))
    decreases |client|
  {
    hide *;
    ServeUnfolds(config, client, upstream, known);
    ReceiveEnds(client);
    var run := Serve(config, client, upstream, known);
    var (got, left) := Receive(client);
    if got.Got? {
      ReceivedWasFramed(client);
      var t := Handle(config, got.m, known, upstream);
      HandleDecides(config, got.m, known, upstream);
      OnwardIs(t, config, left);
      var more := [];
      rest := left;
      if t.fate.Going? {
        rest := ConnectionEnds(config, left, t.left, t.known);
        more := Serve(config, left, t.left, t.known).turns;
      } else {
        NoTurns();
        assert [t] + [] == [t];
      }
      OneMoreTurn(t, more);
      assert client == Frame(got.m) + left;
    } else {
      rest := client;
      NoTurns();
    }
  }

  lemma NoTurns()
    ensures Frames(Requests([])) == [] && AllGoing([])
  {}

  lemma OneMoreTurn(t: Turn, more: seq<Turn>)
    ensures Frames(Requests([t] + more)) == Frame(t.req) + Frames(Requests(more))
    ensures AllGoing([t] + more) <==> t.fate.Going? && AllGoing(more)
    ensures !AllGoing(more) ==> more != [] && ([t] + more)[|more|] == more[|more| - 1]
  {
    hide Frame;
    var turns := [t] + more;
    assert turns[0] == t && turns[1..] == more;
    assert Requests(turns)[0] == t.req && Requests(turns)[1..] == Requests(more);
    if AllGoing(turns) {
      assert t in turns && forall u <- more :: u in turns;
    }
  }
}
