/**
  The filtering SSH agent proxy (ssh-agent-filter/src/lib.rs:17-124): one client
  connection, served turn by turn against one upstream agent. Both peers are
  arbitrary byte streams; writes always succeed.
*/
module Proxy {
  import opened Wrappers
  import opened Proto
  import Policy

  datatype Config = Config(policy: Policy.Policy, allowExtensions: bool)

  const OWN_QUERY := Message([REQUEST_IDENTITIES])

  /** What became of the connection after a turn: still open, ended with `Ok`, or ended with an error. */
  datatype Fate = Going | Closed | Failed

  /**
    One client request: the identities it was judged by, the answers read from
    upstream, what was written, and the state after it.
  */
  datatype Turn = Turn(
    req: Message,
    asked: bool, own: Option<Message>, judged: seq<Identity>,
    forwarded: bool, answer: Option<Message>,
    reply: Option<Message>,
    known: seq<Identity>, left: Bytes, fate: Fate)

  datatype Run = Run(turns: seq<Turn>, ok: bool)

  // ---- The rules ----

  /** Refused whatever the policy says. */
  predicate Refused(config: Config, kind: byte) {
    IsMutating(kind) || (kind == EXTENSION && !config.allowExtensions)
  }

  /** May this request reach upstream, judged by these identities? */
  predicate Admitted(config: Config, req: Message, judged: seq<Identity>) {
    && !Refused(config, Kind(req))
    && (Kind(req) == SIGN_REQUEST ==>
          && SignKey(Payload(req)).Some?
          && Policy.PermitsBlob(config.policy, SignKey(Payload(req)).value, judged))
  }

  /** Does the proxy have to ask upstream first? */
  predicate MustAsk(config: Config, req: Message, known: seq<Identity>) {
    && !Refused(config, Kind(req))
    && Kind(req) == SIGN_REQUEST
    && SignKey(Payload(req)).Some?
    && !Policy.Lists(known, SignKey(Payload(req)).value)
  }

  predicate IsListing(req: Message, answer: Message) {
    Kind(req) == REQUEST_IDENTITIES && Kind(answer) == IDENTITIES_ANSWER
  }

  /** What the client gets for an answer to its own request. */
  function Answered(config: Config, req: Message, answer: Message): Message {
    if !IsListing(req, answer) then answer
    else
      match Parse(Payload(answer))
      case None => FAILURE
      case Some(ids) => Build(Policy.Shown(config.policy, ids))
  }

  /** What is known after that answer: the whole of it, before filtering. */
  function Learned(req: Message, answer: Message, known: seq<Identity>): seq<Identity> {
    if IsListing(req, answer) && Parse(Payload(answer)).Some? then Parse(Payload(answer)).value else known
  }

  /** What an answer to the proxy's own query tells; nothing, if it is not one or does not arrive. */
  function Told(own: Option<Message>): seq<Identity> {
    if own.Some? && Kind(own.value) == IDENTITIES_ANSWER && Parse(Payload(own.value)).Some?
    then Parse(Payload(own.value)).value else []
  }

  function Arrived(r: Received): Option<Message> {
    if r.Got? then Some(r.m) else None
  }

  function Handle(config: Config, req: Message, known: seq<Identity>, upstream: Bytes): Turn {
    var asked := MustAsk(config, req, known);
    var (first, behind) := if asked then Receive(upstream) else (End, upstream);
    var judged := if asked then Told(Arrived(first)) else known;
    if !Admitted(config, req, judged) then
      Turn(req, asked, Arrived(first), judged, false, None, Some(FAILURE), judged, behind, Going)
    else
      match Receive(behind)
      case (Got(answer), rest) =>
        Turn(req, asked, Arrived(first), judged, true, Some(answer), Some(Answered(config, req, answer)),
             Learned(req, answer, judged), rest, Going)
      case (End, rest) => Turn(req, asked, Arrived(first), judged, true, None, None, judged, rest, Closed)
      case (Broken, rest) => Turn(req, asked, Arrived(first), judged, true, None, None, judged, rest, Failed)
  }

  /** A whole connection, from the bytes each peer will ever send. */
  function Serve(config: Config, client: Bytes, upstream: Bytes, known: seq<Identity>): Run
    decreases |client|
  {
    match Receive(client)
    case (End, _) => Run([], true)
    case (Broken, _) => Run([], false)
    case (Got(req), rest) =>
      var t := Handle(config, req, known, upstream);
      if !t.fate.Going? then Run([t], t.fate.Closed?)
      else
        var more := Serve(config, rest, t.left, t.known);
        Run([t] + more.turns, more.ok)
  }

  // ---- What was written ----

  function Requests(turns: seq<Turn>): seq<Message> {
    if turns == [] then [] else [turns[0].req] + Requests(turns[1..])
  }

  function SentUp(t: Turn): seq<Message> {
    (if t.asked then [OWN_QUERY] else []) + (if t.forwarded then [t.req] else [])
  }

  function SentBack(t: Turn): seq<Message> {
    if t.reply.Some? then [t.reply.value] else []
  }

  function ToUpstream(turns: seq<Turn>): seq<Message> {
    if turns == [] then [] else SentUp(turns[0]) + ToUpstream(turns[1..])
  }

  function ToClient(turns: seq<Turn>): seq<Message> {
    if turns == [] then [] else SentBack(turns[0]) + ToClient(turns[1..])
  }

  // ---- The code ----

  class Endpoint {
    /** What the peer will still send. */
    var incoming: Bytes
    /** What has been written to it. */
    var outgoing: Bytes

    /** `Message::read`. */
    method Read() returns (r: Received)
      modifies this`incoming
      ensures (r, incoming) == Receive(old(incoming))
    {
      if |incoming| < 4 {
        incoming := [];
        return End;
      }
      ghost var input := incoming;
      var length := FromBe32(incoming[..4]);
      incoming := incoming[4..];
      if length == 0 || length > MAX_MESSAGE {
        return Broken;
      }
      if |incoming| < length {
        incoming := [];
        return Broken;
      }
      assert incoming[..length] == input[4..4 + length] && incoming[length..] == input[4 + length..];
      r := Got(Message(incoming[..length]));
      incoming := incoming[length..];
    }

    /** `Message::write`. */
    method Write(m: Message)
      modifies this`outgoing
      ensures outgoing == old(outgoing) + Frames([m])
    {
      assert Frames([m]) == Frame(m) + Frames([m][1..]);
      ghost var was := outgoing;
      outgoing := outgoing + Be32(|m.body|);
      outgoing := outgoing + m.body;
      assert outgoing == was + Frame(m);
    }
  }

  /** `fetch_identities`, with its error turned into an empty list as the caller does. */
  method FetchIdentities(upstream: Endpoint) returns (known: seq<Identity>)
    modifies upstream
    ensures upstream.outgoing == old(upstream.outgoing) + Frames([OWN_QUERY])
    ensures upstream.incoming == Receive(old(upstream.incoming)).1
    ensures known == Told(Arrived(Receive(old(upstream.incoming)).0))
  {
    hide Frames, Receive;
    upstream.Write(OWN_QUERY);
    var resp := upstream.Read();
    if !resp.Got? || Kind(resp.m) != IDENTITIES_ANSWER {
      return [];
    }
    var ids := ParseIdentities(Payload(resp.m));
    return if ids.Some? then ids.value else [];
  }

  /** One turn of the loop in `serve`. */
  method HandleRequest(config: Config, req: Message, known: seq<Identity>, client: Endpoint, upstream: Endpoint)
      returns (now: seq<Identity>, fate: Fate)
    requires client != upstream
    modifies client`outgoing, upstream
    ensures var t := Handle(config, req, known, old(upstream.incoming));
      && now == t.known && fate == t.fate
      && upstream.incoming == t.left
      && upstream.outgoing == old(upstream.outgoing) + Frames(SentUp(t))
      && client.outgoing == old(client.outgoing) + Frames(SentBack(t))
  {
    hide Frames, Receive, Parse, SignKey, Policy.PermitsBlob, Policy.Lists, IsMutating, Told;
    EmptyFrames();
    now := known;
    ghost var t := Handle(config, req, known, upstream.incoming);
    FramesAppend(if t.asked then [OWN_QUERY] else [], if t.forwarded then [req] else []);
    var kind := Kind(req);
    if IsMutating(kind) || (kind == EXTENSION && !config.allowExtensions) {
      client.Write(FAILURE);
      return now, Going;
    }
    if kind == SIGN_REQUEST {
      var blob := SignKey(Payload(req));
      if blob.Some? && !Policy.Lists(now, blob.value) {
        now := FetchIdentities(upstream);
      }
      if blob.None? || !Policy.PermitsBlob(config.policy, blob.value, now) {
        client.Write(FAILURE);
        return now, Going;
      }
    }
    upstream.Write(req);
    var resp := upstream.Read();
    if !resp.Got? {
      return now, if resp.End? then Closed else Failed;
    }
    if kind == REQUEST_IDENTITIES && Kind(resp.m) == IDENTITIES_ANSWER {
      var ids := ParseIdentities(Payload(resp.m));
      if ids.None? {
        client.Write(FAILURE);
        return now, Going;
      }
      now := ids.value;
      var kept := BuildIdentities(Policy.Shown(config.policy, ids.value));
      client.Write(kept);
      return now, Going;
    }
    client.Write(resp.m);
    return now, Going;
  }

  lemma EmptyFrames()
    ensures Frames([]) == []
  {}

  /** `serve`: everything written to each side is what the turns say, framed and in order. */
  method ServeConnection(config: Config, client: Endpoint, upstream: Endpoint) returns (ok: bool)
    requires client != upstream
    modifies client, upstream
    ensures var run := Serve(config, old(client.incoming), old(upstream.incoming), []);
      && ok == run.ok
      && client.outgoing == old(client.outgoing) + Frames(ToClient(run.turns))
      && upstream.outgoing == old(upstream.outgoing) + Frames(ToUpstream(run.turns))
  {
    hide *;
    var known: seq<Identity> := [];
    ghost var run := Serve(config, client.incoming, upstream.incoming, known);
    ghost var done: seq<Turn> := [];
    ghost var left := run;
    NothingWritten();
    assert done + left.turns == run.turns;
    while true
      invariant left == Serve(config, client.incoming, upstream.incoming, known)
      invariant done + left.turns == run.turns && left.ok == run.ok
      invariant client.outgoing == old(client.outgoing) + Frames(ToClient(done))
      invariant upstream.outgoing == old(upstream.outgoing) + Frames(ToUpstream(done))
      decreases |client.incoming|
    {
      ServeUnfolds(config, client.incoming, upstream.incoming, known);
      var req := client.Read();
      if !req.Got? {
        assert done + [] == done;
        return req.End?;
      }
      ghost var t := Handle(config, req.m, known, upstream.incoming);
      WrittenAppend(done, t);
      var now, fate := HandleRequest(config, req.m, known, client, upstream);
      known := now;
      done := done + [t];
      OnwardIs(t, config, client.incoming);
      if fate != Going {
        assert done == run.turns;
        return fate == Closed;
      }
      left := Serve(config, client.incoming, upstream.incoming, known);
      assert done + left.turns == run.turns;
    }
  }

  lemma ServeUnfolds(config: Config, client: Bytes, upstream: Bytes, known: seq<Identity>)
    ensures var run := Serve(config, client, upstream, known);
      var (got, rest) := Receive(client);
      && (got.End? ==> run == Run([], true))
      && (got.Broken? ==> run == Run([], false))
      && (got.Got? ==> |rest| < |client| && run == Onward(Handle(config, got.m, known, upstream), config, rest))
  {
    hide Receive, Handle;
  }

  /** A turn and what follows it. */
  ghost function Onward(t: Turn, config: Config, rest: Bytes): Run {
    if !t.fate.Going? then Run([t], t.fate.Closed?)
    else
      var more := Serve(config, rest, t.left, t.known);
      Run([t] + more.turns, more.ok)
  }

  lemma OnwardIs(t: Turn, config: Config, rest: Bytes)
    ensures !t.fate.Going? ==> Onward(t, config, rest) == Run([t], t.fate.Closed?)
    ensures t.fate.Going? ==>
              var more := Serve(config, rest, t.left, t.known);
              Onward(t, config, rest) == Run([t] + more.turns, more.ok)
  {
    hide Serve;
  }

  lemma NothingWritten()
    ensures Frames(ToClient([])) == [] && Frames(ToUpstream([])) == []
  {}

  lemma {:induction false} ToAppend(done: seq<Turn>, t: Turn)
    ensures ToClient(done + [t]) == ToClient(done) + SentBack(t)
    ensures ToUpstream(done + [t]) == ToUpstream(done) + SentUp(t)
    decreases |done|
  {
    hide SentUp, SentBack;
    if done == [] {
      assert [t][1..] == [] && done + [t] == [t];
    } else {
      assert (done + [t])[1..] == done[1..] + [t];
      ToAppend(done[1..], t);
    }
  }

  lemma WrittenAppend(done: seq<Turn>, t: Turn)
    ensures Frames(ToClient(done + [t])) == Frames(ToClient(done)) + Frames(SentBack(t))
    ensures Frames(ToUpstream(done + [t])) == Frames(ToUpstream(done)) + Frames(SentUp(t))
  {
    ToAppend(done, t);
    hide *;
    FramesAppend(ToClient(done), SentBack(t));
    FramesAppend(ToUpstream(done), SentUp(t));
  }
}
