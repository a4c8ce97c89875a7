/**
  The SSH agent wire format (ssh-agent-filter/src/proto.rs): framed messages,
  and inside them the length-prefixed strings of section 5 of RFC 4251.
*/
module Proto {
  import opened Wrappers

  newtype byte = x: int | 0 <= x < 256

  type Bytes = seq<byte>

  const MAX_MESSAGE := 256 * 1024

  const U32_LIMIT := 0x1_0000_0000

  const REQUEST_IDENTITIES: byte := 11
  const SIGN_REQUEST: byte := 13
  const AGENT_FAILURE: byte := 5
  const IDENTITIES_ANSWER: byte := 12
  const EXTENSION: byte := 27

  predicate IsMutating(kind: byte) {
    kind in {17, 25, 18, 19, 20, 21, 26, 22, 23}
  }

  // ---- Big-endian u32 ----

  /** `(n as u32).to_be_bytes()`. */
  function Be32(n: nat): Bytes {
    var m := n % U32_LIMIT;
    [(m / 256 / 256 / 256) as byte, (m / 256 / 256 % 256) as byte, (m / 256 % 256) as byte, (m % 256) as byte]
  }

  function FromBe32(b: Bytes): (n: nat)
    requires |b| == 4
    ensures n < U32_LIMIT
  {
    ((b[0] as nat * 256 + b[1] as nat) * 256 + b[2] as nat) * 256 + b[3] as nat
  }

  lemma Digit(n: nat)
    ensures n / 256 * 256 + n % 256 == n
  {}

  /** The cast wraps a number that does not fit. */
  lemma Be32Wraps(n: nat)
    ensures FromBe32(Be32(n)) == n % U32_LIMIT
  {
    var m := n % U32_LIMIT;
    Digit(m);
    Digit(m / 256);
    Digit(m / 256 / 256);
  }

  lemma Be32RoundTrip(n: nat)
    requires n < U32_LIMIT
    ensures FromBe32(Be32(n)) == n
  {
    hide FromBe32, Be32;
    Be32Wraps(n);
  }

  lemma ShiftByte(n: nat, b: byte)
    ensures (n * 256 + b as nat) / 256 == n && (n * 256 + b as nat) % 256 == b as nat
  {}

  lemma FromBe32RoundTrip(b: Bytes)
    requires |b| == 4
    ensures Be32(FromBe32(b)) == b
  {
    var n := FromBe32(b);
    assert n % U32_LIMIT == n;
    ShiftByte((b[0] as nat * 256 + b[1] as nat) * 256 + b[2] as nat, b[3]);
    ShiftByte(b[0] as nat * 256 + b[1] as nat, b[2]);
    ShiftByte(b[0] as nat, b[1]);
  }

  // ---- Messages ----

  /** A message without its length prefix: `body[0]` is the type. */
  datatype Message = Message(body: Bytes)

  function Kind(m: Message): byte {
    if m.body == [] then 0 else m.body[0]
  }

  function Payload(m: Message): Bytes {
    if m.body == [] then [] else m.body[1..]
  }

  const FAILURE := Message([AGENT_FAILURE])

  function Frame(m: Message): Bytes {
    Be32(|m.body|) + m.body
  }

  function Frames(ms: seq<Message>): Bytes {
    if ms == [] then [] else Frame(ms[0]) + Frames(ms[1..])
  }

  datatype Received = Got(m: Message) | End | Broken

  /** What reading one message from the bytes still to come gives, and what then is left. */
  function Receive(input: Bytes): (r: (Received, Bytes))
    ensures r.0.Got? ==> |r.1| < |input|
  {
    if |input| < 4 then (End, [])
    else
      var n := FromBe32(input[..4]);
      if n == 0 || n > MAX_MESSAGE then (Broken, input[4..])
      else if |input| < 4 + n then (Broken, [])
      else (Got(Message(input[4..4 + n])), input[4 + n..])
  }

  predicate Sendable(m: Message) {
    1 <= |m.body| <= MAX_MESSAGE
  }

  predicate AllSendable(ms: seq<Message>) {
    forall m <- ms :: Sendable(m)
  }

  lemma ReceiveFrame(m: Message, rest: Bytes)
    requires Sendable(m)
    ensures Receive(Frame(m) + rest) == (Got(m), rest)
  {
    var n := |m.body|;
    var input := Frame(m) + rest;
    Be32RoundTrip(n);
    assert |Be32(n)| == 4;
    hide Be32, FromBe32;
    assert input == Be32(n) + m.body + rest;
    assert input[..4] == Be32(n);
    assert input[4..4 + n] == m.body && input[4 + n..] == rest;
  }

  /** Only sendable messages are received, and each from exactly its frame. */
  lemma ReceivedWasFramed(input: Bytes)
    requires Receive(input).0.Got?
    ensures Sendable(Receive(input).0.m) && input == Frame(Receive(input).0.m) + Receive(input).1
  {
    var n := FromBe32(input[..4]);
    FromBe32RoundTrip(input[..4]);
    assert input == input[..4] + input[4..4 + n] + input[4 + n..];
  }

  /** Every message up to the first that does not arrive whole. */
  function ReceiveAll(input: Bytes): seq<Message>
    decreases |input|
  {
    match Receive(input)
    case (Got(m), rest) => [m] + ReceiveAll(rest)
    case _ => []
  }

  /** Reading a concatenation of written frames gives exactly those messages. */
  lemma {:induction false} ReceiveAllFrames(ms: seq<Message>)
    requires AllSendable(ms)
    ensures ReceiveAll(Frames(ms)) == ms
    decreases |ms|
  {
    if ms != [] {
      ReceiveFrame(ms[0], Frames(ms[1..]));
      ReceiveAllFrames(ms[1..]);
    }
  }

  lemma {:induction false} FramesAppend(a: seq<Message>, b: seq<Message>)
    ensures Frames(a + b) == Frames(a) + Frames(b)
    decreases |a|
  {
    if a == [] {
      assert a + b == b;
    } else {
      assert (a + b)[1..] == a[1..] + b;
      FramesAppend(a[1..], b);
    }
  }

  // ---- Strings and identities ----

  /** What reading at `pos` gives and where it leaves the cursor. */
  function ReadU32(buf: Bytes, pos: nat): Option<(nat, nat)> {
    if pos + 4 <= |buf| then Some((FromBe32(buf[pos..pos + 4]), pos + 4)) else None
  }

  function ReadString(buf: Bytes, pos: nat): (r: Option<(Bytes, nat)>)
    ensures r.Some? ==> pos + 4 <= r.value.1 <= |buf|
  {
    match ReadU32(buf, pos)
    case None => None
    case Some((n, at)) => if at + n <= |buf| then Some((buf[at..at + n], at + n)) else None
  }

  function PutString(s: Bytes): Bytes {
    Be32(|s|) + s
  }

  lemma ReadPutString(before: Bytes, s: Bytes, rest: Bytes)
    requires |s| < U32_LIMIT
    ensures ReadString(before + PutString(s) + rest, |before|) == Some((s, |before| + |PutString(s)|))
  {
    var buf, pos := before + PutString(s) + rest, |before|;
    Be32RoundTrip(|s|);
    assert |Be32(|s|)| == 4;
    hide Be32, FromBe32;
    assert buf == before + Be32(|s|) + s + rest;
    assert buf[pos..pos + 4] == Be32(|s|);
    assert buf[pos + 4..pos + 4 + |s|] == s;
  }

  lemma ReadStringWasPut(buf: Bytes, pos: nat)
    requires ReadString(buf, pos).Some?
    ensures var (s, end) := ReadString(buf, pos).value; buf[pos..end] == PutString(s)
  {
    FromBe32RoundTrip(buf[pos..pos + 4]);
    var (s, end) := ReadString(buf, pos).value;
    assert |s| == FromBe32(buf[pos..pos + 4]);
    assert buf[pos..end] == buf[pos..pos + 4] + buf[pos + 4..end];
  }

  datatype Identity = Identity(blob: Bytes, comment: Bytes)

  function PutIdentity(id: Identity): Bytes {
    PutString(id.blob) + PutString(id.comment)
  }

  function PutIdentities(ids: seq<Identity>): Bytes {
    if ids == [] then [] else PutIdentity(ids[0]) + PutIdentities(ids[1..])
  }

  /** `n` entries from `pos` on. */
  function ReadIdentities(buf: Bytes, pos: nat, n: nat): (r: Option<seq<Identity>>)
    ensures r.Some? ==> |r.value| == n
    decreases n
  {
    if n == 0 then Some([])
    else
      match ReadString(buf, pos)
      case None => None
      case Some((blob, mid)) =>
        match ReadString(buf, mid)
        case None => None
        case Some((comment, end)) =>
          match ReadIdentities(buf, end, n - 1)
          case None => None
          case Some(rest) => Some([Identity(blob, comment)] + rest)
  }

  /** The specification of `parse_identities`. */
  function Parse(payload: Bytes): Option<seq<Identity>> {
    match ReadU32(payload, 0)
    case None => None
    case Some((n, at)) => if n > |payload| / 8 + 1 then None else ReadIdentities(payload, at, n)
  }

  /** The specification of `build_identities`. */
  function Build(ids: seq<Identity>): Message {
    Message([IDENTITIES_ANSWER] + Be32(|ids|) + PutIdentities(ids))
  }

  /** The key a SIGN_REQUEST names. */
  function SignKey(payload: Bytes): Option<Bytes> {
    match ReadString(payload, 0)
    case None => None
    case Some((blob, _)) => Some(blob)
  }

  predicate Fits(ids: seq<Identity>) {
    |ids| < U32_LIMIT && forall id <- ids :: |id.blob| < U32_LIMIT && |id.comment| < U32_LIMIT
  }

  lemma FitsOn(ids: seq<Identity>)
    requires Fits(ids) && ids != []
    ensures Fits(ids[1..]) && |ids[0].blob| < U32_LIMIT && |ids[0].comment| < U32_LIMIT
  {
    assert ids[0] in ids;
  }

  lemma {:induction false} ReadPutIdentities(before: Bytes, ids: seq<Identity>)
    requires Fits(ids)
    ensures ReadIdentities(before + PutIdentities(ids), |before|, |ids|) == Some(ids)
    decreases |ids|
  {
    hide PutIdentity, PutString, ReadString, Be32, FromBe32, Fits;
    if ids != [] {
      var id := ids[0];
      FitsOn(ids);
      var buf := before + PutIdentities(ids);
      var end := before + PutIdentity(id);
      assert buf == before + PutIdentity(id) + PutIdentities(ids[1..]);
      ReadPutIdentity(before, id, PutIdentities(ids[1..]));
      ReadPutIdentities(end, ids[1..]);
      assert [Identity(id.blob, id.comment)] + ids[1..] == ids;
    }
  }

  lemma ReadPutIdentity(before: Bytes, id: Identity, rest: Bytes)
    requires |id.blob| < U32_LIMIT && |id.comment| < U32_LIMIT
    ensures var buf, mid, end := before + PutIdentity(id) + rest, before + PutString(id.blob), before + PutIdentity(id);
      ReadString(buf, |before|) == Some((id.blob, |mid|)) && ReadString(buf, |mid|) == Some((id.comment, |end|))
  {
    hide PutString, ReadString;
    var buf, mid, end := before + PutIdentity(id) + rest, before + PutString(id.blob), before + PutIdentity(id);
    assert buf == before + PutString(id.blob) + (PutString(id.comment) + rest);
    ReadPutString(before, id.blob, PutString(id.comment) + rest);
    assert end == mid + PutString(id.comment) && buf == mid + PutString(id.comment) + rest;
    ReadPutString(mid, id.comment, rest);
  }

  lemma {:induction false} EightBytesEach(ids: seq<Identity>)
    ensures |PutIdentities(ids)| >= 8 * |ids|
    decreases |ids|
  {
    if ids != [] {
      EightBytesEach(ids[1..]);
    }
  }

  /** Parsing undoes building: the bound on the count never refuses a genuine answer. */
  lemma ParseBuild(ids: seq<Identity>)
    requires Fits(ids)
    ensures Parse(Payload(Build(ids))) == Some(ids)
  {
    var payload := Payload(Build(ids));
    assert payload == Be32(|ids|) + PutIdentities(ids);
    assert payload[0..4] == Be32(|ids|);
    Be32RoundTrip(|ids|);
    EightBytesEach(ids);
    hide FromBe32;
    ReadPutIdentities(Be32(|ids|), ids);
  }

  lemma {:induction false} ReadIdentitiesWerePut(buf: Bytes, pos: nat, n: nat)
    requires pos <= |buf| && ReadIdentities(buf, pos, n).Some?
    ensures var ids := ReadIdentities(buf, pos, n).value;
      pos + |PutIdentities(ids)| <= |buf| && buf[pos..pos + |PutIdentities(ids)|] == PutIdentities(ids)
    decreases n
  {
    hide Be32, FromBe32, PutString, ReadString;
    if n > 0 {
      var (blob, mid) := ReadString(buf, pos).value;
      var (comment, end) := ReadString(buf, mid).value;
      ReadStringWasPut(buf, pos);
      ReadStringWasPut(buf, mid);
      ReadIdentitiesWerePut(buf, end, n - 1);
      var rest := PutIdentities(ReadIdentities(buf, end, n - 1).value);
      assert buf[pos..end + |rest|] == buf[pos..mid] + buf[mid..end] + buf[end..end + |rest|];
    }
  }

  lemma TwoPartsArePrefix(payload: Bytes, head: Bytes, entries: Bytes)
    requires 4 + |entries| <= |payload|
    requires payload[0..4] == head && payload[4..4 + |entries|] == entries
    ensures head + entries <= payload
  {}

  /** Building undoes parsing up to trailing bytes: an accepted payload begins with the rebuilt one. */
  lemma BuildParse(payload: Bytes)
    requires Parse(payload).Some?
    ensures Payload(Build(Parse(payload).value)) <= payload
  {
    var ids := Parse(payload).value;
    var head, entries := Be32(|ids|), PutIdentities(ids);
    assert payload[0..4] == head by {
      hide ReadIdentities, PutIdentities, Be32;
      FromBe32RoundTrip(payload[0..4]);
    }
    assert Payload(Build(ids)) == head + entries;
    assert ReadIdentities(payload, 4, |ids|) == Some(ids);
    hide *;
    ReadIdentitiesWerePut(payload, 4, |ids|);
    TwoPartsArePrefix(payload, head, entries);
  }

  /** The identities `keep` admits, in their order. */
  function Filter(ids: seq<Identity>, keep: Identity -> bool): (kept: seq<Identity>)
    ensures |kept| <= |ids|
  {
    if ids == [] then [] else (if keep(ids[0]) then [ids[0]] else []) + Filter(ids[1..], keep)
  }

  lemma {:induction false} FilterIsShorter(ids: seq<Identity>, keep: Identity -> bool)
    ensures |PutIdentities(Filter(ids, keep))| <= |PutIdentities(ids)|
    decreases |ids|
  {
    if ids != [] {
      FilterIsShorter(ids[1..], keep);
      var rest := Filter(ids[1..], keep);
      if keep(ids[0]) {
        assert Filter(ids, keep) == [ids[0]] + rest && ([ids[0]] + rest)[1..] == rest;
      } else {
        assert Filter(ids, keep) == rest;
      }
    }
  }

  /** A filtered answer is never longer than the one it replaces, so it can be sent. */
  lemma FilteredAnswerFits(answer: Message, keep: Identity -> bool)
    requires Sendable(answer) && Parse(Payload(answer)).Some?
    ensures var filtered := Build(Filter(Parse(Payload(answer)).value, keep));
      Sendable(filtered) && |filtered.body| <= |answer.body|
  {
    BuildParse(Payload(answer));
    FilterIsShorter(Parse(Payload(answer)).value, keep);
  }

  // ---- The bytes on the wire ----

  /** Numbers are sent most significant byte first. */
  lemma MostSignificantFirst(a: byte, b: byte, c: byte, d: byte)
    ensures FromBe32([a, b, c, d]) == a as nat * 0x100_0000 + b as nat * 0x1_0000 + c as nat * 0x100 + d as nat
    ensures Be32(a as nat * 0x100_0000 + b as nat * 0x1_0000 + c as nat * 0x100 + d as nat) == [a, b, c, d]
  {
    FromBe32RoundTrip([a, b, c, d]);
    hide Be32;
  }

  lemma {:induction false} PutAppend(a: seq<Identity>, b: seq<Identity>)
    ensures PutIdentities(a + b) == PutIdentities(a) + PutIdentities(b)
    decreases |a|
  {
    hide PutIdentity;
    if a == [] {
      assert a + b == b;
    } else {
      assert (a + b)[0] == a[0] && (a + b)[1..] == a[1..] + b;
      PutAppend(a[1..], b);
    }
  }

  /** A list is its type 12, the number of keys, and of each the blob and then the comment behind their lengths. */
  lemma ListOnTheWire(a: seq<Identity>, blob: Bytes, comment: Bytes, b: seq<Identity>)
    ensures Build(a).body == [12] + Be32(|a|) + PutIdentities(a) && PutIdentities([]) == []
    ensures PutIdentities(a + [Identity(blob, comment)] + b) ==
            PutIdentities(a) + (Be32(|blob|) + blob + Be32(|comment|) + comment) + PutIdentities(b)
  {
    var one := [Identity(blob, comment)];
    PutOne(blob, comment);
    hide Be32, PutIdentities;
    PutAppend(a + one, b);
    PutAppend(a, one);
  }

  lemma PutOne(blob: Bytes, comment: Bytes)
    ensures PutIdentities([Identity(blob, comment)]) == Be32(|blob|) + blob + Be32(|comment|) + comment
    ensures PutIdentities([]) == []
  {
    hide Be32;
    var one := [Identity(blob, comment)];
    assert one[1..] == [];
    assert PutIdentities(one) == PutIdentity(one[0]) + [];
    assert PutIdentity(one[0]) == Be32(|blob|) + blob + (Be32(|comment|) + comment);
  }

  lemma SmallNumber(n: byte)
    ensures Be32(n as nat) == [0, 0, 0, n]
  {}

  /** A request for identities, and the answer with one key `07 08` under the comment `09`, byte by byte. */
  lemma OneKeyOnTheWire()
    ensures Frame(Message([11])) == [0, 0, 0, 1, 11]
    ensures Build([Identity([7, 8], [9])]).body == [12, 0, 0, 0, 1, 0, 0, 0, 2, 7, 8, 0, 0, 0, 1, 9]
  {
    var ids := [Identity([7, 8], [9])];
    SmallNumber(1);
    SmallNumber(2);
    hide Be32;
    assert ids[1..] == [] && PutIdentities([]) == [];
  }

  // ---- The code ----

  /** `Reader`: a cursor over a message payload. */
  class Reader {
    const buf: Bytes
    var pos: nat

    constructor (buf: Bytes)
      ensures this.buf == buf && pos == 0
    {
      this.buf := buf;
      pos := 0;
    }

    method U32() returns (r: Option<nat>)
      modifies this
      ensures match ReadU32(buf, old(pos))
              case None => r == None && pos == old(pos)
              case Some((n, at)) => r == Some(n) && pos == at
    {
      var end := pos + 4;
      if end > |buf| {
        return None;
      }
      r := Some(FromBe32(buf[pos..end]));
      pos := end;
    }

    method String() returns (r: Option<Bytes>)
      modifies this
      ensures match ReadString(buf, old(pos))
              case None => r == None
              case Some((s, end)) => r == Some(s) && pos == end
    {
      var n := U32();
      if n.None? {
        return None;
      }
      var end := pos + n.value;
      if end > |buf| {
        return None;
      }
      r := Some(buf[pos..end]);
      pos := end;
    }
  }

  ghost function Onto(out: seq<Identity>, rest: Option<seq<Identity>>): Option<seq<Identity>> {
    if rest.Some? then Some(out + rest.value) else None
  }

  lemma ReadOne(buf: Bytes, pos: nat, n: nat, out: seq<Identity>)
    requires n > 0
    ensures Onto(out, ReadIdentities(buf, pos, n)) ==
            match ReadString(buf, pos)
            case None => None
            case Some((blob, mid)) =>
              match ReadString(buf, mid)
              case None => None
              case Some((comment, end)) => Onto(out + [Identity(blob, comment)], ReadIdentities(buf, end, n - 1))
  {
    hide ReadString;
    if ReadIdentities(buf, pos, n).Some? {
      var all := ReadIdentities(buf, pos, n).value;
      assert out + all == out + [all[0]] + all[1..];
    }
  }

  method ParseIdentities(payload: Bytes) returns (r: Option<seq<Identity>>)
    ensures r == Parse(payload)
  {
    hide FromBe32, ReadString;
    var reader := new Reader(payload);
    var n := reader.U32();
    if n.None? || n.value > |payload| / 8 + 1 {
      return None;
    }
    var out: seq<Identity> := [];
    ghost var want := ReadIdentities(payload, 4, n.value);
    assert want.Some? ==> out + want.value == want.value;
    assert ReadIdentities(payload, 4, 0) == Some([]);
    assert forall pos: nat :: ReadIdentities(payload, pos, 0) == Some([]);
    hide ReadIdentities;
    var k := 0;
    while k < n.value
      invariant 0 <= k <= n.value && reader.buf == payload
      invariant want == Onto(out, ReadIdentities(payload, reader.pos, n.value - k))
    {
      ReadOne(payload, reader.pos, n.value - k, out);
      var blob := reader.String();
      if blob.None? {
        return None;
      }
      var comment := reader.String();
      if comment.None? {
        return None;
      }
      out := out + [Identity(blob.value, comment.value)];
      k := k + 1;
    }
    assert out + [] == out;
    return Some(out);
  }

  method BuildIdentities(ids: seq<Identity>) returns (m: Message)
    ensures m == Build(ids)
  {
    var body := [IDENTITIES_ANSWER] + Be32(|ids|);
    var k := 0;
    while k < |ids|
      invariant 0 <= k <= |ids|
      invariant body + PutIdentities(ids[k..]) == Build(ids).body
    {
      assert ids[k..][1..] == ids[k + 1..];
      ghost var before := body;
      body := body + PutString(ids[k].blob);
      body := body + PutString(ids[k].comment);
      assert before + (PutIdentity(ids[k]) + PutIdentities(ids[k + 1..])) == body + PutIdentities(ids[k + 1..]);
      k := k + 1;
    }
    return Message(body);
  }
}
