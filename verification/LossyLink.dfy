/**
 TransferData over a FIFO link that loses and delays messages (transport/doip/library_client.py, `transfer_data`),
 with the gateway's copy of the service (transport/doip/server.py) behind it.
 */
module LossyLink {
  import opened Base
  import opened UdsCodec
  import opened UdsProgrammer
  import opened GatewayTransfer
  import opened FlashSession
  import opened LossyTransfer

  const NOT_IN_SESSION: Bytes := Negative(SID_TRANSFER_DATA, NRC_NOT_IN_SESSION)
  const WRONG_SEQUENCE: Bytes := Negative(SID_TRANSFER_DATA, NRC_WRONG_SEQUENCE)

  // ----- one block at the gateway

  predicate Live(s: GatewayState, now: real) {
    ExpireGateway(s, now).session == SESSION_PROGRAMMING
  }

  /** The buffer holds these chunks, and while the session lives the counters say so too. */
  ghost predicate Holds(s: GatewayState, chunks: seq<Bytes>, accepted: seq<nat>) {
    && Increasing(accepted) && AllBelow(accepted, |chunks|) && s.receiver.buffer == Flatten(Select(chunks, accepted))
    && s.receiver.expectedSize == None
    && (s.session == SESSION_PROGRAMMING ==> s.unlocked && Assembled(GatewayTransferOf(s), chunks, accepted))
  }

  function BlockRequest(chunks: seq<Bytes>, i: nat): Bytes
    requires i < |chunks|
  {
    BuildTransferData(1 + i, chunks[i])
  }

  function Acknowledgement(i: nat): Bytes {
    [PositiveSid(SID_TRANSFER_DATA), (1 + i) % 256]
  }

  /** How the gateway answers chunk `i`, and what it holds afterwards. */
  ghost predicate Replied(reply: Bytes, accepted: seq<nat>, next: seq<nat>, i: nat, live: bool) {
    if !live then reply == NOT_IN_SESSION && next == accepted
    else if i % 256 == |accepted| % 256 then reply == Acknowledgement(i) && next == accepted + [i]
    else reply == WRONG_SEQUENCE && next == accepted
  }

  /** The chunks that the gateway holds after its reply to chunk `i`. */
  function AcceptedAfter(accepted: seq<nat>, reply: Bytes, i: nat): seq<nat> {
    if Verdict(reply, SID_TRANSFER_DATA).Ok? then accepted + [i] else accepted
  }

  lemma GatewayBlock(s: GatewayState, chunks: seq<Bytes>, accepted: seq<nat>, i: nat, now: real)
    requires Holds(s, chunks, accepted) && NonEmpty(chunks) && i < |chunks| && NotNewer(accepted, i)
    ensures var o := GatewayTransferData(s, BlockRequest(chunks, i), now);
      var next := AcceptedAfter(accepted, o.responses[0], i);
      && Replied(o.responses[0], accepted, next, i, Live(s, now)) && Holds(o.state, chunks, next)
      && Live(o.state, now) == Live(s, now)
  {
    if Live(s, now) {
      assert BlockRequest(chunks, i)[2..] == chunks[i];
      BlockKeepsAssembled(GatewayTransferOf(s), chunks, accepted, i);
    }
  }

  // ----- the link, as a value

  /** What the network does next: lose or hand over the oldest request, lose the oldest response, or let time pass. */
  datatype Fate = LoseRequest | HandOver | LoseResponse | Pause(seconds: real)

  /**
   `fate`, `span` and `arrives` decide what the network does, and how much of it, before each time the tester stops
   waiting for a response. If not `late`, what has not arrived by then is lost.
   */
  datatype Network = Network(late: bool, fate: nat -> Fate, span: nat -> nat, arrives: nat -> bool)

  /**
   Two FIFO queues between a tester and the gateway, and the moves of the network so far. `waiting` numbers the
   chunks of the requests in `toEcu`, `accepted` those in the gateway's buffer, and `issued` counts the chunks that
   have been sent at least once.
   */
  datatype LinkState = LinkState(gateway: GatewayState, now: real, moves: nat, toEcu: seq<Bytes>, toClient: seq<Bytes>,
                                 waiting: seq<nat>, accepted: seq<nat>, issued: nat)

  function Tail<T>(s: seq<T>): seq<T> {
    if s == [] then s else s[1..]
  }

  function Sent(l: LinkState, request: Bytes, i: nat): LinkState {
    l.(toEcu := l.toEcu + [request], waiting := l.waiting + [i], issued := i + 1)
  }

  /** The oldest request reaches the gateway. */
  function Served(l: LinkState): LinkState
    requires l.toEcu != [] && l.waiting != []
  {
    var o := GatewayTransferData(l.gateway, l.toEcu[0], l.now);
    l.(gateway := o.state, toEcu := l.toEcu[1..], waiting := l.waiting[1..], toClient := l.toClient + o.responses,
       accepted := AcceptedAfter(l.accepted, o.responses[0], l.waiting[0]))
  }

  function Fated(fate: Fate, l: LinkState): LinkState {
    match fate
    case LoseRequest => l.(toEcu := Tail(l.toEcu), waiting := Tail(l.waiting))
    case HandOver => if l.toEcu == [] || l.waiting == [] then l else Served(l)
    case LoseResponse => l.(toClient := Tail(l.toClient))
    case Pause(seconds) => l.(now := l.now + seconds)
  }

  function Moved(net: Network, l: LinkState): LinkState {
    Fated(net.fate(l.moves), l).(moves := l.moves + 1)
  }

  function Advanced(net: Network, l: LinkState, n: nat): LinkState {
    if n == 0 then l else Moved(net, Advanced(net, l, n - 1))
  }

  function Settled(net: Network, l: LinkState): LinkState {
    if net.late then l else l.(toEcu := [], toClient := [], waiting := [])
  }

  /** The tester waits for a response; None is a timeout. */
  function Received(net: Network, l: LinkState): (LinkState, Option<Bytes>) {
    var a := Advanced(net, l, net.span(l.moves));
    if a.toClient != [] && net.arrives(a.moves)
    then (Settled(net, a.(toClient := a.toClient[1..])), Some(a.toClient[0]))
    else (Settled(net, a), None)
  }

  // ----- the client's judgement

  const TRANSFER_RETRY_LIMIT := 2

  /** A wrong-sequence refusal of a retry is taken to mean that the block had already arrived. */
  function JudgeReply(response: Bytes, attempt: nat, sequence: nat): Result<bool, FlashError> {
    if IsNegativeResponse(response) && response[2] == NRC_WRONG_SEQUENCE && attempt > 1 then Ok(true)
    else
      match Verdict(response, SID_TRANSFER_DATA)
      case Err(e) => Err(e)
      case Ok(r) => if |r| < 2 || r[1] != sequence % 256 then Err(Unexpected(r)) else Ok(true)
  }

  /** Success is an acknowledgement with the right counter, or, on a retry only, "wrong sequence". */
  lemma SuccessMeans(response: Bytes, attempt: nat, sequence: nat)
    ensures JudgeReply(response, attempt, sequence).Ok? <==>
      || (|response| >= 2 && response[0] == 0x76 && response[1] == sequence % 256)
      || (attempt > 1 && |response| >= 3 && response[0] == 0x7F && response[2] == 0x73)
    ensures attempt == 1 && |response| >= 3 && response[0] == 0x7F ==>
      JudgeReply(response, attempt, sequence) == Err(Rejected(response[2]))
  {
  }

  /** The response would be taken for the success of chunk `i`, at the latest on a retry. */
  predicate Convinces(response: Bytes, i: nat) {
    JudgeReply(response, TRANSFER_RETRY_LIMIT, 1 + i).Ok?
  }

  /** What `transfer_data` comes to from attempt number `attempt` on. */
  function Transferred(net: Network, l: LinkState, request: Bytes, sequence: nat, i: nat, attempt: nat)
    : (LinkState, Result<bool, FlashError>)
    decreases TRANSFER_RETRY_LIMIT + 1 - attempt
  {
    if attempt > TRANSFER_RETRY_LIMIT then (l, Err(TimedOut))
    else
      var (after, response) := Received(net, Sent(l, request, i));
      match response
      case Some(b) => (after, JudgeReply(b, attempt, sequence))
      case None => Transferred(net, after, request, sequence, i, attempt + 1)
  }

  /** A chunk is sent twice before the client gives up: on a network where nothing moves both requests are waiting. */
  lemma TwoAttempts(net: Network, l: LinkState, request: Bytes, sequence: nat, i: nat)
    requires net.late && forall n :: net.span(n) == 0 && !net.arrives(n)
    ensures var (after, r) := Transferred(net, l, request, sequence, i, 1);
      r == Err(TimedOut) && after.toEcu == l.toEcu + [request, request] && after.waiting == l.waiting + [i, i]
  {
    var once := Sent(l, request, i);
    assert Received(net, once) == (once, None);
    var twice := Sent(once, request, i);
    assert Received(net, twice) == (twice, None);
    assert Transferred(net, twice, request, sequence, i, 3) == (twice, Err(TimedOut));
  }

  // ----- what the link keeps

  /** The waiting requests are for chunks sent so far, in order, none older than the last accepted. */
  ghost predicate Queued(chunks: seq<Bytes>, accepted: seq<nat>, waiting: seq<nat>, toEcu: seq<Bytes>, issued: nat)
    requires issued <= |chunks|
  {
    && AllBelow(accepted, issued) && AllBelow(waiting, issued)
    && |waiting| == |toEcu| && (forall k | 0 <= k < |waiting| :: toEcu[k] == BlockRequest(chunks, waiting[k]))
    && (forall j, k | 0 <= j < k < |waiting| :: waiting[j] <= waiting[k])
    && (forall k | 0 <= k < |waiting| :: NotNewer(accepted, waiting[k]))
  }

  ghost predicate Valid(chunks: seq<Bytes>, l: LinkState) {
    && NonEmpty(chunks) && Holds(l.gateway, chunks, l.accepted) && l.issued <= |chunks|
    && Queued(chunks, l.accepted, l.waiting, l.toEcu, l.issued)
  }

  predicate Idle(l: LinkState) {
    l.toEcu == [] && l.toClient == [] && l.waiting == []
  }

  predicate AllAre(waiting: seq<nat>, i: nat) {
    forall k | 0 <= k < |waiting| :: waiting[k] == i
  }

  /** All chunks before `i` are in, and every response that would convince the client says that `i` is in too. */
  ghost predicate Vouched(accepted: seq<nat>, responses: seq<Bytes>, i: nat) {
    && (IsPrefix(accepted, i) || IsPrefix(accepted, i + 1))
    && (forall k | 0 <= k < |responses| :: Convinces(responses[k], i) ==> IsPrefix(accepted, i + 1))
  }

  ghost predicate InStep(l: LinkState, i: nat) {
    AllAre(l.waiting, i) && Vouched(l.accepted, l.toClient, i)
  }

  /** `b` is a link state that a step of chunk `i` may lead to from `a`. */
  ghost predicate Keeps(chunks: seq<Bytes>, a: LinkState, b: LinkState, i: nat) {
    Valid(chunks, b) && b.issued == a.issued && (InStep(a, i) ==> InStep(b, i))
  }

  lemma SentStays(chunks: seq<Bytes>, l: LinkState, i: nat)
    requires Valid(chunks, l) && i < |chunks| && l.issued <= i + 1
    ensures var s := Sent(l, BlockRequest(chunks, i), i);
      Valid(chunks, s) && s.issued == i + 1 && (InStep(l, i) ==> InStep(s, i))
  {
  }

  lemma ServedIsQueued(chunks: seq<Bytes>, accepted: seq<nat>, next: seq<nat>, waiting: seq<nat>, toEcu: seq<Bytes>,
                       issued: nat, reply: Bytes, live: bool)
    requires issued <= |chunks| && Queued(chunks, accepted, waiting, toEcu, issued) && waiting != []
    requires Replied(reply, accepted, next, waiting[0], live)
    ensures Queued(chunks, next, waiting[1..], toEcu[1..], issued)
  {
    assert forall k | 0 <= k < |waiting| :: waiting[0] <= waiting[k];
  }

  lemma ServedIsVouched(accepted: seq<nat>, next: seq<nat>, responses: seq<Bytes>, reply: Bytes, i: nat, live: bool)
    requires Vouched(accepted, responses, i) && Replied(reply, accepted, next, i, live)
    ensures Vouched(next, responses + [reply], i)
  {
    assert i % 256 != (i + 1) % 256;
    if IsPrefix(accepted, i + 1) {
      assert next == accepted;
    }
  }

  lemma ServedStays(chunks: seq<Bytes>, l: LinkState, i: nat)
    requires Valid(chunks, l) && l.toEcu != []
    ensures Keeps(chunks, l, Served(l), i)
  {
    var first, o := l.waiting[0], GatewayTransferData(l.gateway, l.toEcu[0], l.now);
    var reply, live := o.responses[0], Live(l.gateway, l.now);
    var next := AcceptedAfter(l.accepted, reply, first);
    GatewayBlock(l.gateway, chunks, l.accepted, first, l.now);
    ServedIsQueued(chunks, l.accepted, next, l.waiting, l.toEcu, l.issued, reply, live);
    assert o.responses == [reply];
    if InStep(l, i) {
      ServedIsVouched(l.accepted, next, l.toClient, reply, i, live);
    }
  }

  lemma ShorterStays(chunks: seq<Bytes>, l: LinkState, i: nat)
    requires Valid(chunks, l)
    ensures Keeps(chunks, l, l.(toEcu := Tail(l.toEcu), waiting := Tail(l.waiting)), i)
    ensures Keeps(chunks, l, l.(toClient := Tail(l.toClient)), i)
  {
  }

  lemma FatedStays(fate: Fate, chunks: seq<Bytes>, l: LinkState, i: nat)
    requires Valid(chunks, l)
    ensures Keeps(chunks, l, Fated(fate, l), i)
  {
    match fate
    case HandOver =>
      if l.toEcu != [] {
        ServedStays(chunks, l, i);
      }
    case LoseRequest => ShorterStays(chunks, l, i);
    case LoseResponse => ShorterStays(chunks, l, i);
    case Pause(_) =>
  }

  /** Whatever the network does next. */
  lemma MovedStays(net: Network, chunks: seq<Bytes>, l: LinkState, i: nat)
    requires Valid(chunks, l)
    ensures Keeps(chunks, l, Moved(net, l), i)
  {
    FatedStays(net.fate(l.moves), chunks, l, i);
  }

  lemma {:induction false} AdvancedStays(net: Network, chunks: seq<Bytes>, l: LinkState, i: nat, n: nat)
    requires Valid(chunks, l)
    ensures Keeps(chunks, l, Advanced(net, l, n), i)
  {
    if n > 0 {
      AdvancedStays(net, chunks, l, i, n - 1);
      MovedStays(net, chunks, Advanced(net, l, n - 1), i);
    }
  }

  lemma SettledStays(net: Network, chunks: seq<Bytes>, l: LinkState, i: nat)
    requires Valid(chunks, l)
    ensures Keeps(chunks, l, Settled(net, l), i) && (!net.late ==> Idle(Settled(net, l)))
  {
  }

  /** However the network behaves while the tester waits: a response that convinces proves that the chunk is in. */
  lemma ReceivedStays(net: Network, chunks: seq<Bytes>, l: LinkState, i: nat)
    requires Valid(chunks, l)
    ensures var (after, response) := Received(net, l);
      && Keeps(chunks, l, after, i) && (!net.late ==> Idle(after))
      && (InStep(l, i) && response.Some? && Convinces(response.value, i) ==> IsPrefix(after.accepted, i + 1))
  {
    var a := Advanced(net, l, net.span(l.moves));
    AdvancedStays(net, chunks, l, i, net.span(l.moves));
    if a.toClient != [] && net.arrives(a.moves) {
      SettledStays(net, chunks, a.(toClient := a.toClient[1..]), i);
    } else {
      SettledStays(net, chunks, a, i);
    }
  }

  /** Success on any attempt means that the response would convince on a retry too. */
  lemma SuccessConvinces(response: Bytes, attempt: nat, sequence: nat, i: nat)
    requires JudgeReply(response, attempt, sequence).Ok? && sequence % 256 == (1 + i) % 256
    ensures Convinces(response, i)
  {
  }

  /** One attempt: the request is sent, and the tester waits. */
  lemma AttemptStays(net: Network, chunks: seq<Bytes>, l: LinkState, i: nat)
    requires Valid(chunks, l) && i < |chunks| && l.issued <= i + 1
    ensures var (after, response) := Received(net, Sent(l, BlockRequest(chunks, i), i));
      && Valid(chunks, after) && after.issued == i + 1 && (!net.late ==> Idle(after))
      && (InStep(l, i) ==> InStep(after, i))
      && (InStep(l, i) && response.Some? && Convinces(response.value, i) ==> IsPrefix(after.accepted, i + 1))
  {
    SentStays(chunks, l, i);
    ReceivedStays(net, chunks, Sent(l, BlockRequest(chunks, i), i), i);
  }

  lemma LastAttempt(net: Network, l: LinkState, request: Bytes, sequence: nat, i: nat, attempt: nat, after: LinkState,
                    response: Option<Bytes>)
    requires attempt <= TRANSFER_RETRY_LIMIT && (after, response) == Received(net, Sent(l, request, i))
    ensures Transferred(net, l, request, sequence, i, attempt)
         == match response
            case Some(b) => (after, JudgeReply(b, attempt, sequence))
            case None => Transferred(net, after, request, sequence, i, attempt + 1)
  {
  }

  /** What all attempts from number `attempt` on keep, and what success then means. */
  ghost predicate TransferKept(net: Network, chunks: seq<Bytes>, l: LinkState, i: nat, attempt: nat,
                               after: LinkState, r: Result<bool, FlashError>) {
    && Valid(chunks, after) && after.issued <= i + 1
    && (attempt <= TRANSFER_RETRY_LIMIT ==> after.issued == i + 1 && (!net.late ==> Idle(after)))
    && (InStep(l, i) ==> InStep(after, i) && (r.Ok? ==> IsPrefix(after.accepted, i + 1)))
  }

  lemma {:induction false} TransferStays(net: Network, chunks: seq<Bytes>, l: LinkState, sequence: nat, i: nat,
                                         attempt: nat)
    requires Valid(chunks, l) && i < |chunks| && l.issued <= i + 1
    requires sequence % 256 == (1 + i) % 256 && 1 <= attempt
    ensures var (after, r) := Transferred(net, l, BlockRequest(chunks, i), sequence, i, attempt);
      TransferKept(net, chunks, l, i, attempt, after, r)
    decreases TRANSFER_RETRY_LIMIT + 1 - attempt
  {
    if attempt <= TRANSFER_RETRY_LIMIT {
      var request := BlockRequest(chunks, i);
      var (after, response) := Received(net, Sent(l, request, i));
      AttemptStays(net, chunks, l, i);
      LastAttempt(net, l, request, sequence, i, attempt, after, response);
      match response
      case Some(b) =>
        if JudgeReply(b, attempt, sequence).Ok? {
          SuccessConvinces(b, attempt, sequence, i);
        }
      case None =>
        TransferStays(net, chunks, after, sequence, i, attempt + 1);
    }
  }

  // ----- when success means delivery

  /** Nothing on the link is about an earlier chunk, and no response on it would convince the client. */
  predicate Clean(l: LinkState, i: nat) {
    AllAre(l.waiting, i) && forall k | 0 <= k < |l.toClient| :: !Convinces(l.toClient[k], i)
  }

  /** On this network, if the client takes chunk `i` for delivered, it is in. */
  ghost predicate SuccessIsTrue(net: Network, chunks: seq<Bytes>, l: LinkState, i: nat)
    requires i < |chunks|
  {
    var (after, r) := Transferred(net, l, BlockRequest(chunks, i), 1 + i, i, 1);
    r.Ok? ==> IsPrefix(after.accepted, i + 1)
  }

  function Drop<T>(s: seq<T>, n: nat): seq<T> {
    if n <= |s| then s[n..] else []
  }

  lemma LosesRequest(net: Network, l: LinkState)
    requires net.fate(l.moves) == LoseRequest
    ensures Moved(net, l) == l.(moves := l.moves + 1, toEcu := Tail(l.toEcu), waiting := Tail(l.waiting))
  {
  }

  lemma LosesResponse(net: Network, l: LinkState)
    requires net.fate(l.moves) == LoseResponse
    ensures Moved(net, l) == l.(moves := l.moves + 1, toClient := Tail(l.toClient))
  {
  }

  lemma DropOneMore<T>(s: seq<T>, n: nat)
    ensures Tail(Drop(s, n)) == Drop(s, n + 1)
  {
  }

  lemma {:induction false} LosesRequests(net: Network, l: LinkState, n: nat, end: LinkState)
    requires forall k: nat | l.moves <= k < l.moves + n :: net.fate(k) == LoseRequest
    requires end == Advanced(net, l, n)
    ensures end == l.(moves := l.moves + n, toEcu := Drop(l.toEcu, n), waiting := Drop(l.waiting, n))
  {
    if n > 0 {
      var before := Advanced(net, l, n - 1);
      LosesRequests(net, l, n - 1, before);
      LosesRequest(net, before);
      DropOneMore(l.toEcu, n - 1);
      DropOneMore(l.waiting, n - 1);
    }
  }

  /** First `n` requests are lost, then `m` responses. */
  lemma {:induction false} LosesBoth(net: Network, l: LinkState, n: nat, m: nat, end: LinkState)
    requires forall k: nat | l.moves <= k < l.moves + n :: net.fate(k) == LoseRequest
    requires forall k: nat | l.moves + n <= k < l.moves + n + m :: net.fate(k) == LoseResponse
    requires end == Advanced(net, l, n + m)
    ensures end == l.(moves := l.moves + n + m, toEcu := Drop(l.toEcu, n), waiting := Drop(l.waiting, n),
                      toClient := Drop(l.toClient, m))
  {
    if m == 0 {
      LosesRequests(net, l, n, end);
    } else {
      var before := Advanced(net, l, n + (m - 1));
      LosesBoth(net, l, n, m - 1, before);
      assert before.moves == l.moves + n + (m - 1) && end == Moved(net, before);
      LosesResponse(net, before);
      DropOneMore(l.toClient, m - 1);
    }
  }

  /**
   A late network that makes one move during the first attempt and lets it time out; during the retry it loses all
   requests and so many responses, and then lets the next response arrive.
   */
  function Fooling(first: Fate, from: nat, requests: nat, responses: nat): Network {
    Network(true, n => if n == from then first else if n <= from + requests then LoseRequest else LoseResponse,
            n => if n == from then 1 else requests + responses, n => n > from + 1)
  }

  /** What is left to the retry on such a network. */
  function AfterFirst(first: Fate, l: LinkState, request: Bytes, i: nat): LinkState {
    Sent(Fated(first, Sent(l, request, i)).(moves := l.moves + 1), request, i)
  }

  /** A transfer whose first attempt times out and whose retry hears something. */
  lemma HeardOnRetry(net: Network, l: LinkState, request: Bytes, sequence: nat, i: nat, a: LinkState, b: LinkState,
                     response: Bytes)
    requires Received(net, Sent(l, request, i)) == (a, None)
    requires Received(net, Sent(a, request, i)) == (b, Some(response))
    ensures Transferred(net, l, request, sequence, i, 1) == (b, JudgeReply(response, 2, sequence))
  {
    LastAttempt(net, l, request, sequence, i, 1, a, None);
    LastAttempt(net, a, request, sequence, i, 2, b, Some(response));
  }

  lemma FirstTimesOut(first: Fate, l: LinkState, requests: nat, responses: nat, request: Bytes, i: nat)
    ensures Received(Fooling(first, l.moves, requests, responses), Sent(l, request, i))
         == (Fated(first, Sent(l, request, i)).(moves := l.moves + 1), None)
  {
    var net, s := Fooling(first, l.moves, requests, responses), Sent(l, request, i);
    assert Advanced(net, s, 1) == Moved(net, Advanced(net, s, 0)) == Moved(net, s);
  }

  lemma RetryHears(first: Fate, from: nat, s: LinkState, responses: nat)
    requires s.moves == from + 1 && |s.toEcu| >= 1 && responses < |s.toClient|
    ensures var (after, r) := Received(Fooling(first, from, |s.toEcu|, responses), s);
      r == Some(s.toClient[responses]) && after.accepted == s.accepted
  {
    var n := |s.toEcu|;
    var net := Fooling(first, from, n, responses);
    LosesBoth(net, s, n, responses, Advanced(net, s, n + responses));
  }

  /** If a convincing response is on the link after the first attempt, some network lets the client hear it. */
  lemma ClientIsFooled(chunks: seq<Bytes>, l: LinkState, i: nat, first: Fate, k: nat) returns (net: Network)
    requires i < |chunks|
    requires var s := AfterFirst(first, l, BlockRequest(chunks, i), i);
      k < |s.toClient| && Convinces(s.toClient[k], i) && s.accepted == l.accepted && IsPrefix(l.accepted, i)
    ensures !SuccessIsTrue(net, chunks, l, i)
  {
    var request := BlockRequest(chunks, i);
    var s := AfterFirst(first, l, request, i);
    net := Fooling(first, l.moves, |s.toEcu|, k);
    FirstTimesOut(first, l, |s.toEcu|, k, request, i);
    RetryHears(first, l.moves, s, k);
    HeardOnRetry(net, l, request, 1 + i, i, Received(net, Sent(l, request, i)).0, Received(net, s).0, s.toClient[k]);
  }

  /** A request for the chunk before is handed over and refused. */
  lemma StaleRequestIsRefused(chunks: seq<Bytes>, l: LinkState, i: nat)
    requires Valid(chunks, l) && i < |chunks| && Live(l.gateway, l.now)
    requires l.waiting != [] && l.waiting[0] % 256 != |l.accepted| % 256
    ensures var s := AfterFirst(HandOver, l, BlockRequest(chunks, i), i);
      s.toClient == l.toClient + [WRONG_SEQUENCE] && s.accepted == l.accepted
  {
    GatewayBlock(l.gateway, chunks, l.accepted, l.waiting[0], l.now);
    var sent := Sent(l, BlockRequest(chunks, i), i);
    assert sent.toEcu[0] == l.toEcu[0] && sent.waiting[0] == l.waiting[0];
  }

  lemma DirtyLinkFools(chunks: seq<Bytes>, l: LinkState, i: nat) returns (net: Network)
    requires Valid(chunks, l) && i < |chunks| && l.issued <= i + 1 && IsPrefix(l.accepted, i) && Live(l.gateway, l.now)
    requires !Clean(l, i)
    ensures !SuccessIsTrue(net, chunks, l, i)
  {
    if k :| 0 <= k < |l.toClient| && Convinces(l.toClient[k], i) {
      net := ClientIsFooled(chunks, l, i, Pause(0.0), k);
    } else {
      var k :| 0 <= k < |l.waiting| && l.waiting[k] != i;
      OldestIsPrevious(chunks, l, i, k);
      StaleRequestIsRefused(chunks, l, i);
      net := ClientIsFooled(chunks, l, i, HandOver, |l.toClient|);
    }
  }

  /** The only request that can wait besides those for chunk `i` is a repetition of the chunk before it. */
  lemma OldestIsPrevious(chunks: seq<Bytes>, l: LinkState, i: nat, k: nat)
    requires Valid(chunks, l) && i < |chunks| && l.issued <= i + 1 && IsPrefix(l.accepted, i)
    requires k < |l.waiting| && l.waiting[k] != i
    ensures i > 0 && l.waiting[0] == i - 1 && l.waiting[0] % 256 != i % 256
  {
    assert l.waiting[k] < i;
    assert NotNewer(l.accepted, l.waiting[0]) && l.waiting[0] <= l.waiting[k];
  }

  /**
   With all earlier chunks in and a live session, the client's success on chunk `i` means delivery on every network
   exactly if the link is clean when the call starts. An idle link always is.
   */
  lemma CleanStartIsExact(chunks: seq<Bytes>, l: LinkState, i: nat)
    requires Valid(chunks, l) && i < |chunks| && l.issued <= i + 1 && IsPrefix(l.accepted, i) && Live(l.gateway, l.now)
    ensures (forall net: Network :: SuccessIsTrue(net, chunks, l, i)) <==> Clean(l, i)
    ensures Idle(l) ==> Clean(l, i)
  {
    if Clean(l, i) {
      forall net: Network ensures SuccessIsTrue(net, chunks, l, i) {
        TransferStays(net, chunks, l, 1 + i, i, 1);
      }
    } else {
      var net := DirtyLinkFools(chunks, l, i);
    }
  }

  /**
   The network of the run below: it hands over two requests, loses all others, and every second wait hears
   something.
   */
  const DELAYING := Network(true, n => if n < 2 then HandOver else LoseRequest, _ => 1, n => n > 0 && n % 2 == 0)

  lemma OneMove(l: LinkState)
    ensures Advanced(DELAYING, l, DELAYING.span(l.moves)) == Moved(DELAYING, l)
  {
    assert Advanced(DELAYING, l, 1) == Moved(DELAYING, Advanced(DELAYING, l, 0));
  }

  /** The gateway has just accepted a download request and nothing has been sent yet. */
  ghost predicate Starting(chunks: seq<Bytes>, l: LinkState) {
    && Valid(chunks, l) && Idle(l) && l.accepted == [] && l.issued == 0 && l.moves == 0
  }

  /** The only request on the link reaches a live gateway. */
  lemma ServedAlone(chunks: seq<Bytes>, l: LinkState)
    requires Valid(chunks, l) && |l.toEcu| == 1 && Live(l.gateway, l.now)
    ensures var s, i := Served(l), l.waiting[0];
      && Valid(chunks, s) && s.toEcu == [] && s.waiting == [] && s.moves == l.moves && s.now == l.now
      && Live(s.gateway, s.now) && s.issued == l.issued
      && if i % 256 == |l.accepted| % 256
         then s.toClient == l.toClient + [Acknowledgement(i)] && s.accepted == l.accepted + [i]
         else s.toClient == l.toClient + [WRONG_SEQUENCE] && s.accepted == l.accepted
  {
    GatewayBlock(l.gateway, chunks, l.accepted, l.waiting[0], l.now);
    ServedStays(chunks, l, l.waiting[0]);
  }

  /** One wait on this network, during which the only request is handed over. */
  lemma HandedOver(chunks: seq<Bytes>, l: LinkState)
    requires Valid(chunks, l) && |l.toEcu| == 1 && Live(l.gateway, l.now) && l.moves < 2
    ensures var s := Served(l).(moves := l.moves + 1);
      Received(DELAYING, l) == if l.moves == 0 then (s, None)
        else (s.(toClient := s.toClient[1..]), Some(s.toClient[0]))
  {
    OneMove(l);
    ServedAlone(chunks, l);
  }

  /** The first attempt for chunk 0: accepted, but the acknowledgement is not heard yet. */
  lemma FirstAttempt(chunks: seq<Bytes>, l: LinkState) returns (a: LinkState)
    requires Starting(chunks, l) && chunks != [] && Live(l.gateway, l.now)
    ensures Received(DELAYING, Sent(l, BlockRequest(chunks, 0), 0)) == (a, None)
    ensures Valid(chunks, a) && a.toEcu == [] && a.waiting == [] && a.moves == 1 && a.issued == 1
    ensures a.toClient == [Acknowledgement(0)] && a.accepted == [0] && Live(a.gateway, a.now)
  {
    var s := Sent(l, BlockRequest(chunks, 0), 0);
    SentStays(chunks, l, 0);
    ServedAlone(chunks, s);
    HandedOver(chunks, s);
    a := Served(s).(moves := 1);
  }

  /** The retry for chunk 0: refused as a repetition, and the acknowledgement is heard. */
  lemma SecondAttempt(chunks: seq<Bytes>, a: LinkState) returns (b: LinkState)
    requires Valid(chunks, a) && a.toEcu == [] && a.waiting == [] && a.moves == 1 && a.issued == 1 && chunks != []
    requires a.toClient == [Acknowledgement(0)] && a.accepted == [0] && Live(a.gateway, a.now)
    ensures Received(DELAYING, Sent(a, BlockRequest(chunks, 0), 0)) == (b, Some(Acknowledgement(0)))
    ensures Valid(chunks, b) && b.toEcu == [] && b.waiting == [] && b.moves == 2 && b.accepted == [0]
    ensures b.toClient == [WRONG_SEQUENCE] && b.gateway.session == SESSION_PROGRAMMING
  {
    var t := Sent(a, BlockRequest(chunks, 0), 0);
    SentStays(chunks, a, 0);
    ServedAlone(chunks, t);
    HandedOver(chunks, t);
    var s := Served(t);
    b := s.(moves := 2, toClient := s.toClient[1..]);
    LiveMeansOpen(s.gateway, s.now);
  }

  /** Chunk 0 is handed over twice; the retry hears the first answer and leaves the second on the link. */
  lemma FirstChunkLeavesAReply(chunks: seq<Bytes>, l: LinkState)
    requires Starting(chunks, l) && chunks != [] && Live(l.gateway, l.now)
    ensures var (after, r) := Transferred(DELAYING, l, BlockRequest(chunks, 0), 1, 0, 1);
      && r == Ok(true) && Valid(chunks, after) && after.accepted == [0] && after.moves == 2
      && after.toEcu == [] && after.waiting == [] && after.toClient == [WRONG_SEQUENCE]
      && after.gateway.session == SESSION_PROGRAMMING
  {
    var a := FirstAttempt(chunks, l);
    var b := SecondAttempt(chunks, a);
    HeardOnRetry(DELAYING, l, BlockRequest(chunks, 0), 1, 0, a, b, Acknowledgement(0));
  }

  lemma LiveMeansOpen(s: GatewayState, now: real)
    requires Live(s, now)
    ensures s.session == SESSION_PROGRAMMING
  {
  }

  /** Both requests for chunk 1 are lost; the retry hears what was left over from chunk 0. */
  lemma SecondChunkIsLost(chunks: seq<Bytes>, l: LinkState)
    requires l.moves == 2 && l.toEcu == [] && l.waiting == [] && l.toClient == [WRONG_SEQUENCE] && |chunks| >= 2
    ensures var (after, r) := Transferred(DELAYING, l, BlockRequest(chunks, 1), 2, 1, 1);
      r == Ok(true) && after.accepted == l.accepted && after.gateway == l.gateway
  {
    var request := BlockRequest(chunks, 1);
    var s := Sent(l, request, 1);
    OneMove(s);
    var a := Received(DELAYING, s).0;
    var again := Sent(a, request, 1);
    OneMove(again);
    HeardOnRetry(DELAYING, l, request, 2, 1, a, Received(DELAYING, again).0, WRONG_SEQUENCE);
  }

  lemma OnlyFirstChunk(chunks: seq<Bytes>, s: GatewayState)
    requires Holds(s, chunks, [0]) && s.session == SESSION_PROGRAMMING && NonEmpty(chunks) && |chunks| >= 2
    ensures s.receiver.buffer == chunks[0] && !LengthMatches(GatewayTransferOf(s))
  {
    TwoChunksFit(chunks);
    assert Select(chunks, [0]) == [chunks[0]];
    assert Flatten([chunks[0]]) == chunks[0];
  }

  // ----- the objects

  class Link {
    const ecu: ECUContext
    const net: Network
    var now: real
    var moves: nat
    var toEcu: seq<Bytes>
    var toClient: seq<Bytes>
    ghost const chunks: seq<Bytes>
    ghost var waiting: seq<nat>
    ghost var accepted: seq<nat>
    ghost var issued: nat

    ghost function State(): LinkState
      reads this, ecu, ecu.receiver
    {
      LinkState(ecu.State(), now, moves, toEcu, toClient, waiting, accepted, issued)
    }

    /** A link to a gateway that has just accepted a download request. */
    constructor (ecu: ECUContext, net: Network, now: real, ghost chunks: seq<Bytes>)
      requires NonEmpty(chunks) && ecu.State().unlocked && ecu.State().receiver.expectedSize == None
      requires GatewayTransferOf(ecu.State()) == Empty(chunks)
      ensures this.ecu == ecu && this.net == net && this.now == now && this.chunks == chunks
      ensures Starting(chunks, State())
    {
      this.ecu, this.net, this.now, this.chunks := ecu, net, now, chunks;
      moves, toEcu, toClient, waiting, accepted, issued := 0, [], [], [], [], 0;
      new;
      assert Select(chunks, []) == [];
    }

    method Send(request: Bytes, ghost i: nat)
      modifies this
      ensures State() == Sent(old(State()), request, i)
    {
      toEcu, waiting, issued := toEcu + [request], waiting + [i], i + 1;
    }

    method Serve()
      requires toEcu != [] && waiting != []
      modifies this, ecu, ecu.receiver
      ensures State() == Served(old(State()))
    {
      var responses := ecu.HandleTransferData(toEcu[0], now);
      accepted := AcceptedAfter(accepted, responses[0], waiting[0]);
      toEcu, waiting, toClient := toEcu[1..], waiting[1..], toClient + responses;
    }

    method Move()
      requires |toEcu| == |waiting|
      modifies this, ecu, ecu.receiver
      ensures State() == Moved(net, old(State())) && |toEcu| == |waiting|
    {
      match net.fate(moves) {
        case LoseRequest =>
          toEcu, waiting := Tail(toEcu), Tail(waiting);
        case HandOver =>
          if toEcu != [] {
            Serve();
          }
        case LoseResponse =>
          toClient := Tail(toClient);
        case Pause(seconds) =>
          now := now + seconds;
      }
      moves := moves + 1;
    }

    method Advance()
      requires |toEcu| == |waiting|
      modifies this, ecu, ecu.receiver
      ensures State() == Advanced(net, old(State()), net.span(old(moves))) && |toEcu| == |waiting|
    {
      for k := 0 to net.span(moves)
        invariant State() == Advanced(net, old(State()), k) && |toEcu| == |waiting|
      {
        Move();
      }
    }

    /** Waits for a response; None is a timeout. */
    method Receive() returns (r: Option<Bytes>)
      requires |toEcu| == |waiting|
      modifies this, ecu, ecu.receiver
      ensures (State(), r) == Received(net, old(State())) && |toEcu| == |waiting|
    {
      Advance();
      r := None;
      if toClient != [] && net.arrives(moves) {
        r, toClient := Some(toClient[0]), toClient[1..];
      }
      if !net.late {
        toEcu, toClient, waiting := [], [], [];
      }
    }
  }

  class LibraryDoIPClient {
    const link: Link
    var transferChunkCount: nat

    constructor (link: Link)
      ensures this.link == link && transferChunkCount == 0
    {
      this.link, transferChunkCount := link, 0;
    }

    /** The retry loop of `transfer_data`. */
    method SendWithRetry(sequence: nat, payload: Bytes, ghost i: nat) returns (r: Result<bool, FlashError>)
      requires |link.toEcu| == |link.waiting|
      modifies this, link, link.ecu, link.ecu.receiver
      ensures (link.State(), r)
           == Transferred(link.net, old(link.State()), BuildTransferData(sequence, payload), sequence, i, 1)
    {
      transferChunkCount := transferChunkCount + 1;
      var request := BuildTransferData(sequence, payload);
      for attempt := 1 to TRANSFER_RETRY_LIMIT + 1
        invariant |link.toEcu| == |link.waiting|
        invariant Transferred(link.net, link.State(), request, sequence, i, attempt)
               == Transferred(link.net, old(link.State()), request, sequence, i, 1)
      {
        link.Send(request, i);
        var response := link.Receive();
        if response.Some? {
          return JudgeReply(response.value, attempt, sequence);
        }
      }
      return Err(TimedOut);
    }

    /**
     One chunk, sent at most twice. Whatever the link does, the gateway keeps holding increasing chunks. If all chunks
     before this one are in and the link is clean when the call starts, success means that this one is in as well:
     exactly once.
     */
    method TransferData(sequence: nat, payload: Bytes, ghost i: nat) returns (r: Result<bool, FlashError>)
      requires Valid(link.chunks, link.State()) && i < |link.chunks| && link.issued <= i + 1
      requires payload == link.chunks[i] && sequence % 256 == (1 + i) % 256
      modifies this, link, link.ecu, link.ecu.receiver
      ensures (link.State(), r)
           == Transferred(link.net, old(link.State()), BlockRequest(link.chunks, i), sequence, i, 1)
      ensures Valid(link.chunks, link.State()) && link.issued == i + 1 && (!link.net.late ==> Idle(link.State()))
      ensures old(IsPrefix(link.accepted, i) && Clean(link.State(), i)) && r.Ok? ==> IsPrefix(link.accepted, i + 1)
    {
      TransferStays(link.net, link.chunks, link.State(), sequence, i, 1);
      assert BuildTransferData(sequence, payload) == BlockRequest(link.chunks, i);
      r := SendWithRetry(sequence, payload, i);
    }
  }

  /**
   With late responses the client can be wrong, for every firmware of at least two chunks: it reports success for
   chunk 1, which the gateway never got. The length check at the exit catches this.
   */
  method LateReplyFoolsTheClient(ecu: ECUContext, chunks: seq<Bytes>, now: real)
    returns (link: Link, first: Result<bool, FlashError>, second: Result<bool, FlashError>)
    requires NonEmpty(chunks) && |chunks| >= 2 && Live(ecu.State(), now)
    requires ecu.State().unlocked && ecu.State().receiver.expectedSize == None
    requires GatewayTransferOf(ecu.State()) == Empty(chunks)
    modifies ecu, ecu.receiver
    ensures first == Ok(true) && second == Ok(true)
    ensures link.ecu == ecu && Valid(chunks, link.State()) && link.accepted == [0] && 1 !in link.accepted
    ensures ecu.receiver.buffer == chunks[0] && !LengthMatches(GatewayTransferOf(ecu.State()))
  {
    link := new Link(ecu, DELAYING, now, chunks);
    var client := new LibraryDoIPClient(link);
    FirstChunkLeavesAReply(chunks, link.State());
    first := client.TransferData(1, chunks[0], 0);
    SecondChunkIsLost(chunks, link.State());
    second := client.TransferData(2, chunks[1], 1);
    OnlyFirstChunk(chunks, ecu.State());
  }

  // ----- the whole firmware

  /** A positive answer to a download request of the firmware's size is where every link below starts. */
  lemma DownloadOpensTransfer(s: GatewayState, firmware: Bytes, size: nat, now: real)
    requires size >= 1 && |firmware| < TWO_POW_32
    ensures var chunks := Cut(firmware, size);
      var o := GatewayRequestDownload(s, BuildRequestDownload(|firmware|), now);
      Verdict(o.responses[0], SID_REQUEST_DOWNLOAD).Ok? ==>
        && NonEmpty(chunks) && GatewayTransferOf(o.state) == Empty(chunks) && o.state.unlocked
        && o.state.receiver.expectedSize == None && Holds(o.state, chunks, [])
  {
    CutIsFirmware(firmware, size);
    var p := BuildRequestDownload(|firmware|);
    assert p[|p| - 4..] == U32(|firmware|);
    U32RoundTrip(|firmware|);
    assert Select(Cut(firmware, size), []) == [];
  }

  lemma HoldsAll(s: GatewayState, chunks: seq<Bytes>, accepted: seq<nat>)
    requires Holds(s, chunks, accepted) && IsPrefix(accepted, |chunks|)
    ensures s.receiver.buffer == Flatten(chunks)
  {
    AllSelected(chunks, accepted);
  }

  lemma AllDelivered(link: Link, firmware: Bytes, size: nat)
    requires size >= 1 && link.chunks == Cut(firmware, size)
    requires Holds(link.ecu.State(), link.chunks, link.accepted) && IsPrefix(link.accepted, |link.chunks|)
    ensures link.ecu.receiver.buffer == firmware
  {
    HoldsAll(link.ecu.State(), link.chunks, link.accepted);
    CutIsFirmware(firmware, size);
  }

  /** Chunk `k` is next; if nothing arrives late, all before it are in and nothing is under way. */
  ghost predicate AtChunk(link: Link, k: nat, sequence: nat)
    reads link, link.ecu, link.ecu.receiver
  {
    && Valid(link.chunks, link.State()) && link.issued == k && sequence == (1 + k) % 256
    && (!link.net.late ==> Idle(link.State()) && IsPrefix(link.accepted, k))
  }

  /** One turn of the chunk loop. */
  method TransferNext(client: LibraryDoIPClient, chunk: Bytes, sequence: nat, ghost k: nat)
    returns (r: Result<bool, FlashError>)
    requires AtChunk(client.link, k, sequence) && k < |client.link.chunks| && chunk == client.link.chunks[k]
    modifies client, client.link, client.link.ecu, client.link.ecu.receiver
    ensures Valid(client.link.chunks, client.link.State())
    ensures r.Ok? ==> AtChunk(client.link, k + 1, (sequence + 1) % 256)
  {
    NextCounter(k);
    r := client.TransferData(sequence, chunk, k);
  }

  /**
   The chunk loop of `FlashManager.transfer_data` on such a link. If nothing arrives late and the client reports
   success, the gateway holds exactly the firmware.
   */
  method TransferFirmware(client: LibraryDoIPClient, firmware: Bytes, chunkSize: nat)
    returns (r: Result<bool, FlashError>)
    requires chunkSize >= 1 && client.link.chunks == Cut(firmware, chunkSize)
    requires Starting(client.link.chunks, client.link.State())
    modifies client, client.link, client.link.ecu, client.link.ecu.receiver
    ensures Valid(client.link.chunks, client.link.State())
    ensures !client.link.net.late && r.Ok? ==> client.link.ecu.receiver.buffer == firmware
  {
    var sequence: nat, from: nat := 1, 0;
    ghost var k: nat := 0;
    assert firmware[0..] == firmware && client.link.chunks[0..] == client.link.chunks;
    while from < |firmware|
      invariant AtChunk(client.link, k, sequence) && StartsAt(client.link.chunks, firmware, chunkSize, from, k)
    {
      CutStep(firmware, chunkSize, from, client.link.chunks, k);
      var next := NextStart(|firmware|, chunkSize, from);
      r := TransferNext(client, firmware[from..next], sequence, k);
      if r.Err? {
        return;
      }
      sequence, from, k := (sequence + 1) % 256, next, k + 1;
    }
    if !client.link.net.late {
      AllDelivered(client.link, firmware, chunkSize);
    }
    r := Ok(true);
  }

  /**
   The length check of the transfer exit, in every state that any losses and delays can lead to: the gateway goes on to
   save and verify exactly if its session lives and every chunk has arrived, and then what it saves is the firmware.
   */
  lemma ExitMeansFirmware(cfg: Config, s: GatewayState, chunks: seq<Bytes>, accepted: seq<nat>, now: real)
    requires Holds(s, chunks, accepted) && NonEmpty(chunks)
    ensures var o := GatewayTransferExit(cfg, s, now);
      && (|o.responses| == 2 <==>
            ExpireGateway(s, now).session == SESSION_PROGRAMMING && IsPrefix(accepted, |chunks|))
      && (|o.responses| == 2 ==>
            && o.state.receiver.buffer == Flatten(chunks) && o.state.receiver.saved == Some(Flatten(chunks))
            && (IsPositiveResponse(o.responses[1], SID_TRANSFER_EXIT) <==>
                  cfg.digest(cfg.original) == cfg.digest(Flatten(chunks))))
  {
    if ExpireGateway(s, now).session == SESSION_PROGRAMMING {
      if LengthMatches(GatewayTransferOf(s)) {
        FullLengthIsFirmware(GatewayTransferOf(s), chunks, accepted);
      }
      if IsPrefix(accepted, |chunks|) {
        AllSelected(chunks, accepted);
      }
    }
  }
}
