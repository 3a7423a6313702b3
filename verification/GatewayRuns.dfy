/**
 Which requests the gateway serves (transport/doip/server.py), and what its flags say after any losses, repetitions
 and delays of the blocks of a firmware.
 */
module GatewayRuns {
  import opened Base
  import opened UdsCodec
  import opened UdsProgrammer
  import opened GatewayTransfer
  import opened LossyTransfer
  import opened LossyLink

  // ----- the gates of the transfer services

  /** The session is open, and was refreshed in the last 120 seconds; a clock that reads zero never expires. */
  predicate InTime(s: GatewayState, now: real) {
    s.session == SESSION_PROGRAMMING && (s.sessionStartedAt == 0.0 || now - s.sessionStartedAt <= 120.0)
  }

  /** A session that has run out takes everything with it but the receiver and the result of the last verification. */
  predicate Closed(s: GatewayState, t: GatewayState) {
    && t.session != SESSION_PROGRAMMING && t.receiver == s.receiver && t.verified == s.verified
    && (s.session != SESSION_PROGRAMMING ==> t == s)
    && (s.session == SESSION_PROGRAMMING ==>
          && !t.unlocked && t.pendingSeed == [] && !t.eraseCompleted && !t.activationMarked && !t.installPending
          && t.expectedSize == 0 && t.receivedSize == 0 && t.sequence == 1)
  }

  /** Refused, and nothing but the session clock has changed. */
  predicate Refused(s: GatewayState, o: GatewayOutcome, sid: byte, code: byte, now: real) {
    o.responses == [Negative(sid, code)] && o.state == s.(sessionStartedAt := now)
  }

  predicate TurnedAway(s: GatewayState, o: GatewayOutcome, sid: byte) {
    o.responses == [Negative(sid, NRC_NOT_IN_SESSION)] && Closed(s, o.state)
  }

  /** The final answer is positive. */
  predicate Granted(o: GatewayOutcome, sid: byte) {
    o.responses != [] && IsPositiveResponse(o.responses[|o.responses| - 1], sid)
  }

  /** A download is granted exactly in an unlocked session after an erase. It keeps the erase and the activation. */
  lemma DownloadIsGated(s: GatewayState, p: Bytes, now: real)
    ensures var o := GatewayRequestDownload(s, p, now);
      && (Granted(o, SID_REQUEST_DOWNLOAD) <==> InTime(s, now) && s.unlocked && s.eraseCompleted)
      && (!InTime(s, now) ==> TurnedAway(s, o, SID_REQUEST_DOWNLOAD))
      && (InTime(s, now) && !Granted(o, SID_REQUEST_DOWNLOAD) ==>
            Refused(s, o, SID_REQUEST_DOWNLOAD, NRC_CONDITIONS_NOT_CORRECT, now))
      && (Granted(o, SID_REQUEST_DOWNLOAD) ==>
            && o.responses == [[0x74, 0x00, 0x44, 0x20, 0x00]]
            && !o.state.verified && !o.state.installPending && !o.state.installStarted
            && o.state.receiver.buffer == [] && o.state.receiver.saved == s.receiver.saved
            && o.state.unlocked && o.state.eraseCompleted && o.state.activationMarked == s.activationMarked
            && o.state.pendingSeed == s.pendingSeed && o.state.session == s.session && o.state.sessionStartedAt == now)
  {
    assert U16(BLOCK_LENGTH) == [0x20, 0x00];
    assert [PositiveSid(SID_REQUEST_DOWNLOAD), 0x00, 0x44] + U16(BLOCK_LENGTH) == [0x74, 0x00, 0x44, 0x20, 0x00];
  }

  /** A block is granted exactly in an unlocked session, in sequence, and while bytes are missing. */
  lemma BlockIsGated(s: GatewayState, p: Bytes, now: real)
    ensures var o := GatewayTransferData(s, p, now);
      && (Granted(o, SID_TRANSFER_DATA) <==>
            && InTime(s, now) && s.unlocked && |p| >= 2 && p[1] == s.sequence
            && (s.expectedSize == 0 || (|p| > 2 && s.receivedSize < s.expectedSize)))
      && (!InTime(s, now) ==> TurnedAway(s, o, SID_TRANSFER_DATA))
      && (InTime(s, now) && !Granted(o, SID_TRANSFER_DATA) ==>
            Refused(s, o, SID_TRANSFER_DATA,
                    if |p| < 2 then NRC_INCORRECT_LENGTH
                    else if !s.unlocked then NRC_SECURITY_ACCESS_DENIED
                    else if p[1] != s.sequence then NRC_WRONG_SEQUENCE
                    else NRC_REQUEST_OUT_OF_RANGE, now))
      && (Granted(o, SID_TRANSFER_DATA) ==>
            && o.state.verified == s.verified && o.state.installPending == s.installPending
            && o.state.receiver.saved == s.receiver.saved && o.state.sessionStartedAt == now)
  {
  }

  /** A saved image is pending and verified exactly if the answer is positive; a refusal changes nothing. */
  lemma ExitIsGated(cfg: Config, s: GatewayState, now: real)
    ensures var o := GatewayTransferExit(cfg, s, now);
      && (|o.responses| == 2 <==>
            InTime(s, now) && s.unlocked && (s.expectedSize == 0 || s.receivedSize == s.expectedSize))
      && (!InTime(s, now) ==> TurnedAway(s, o, SID_TRANSFER_EXIT))
      && (InTime(s, now) && |o.responses| != 2 ==>
            Refused(s, o, SID_TRANSFER_EXIT,
                    if s.unlocked then NRC_INCORRECT_LENGTH else NRC_SECURITY_ACCESS_DENIED, now))
      && (|o.responses| == 2 ==>
            && IsResponsePending(o.responses[0], SID_TRANSFER_EXIT)
            && (Granted(o, SID_TRANSFER_EXIT) || o.responses[1] == Negative(SID_TRANSFER_EXIT, NRC_PROGRAMMING_FAILURE))
            && o.state.installPending == o.state.verified == Granted(o, SID_TRANSFER_EXIT)
            && !o.state.installStarted && o.state.receiver.buffer == s.receiver.buffer
            && o.state.activationMarked == s.activationMarked && o.state.sessionStartedAt == now)
  {
  }

  // ----- runs

  /** What reaches the gateway: a block of the firmware, or the transfer exit. */
  datatype Arrival = BlockArrives(i: nat) | ExitArrives

  datatype Visit = Visit(now: real, arrival: Arrival, outcome: GatewayOutcome)

  type Visits = seq<Visit>

  function GatewayAt(start: GatewayState, h: Visits, n: nat): GatewayState
    requires n <= |h|
  {
    if n == 0 then start else h[n - 1].outcome.state
  }

  function Do(cfg: Config, s: GatewayState, chunks: seq<Bytes>, v: Visit): GatewayOutcome
    requires v.arrival.BlockArrives? ==> v.arrival.i < |chunks|
  {
    match v.arrival
    case BlockArrives(i) => GatewayTransferData(s, BlockRequest(chunks, i), v.now)
    case ExitArrives => GatewayTransferExit(cfg, s, v.now)
  }

  /** The latest block to have arrived before visit `n`; 0 if there is none. */
  function LatestBlock(h: Visits, n: nat): nat
    requires n <= |h|
  {
    if n == 0 then 0 else match h[n - 1].arrival case BlockArrives(i) => i case ExitArrives => LatestBlock(h, n - 1)
  }

  ghost predicate VisitFits(cfg: Config, start: GatewayState, chunks: seq<Bytes>, h: Visits, n: nat)
    requires n < |h|
  {
    && (h[n].arrival.BlockArrives? ==> LatestBlock(h, n) <= h[n].arrival.i < |chunks|)
    && h[n].outcome == Do(cfg, GatewayAt(start, h, n), chunks, h[n])
  }

  /** Blocks in the order of the firmware, each any number of times or never, with exits in between, at any times. */
  ghost predicate IsDelivery(cfg: Config, start: GatewayState, chunks: seq<Bytes>, h: Visits) {
    && NonEmpty(chunks) && Holds(start, chunks, []) && !start.installPending && !start.verified
    && forall n: nat {:trigger VisitFits(cfg, start, chunks, h, n)} | n < |h| :: VisitFits(cfg, start, chunks, h, n)
  }

  predicate PassedAt(h: Visits, n: nat) {
    n < |h| && h[n].arrival.ExitArrives? && Granted(h[n].outcome, SID_TRANSFER_EXIT)
  }

  /** The blocks granted before visit `n`. */
  function GrantedBlocks(h: Visits, n: nat): seq<nat>
    requires n <= |h|
  {
    if n == 0 then []
    else if h[n - 1].arrival.BlockArrives? && Granted(h[n - 1].outcome, SID_TRANSFER_DATA)
    then GrantedBlocks(h, n - 1) + [h[n - 1].arrival.i]
    else GrantedBlocks(h, n - 1)
  }

  predicate HasPassed(h: Visits, n: nat) {
    exists m: nat :: m < n && PassedAt(h, m)
  }

  /** What the gateway's flags stand for. */
  ghost predicate FlagsFit(cfg: Config, chunks: seq<Bytes>, s: GatewayState, accepted: seq<nat>, passed: bool) {
    && Holds(s, chunks, accepted) && s.verified == passed
    && s.installPending == (passed && s.session == SESSION_PROGRAMMING)
    && (passed ==>
          && IsPrefix(accepted, |chunks|) && s.receiver.saved == Some(Flatten(chunks))
          && cfg.digest(cfg.original) == cfg.digest(Flatten(chunks)))
  }

  lemma BlockKeepsFlags(cfg: Config, chunks: seq<Bytes>, s: GatewayState, accepted: seq<nat>, passed: bool, i: nat,
                        now: real)
    requires NonEmpty(chunks) && FlagsFit(cfg, chunks, s, accepted, passed) && i < |chunks| && NotNewer(accepted, i)
    ensures var o := GatewayTransferData(s, BlockRequest(chunks, i), now);
      var next := if Granted(o, SID_TRANSFER_DATA) then accepted + [i] else accepted;
      FlagsFit(cfg, chunks, o.state, next, passed) && NotNewer(next, i)
  {
    BlockIsGated(s, BlockRequest(chunks, i), now);
    GatewayBlock(s, chunks, accepted, i, now);
    if passed {
      assert i == |chunks| - 1 ==> i % 256 != |accepted| % 256;
    }
  }

  lemma ExitKeepsFlags(cfg: Config, chunks: seq<Bytes>, s: GatewayState, accepted: seq<nat>, passed: bool, now: real)
    requires NonEmpty(chunks) && FlagsFit(cfg, chunks, s, accepted, passed)
    ensures var o := GatewayTransferExit(cfg, s, now);
      FlagsFit(cfg, chunks, o.state, accepted, passed || Granted(o, SID_TRANSFER_EXIT))
  {
    ExitIsGated(cfg, s, now);
    ExitMeansFirmware(cfg, s, chunks, accepted, now);
  }

  lemma NextFlags(cfg: Config, start: GatewayState, chunks: seq<Bytes>, h: Visits, n: nat)
    requires IsDelivery(cfg, start, chunks, h) && n < |h|
    requires FlagsFit(cfg, chunks, GatewayAt(start, h, n), GrantedBlocks(h, n), HasPassed(h, n))
    requires NotNewer(GrantedBlocks(h, n), LatestBlock(h, n))
    ensures FlagsFit(cfg, chunks, GatewayAt(start, h, n + 1), GrantedBlocks(h, n + 1), HasPassed(h, n + 1))
    ensures NotNewer(GrantedBlocks(h, n + 1), LatestBlock(h, n + 1))
  {
    assert VisitFits(cfg, start, chunks, h, n);
    assert HasPassed(h, n + 1) <==> HasPassed(h, n) || PassedAt(h, n);
    match h[n].arrival
    case BlockArrives(i) =>
      BlockKeepsFlags(cfg, chunks, GatewayAt(start, h, n), GrantedBlocks(h, n), HasPassed(h, n), i, h[n].now);
    case ExitArrives =>
      ExitKeepsFlags(cfg, chunks, GatewayAt(start, h, n), GrantedBlocks(h, n), HasPassed(h, n), h[n].now);
  }

  lemma {:induction false} FlagsAlwaysFit(cfg: Config, start: GatewayState, chunks: seq<Bytes>, h: Visits, n: nat)
    requires IsDelivery(cfg, start, chunks, h) && n <= |h|
    ensures FlagsFit(cfg, chunks, GatewayAt(start, h, n), GrantedBlocks(h, n), HasPassed(h, n))
    ensures NotNewer(GrantedBlocks(h, n), LatestBlock(h, n))
  {
    if n > 0 {
      FlagsAlwaysFit(cfg, start, chunks, h, n - 1);
      NextFlags(cfg, start, chunks, h, n - 1);
    }
  }

  /**
   Whatever is lost, repeated or late: an image is verified exactly if some exit was answered positively, and pending
   exactly if its session is still open. Then it is the whole firmware, each block granted exactly once, it is what
   was saved, and it has the reference digest.
   */
  lemma PendingIsFirmware(cfg: Config, start: GatewayState, chunks: seq<Bytes>, h: Visits, n: nat)
    requires IsDelivery(cfg, start, chunks, h) && n <= |h|
    ensures var s := GatewayAt(start, h, n);
      && (s.verified <==> HasPassed(h, n)) && (s.installPending <==> s.verified && s.session == SESSION_PROGRAMMING)
      && (s.verified ==>
            && IsPrefix(GrantedBlocks(h, n), |chunks|)
            && s.receiver.buffer == Flatten(chunks) && s.receiver.saved == Some(Flatten(chunks))
            && cfg.digest(cfg.original) == cfg.digest(Flatten(chunks)))
  {
    FlagsAlwaysFit(cfg, start, chunks, h, n);
    if GatewayAt(start, h, n).verified {
      AllSelected(chunks, GrantedBlocks(h, n));
    }
  }
}
