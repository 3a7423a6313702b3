/** Which image the activation before an installation belongs to (ecus/base/uds_can_programmer.py). */
module UdsActivation {
  import opened Base
  import opened UdsCodec
  import opened UdsProgrammer
  import opened UdsSafety
  import opened LossyTransfer

  // ----- the exact condition

  /** After an activation no block is accepted until another download is requested. */
  lemma {:induction false} NoTransferAfterActivation(cfg: Config, h: History, a: nat, n: nat)
    requires IsRun(cfg, h) && a < n <= |h| && ActivationAt(h, a) && forall j: nat | a < j < n :: !DownloadAt(h, j)
    ensures !StateAt(h, n).downloadRequested
  {
    AlwaysConsistent(cfg, h, n - 1);
    AlwaysConsistent(cfg, h, n);
    assert Recorded(cfg, h, n - 1);
    if n == a + 1 {
      FlagsAreKept(cfg, StateAt(h, a), h[a].event);
    } else {
      NoTransferAfterActivation(cfg, h, a, n - 1);
      FlagsComeFromRequests(cfg, StateAt(h, n - 1), h[n - 1].event);
      assert !DownloadAt(h, n - 1);
    }
  }

  /**
   In every run that installs, the activation came after the transfer of the image that is installed exactly if no
   download was requested after the activation.
   */
  lemma ActivationIsOfImage(cfg: Config, h: History, x: nat, a: nat, i: nat)
    requires IsRun(cfg, h) && i < |h| && h[i].outcome.installs
    requires LastSession(h, i) < x < i && LastSession(h, i) < a < i && PassedAt(cfg, h, x, i) && ActivatedAt(h, a, i)
    ensures x < a <==> forall j: nat | a < j < i :: !DownloadAt(h, j)
  {
    if x < a {
      forall j: nat | a < j < i ensures !DownloadAt(h, j) {
        assert x < j < i;
      }
    } else if forall j: nat | a < j < i :: !DownloadAt(h, j) {
      assert h[a].event.payload[0] != h[x].event.payload[0];
      NoTransferAfterActivation(cfg, h, a, x);
      AlwaysConsistent(cfg, h, x);
      assert Recorded(cfg, h, x);
      FlagsComeFromRequests(cfg, StateAt(h, x), h[x].event);
      assert false;
    }
  }

  // ----- a run with a stale activation

  /** Blocks of 62 bytes, as on the CAN side (transport/uds/flash_manager.py). */
  const CHUNK_SIZE := 62

  function Request(payload: Bytes): Event {
    Event(1.0, Control(true, true), payload)
  }

  /** Session, seed, key and erase. */
  function Opening(cfg: Config): seq<Event> {
    [Request(BuildSessionControl(SESSION_PROGRAMMING)),
     Request(BuildRequestSeed()),
     Request(BuildSendKey(cfg.deriveKey(SeedBytes(cfg.ecuId, 1)))),
     Request(BuildRoutine(ROUTINE_ERASE, []))]
  }

  function Blocks(chunks: seq<Bytes>): seq<Event> {
    seq(|chunks|, k requires 0 <= k < |chunks| => Request(BuildTransferData(1 + k, chunks[k])))
  }

  /** A download of the image, block by block, and its exit. */
  function Download(image: Bytes): seq<Event>
    requires |image| < TWO_POW_32
  {
    [Request(BuildRequestDownload(|image|))] + Blocks(Cut(image, CHUNK_SIZE)) + [Request(BuildTransferExit())]
  }

  /** The reference image is downloaded twice in one session, with the only activation in between. */
  function StaleActivation(cfg: Config): seq<Event>
    requires |cfg.original| < TWO_POW_32
  {
    Opening(cfg) + Download(cfg.original) + [Request(BuildRoutine(ROUTINE_ACTIVATE, []))] + Download(cfg.original)
    + [Request(BuildEcuReset())]
  }

  /** Unlocked in a programming session at time 1, with these flags. */
  predicate Stands(s: ProgrammerState, erased: bool, downloading: bool, pending: bool, marked: bool) {
    && s.unlocked && s.session == SESSION_PROGRAMMING && s.sessionStartedAt == 1.0 && !s.installStarted
    && s.eraseCompleted == erased && s.downloadRequested == downloading && s.installPending == pending
    && s.activationMarked == marked
  }

  /** `done` is what has arrived of an image of `size` bytes. */
  predicate Transferring(s: ProgrammerState, size: nat, done: Bytes) {
    && s.receiver.buffer == done && s.receiver.expectedSize == Some(size) && s.expectedSize == size
    && s.receivedSize == |done|
  }

  lemma SeedStep(cfg: Config, h: History)
    requires IsRun(cfg, h) && |h| >= 2 && h[0].event == Request(BuildSessionControl(SESSION_PROGRAMMING))
    requires h[1].event == Request(BuildRequestSeed())
    ensures var s := StateAt(h, 2);
      && s.session == SESSION_PROGRAMMING && s.sessionStartedAt == 1.0 && s.pendingSeed == SeedBytes(cfg.ecuId, 1)
      && !s.installStarted && !s.eraseCompleted && !s.downloadRequested && !s.installPending && !s.activationMarked
  {
    assert Recorded(cfg, h, 0) && Recorded(cfg, h, 1);
  }

  lemma StaleRunUnlocks(cfg: Config, h: History)
    requires IsRun(cfg, h) && |h| >= 3 && forall i | 0 <= i < 3 :: h[i].event == Opening(cfg)[i]
    ensures Stands(StateAt(h, 3), false, false, false, false)
  {
    SeedStep(cfg, h);
    assert Recorded(cfg, h, 2);
    assert h[2].event.payload[2..] == cfg.deriveKey(StateAt(h, 2).pendingSeed);
  }

  lemma EraseStep(cfg: Config, h: History, i: nat)
    requires IsRun(cfg, h) && i < |h| && h[i].event == Request(BuildRoutine(ROUTINE_ERASE, []))
    requires Stands(StateAt(h, i), false, false, false, false)
    ensures Stands(StateAt(h, i + 1), true, false, false, false)
  {
    assert Recorded(cfg, h, i);
    assert h[i].event.payload[2..4] == U16(ROUTINE_ERASE);
    U16RoundTrip(ROUTINE_ERASE);
  }

  lemma ActivationStep(cfg: Config, h: History, i: nat)
    requires IsRun(cfg, h) && i < |h| && h[i].event == Request(BuildRoutine(ROUTINE_ACTIVATE, []))
    requires Stands(StateAt(h, i), true, false, true, false)
    ensures ActivationAt(h, i) && Stands(StateAt(h, i + 1), true, false, true, true)
  {
    assert Recorded(cfg, h, i);
    assert h[i].event.payload[2..4] == U16(ROUTINE_ACTIVATE);
    U16RoundTrip(ROUTINE_ACTIVATE);
  }

  lemma DownloadStep(cfg: Config, h: History, i: nat, size: nat, pending: bool, marked: bool)
    requires IsRun(cfg, h) && i < |h| && size < TWO_POW_32 && h[i].event == Request(BuildRequestDownload(size))
    requires Stands(StateAt(h, i), true, false, pending, marked)
    ensures DownloadAt(h, i) && Stands(StateAt(h, i + 1), true, true, false, marked)
    ensures Transferring(StateAt(h, i + 1), size, []) && StateAt(h, i + 1).sequence == 1
  {
    assert Recorded(cfg, h, i);
    assert h[i].event.payload[7..] == U32(size);
    U32RoundTrip(size);
  }

  /** One more block of the image. */
  lemma BlockStep(cfg: Config, h: History, i: nat, chunks: seq<Bytes>, k: nat, marked: bool)
    requires IsRun(cfg, h) && i < |h| && k < |chunks| && NonEmpty(chunks)
    requires h[i].event == Request(BuildTransferData(1 + k, chunks[k]))
    requires Stands(StateAt(h, i), true, true, false, marked) && StateAt(h, i).sequence == (1 + k) % 256
    requires Transferring(StateAt(h, i), |Flatten(chunks)|, Flatten(chunks[..k]))
    ensures Stands(StateAt(h, i + 1), true, true, false, marked) && StateAt(h, i + 1).sequence == (2 + k) % 256
    ensures Transferring(StateAt(h, i + 1), |Flatten(chunks)|, Flatten(chunks[..k + 1]))
  {
    assert Recorded(cfg, h, i);
    assert h[i].event.payload[2..] == chunks[k];
    TakeOneMore(chunks, k + 1);
    PrefixFits(chunks, k + 1);
    WholeBlock(TransferOf(StateAt(h, i).(sessionStartedAt := 1.0)), chunks[k]);
    NextCounter(k);
  }

  lemma {:induction false} BlocksArrive(cfg: Config, h: History, from: nat, chunks: seq<Bytes>, k: nat, marked: bool)
    requires IsRun(cfg, h) && from + |chunks| <= |h| && k <= |chunks| && NonEmpty(chunks)
    requires forall m | 0 <= m < |chunks| :: h[from + m].event == Blocks(chunks)[m]
    requires Stands(StateAt(h, from), true, true, false, marked) && StateAt(h, from).sequence == 1
    requires Transferring(StateAt(h, from), |Flatten(chunks)|, [])
    ensures Stands(StateAt(h, from + k), true, true, false, marked) && StateAt(h, from + k).sequence == (1 + k) % 256
    ensures Transferring(StateAt(h, from + k), |Flatten(chunks)|, Flatten(chunks[..k]))
  {
    if k > 0 {
      BlocksArrive(cfg, h, from, chunks, k - 1, marked);
      assert h[from + (k - 1)].event == Blocks(chunks)[k - 1];
      BlockStep(cfg, h, from + k - 1, chunks, k - 1, marked);
    }
  }

  lemma ExitStep(cfg: Config, h: History, i: nat, marked: bool)
    requires IsRun(cfg, h) && i < |h| && h[i].event == Request(BuildTransferExit())
    requires Stands(StateAt(h, i), true, true, false, marked)
    requires Transferring(StateAt(h, i), |cfg.original|, cfg.original)
    ensures ExitAt(h, i) && Stands(StateAt(h, i + 1), true, false, true, marked)
    ensures StateAt(h, i + 1).receiver.buffer == cfg.original && StateAt(h, i + 1).receiver.Passes(cfg)
  {
    assert Recorded(cfg, h, i);
    assert StateAt(h, i).receiver.FirmwareData() == cfg.original;
  }

  lemma ResetStep(cfg: Config, h: History, i: nat)
    requires IsRun(cfg, h) && i < |h| && h[i].event == Request(BuildEcuReset())
    requires Stands(StateAt(h, i), true, false, true, true)
    ensures ResetAt(h, i) && h[i].outcome.installs
  {
    assert Recorded(cfg, h, i);
  }

  /** A whole download, from request `i` on, leaves the reference image in the buffer, pending. */
  lemma DownloadPasses(cfg: Config, h: History, i: nat, n: nat, pending: bool, marked: bool)
    requires |cfg.original| < TWO_POW_32 && n == |Cut(cfg.original, CHUNK_SIZE)|
    requires IsRun(cfg, h) && i + n + 2 <= |h| && Stands(StateAt(h, i), true, false, pending, marked)
    requires forall m | 0 <= m < n + 2 :: h[i + m].event == Download(cfg.original)[m]
    ensures DownloadAt(h, i) && ExitAt(h, i + n + 1) && Stands(StateAt(h, i + n + 2), true, false, true, marked)
    ensures Stands(StateAt(h, i + 1), true, true, false, marked)
    ensures StateAt(h, i + n + 2).receiver.buffer == cfg.original
  {
    var chunks, d := Cut(cfg.original, CHUNK_SIZE), Download(cfg.original);
    CutIsFirmware(cfg.original, CHUNK_SIZE);
    assert h[i + 0].event == d[0] && h[i + (n + 1)].event == d[n + 1];
    DownloadStep(cfg, h, i, |cfg.original|, pending, marked);
    forall m | 0 <= m < n ensures h[i + 1 + m].event == Blocks(chunks)[m] {
      assert h[i + (1 + m)].event == d[1 + m];
    }
    BlocksArrive(cfg, h, i + 1, chunks, n, marked);
    assert chunks[..n] == chunks;
    ExitStep(cfg, h, i + n + 1, marked);
  }

  /** A run of these requests; a download takes `n` + 2 of them. */
  ghost predicate IsStaleRun(cfg: Config, h: History, n: nat)
    requires |cfg.original| < TWO_POW_32
  {
    && IsRun(cfg, h) && n == |Cut(cfg.original, CHUNK_SIZE)| && |h| == 2 * n + 10
    && (forall m | 0 <= m < 4 :: h[m].event == Opening(cfg)[m])
    && (forall m | 0 <= m < n + 2 :: h[4 + m].event == Download(cfg.original)[m])
    && h[n + 6].event == Request(BuildRoutine(ROUTINE_ACTIVATE, []))
    && (forall m | 0 <= m < n + 2 :: h[n + 7 + m].event == Download(cfg.original)[m])
    && h[2 * n + 9].event == Request(BuildEcuReset())
  }

  lemma DownloadLength(image: Bytes)
    requires |image| < TWO_POW_32
    ensures |Download(image)| == |Cut(image, CHUNK_SIZE)| + 2
  {
  }

  /** Where the parts of a sequence of five are. */
  lemma Parts<T>(a: seq<T>, b: seq<T>, c: T, e: T, s: seq<T>)
    requires s == a + b + [c] + b + [e]
    ensures |s| == |a| + 2 * |b| + 2 && s[|a| + |b|] == c && s[|s| - 1] == e
    ensures forall m | 0 <= m < |a| :: s[m] == a[m]
    ensures forall m | 0 <= m < |b| :: s[|a| + m] == b[m] && s[|a| + |b| + 1 + m] == b[m]
  {
    forall m | 0 <= m < |b| ensures s[|a| + m] == b[m] && s[|a| + |b| + 1 + m] == b[m] {
      assert s == a + (b + ([c] + b + [e]));
      assert s == (a + b + [c]) + (b + [e]);
    }
  }

  /** Where the requests are in the list. */
  lemma StaleLayout(cfg: Config, es: seq<Event>, n: nat)
    requires |cfg.original| < TWO_POW_32 && es == StaleActivation(cfg) && n == |Cut(cfg.original, CHUNK_SIZE)|
    ensures |es| == 2 * n + 10
    ensures forall m | 0 <= m < 4 :: es[m] == Opening(cfg)[m]
    ensures forall m | 0 <= m < n + 2 :: es[4 + m] == Download(cfg.original)[m]
    ensures es[n + 6] == Request(BuildRoutine(ROUTINE_ACTIVATE, []))
    ensures forall m | 0 <= m < n + 2 :: es[n + 7 + m] == Download(cfg.original)[m]
    ensures es[2 * n + 9] == Request(BuildEcuReset())
  {
    var opening, d := Opening(cfg), Download(cfg.original);
    DownloadLength(cfg.original);
    Parts(opening, d, Request(BuildRoutine(ROUTINE_ACTIVATE, [])), Request(BuildEcuReset()), es);
    forall m | 0 <= m < n + 2 ensures es[4 + m] == d[m] && es[n + 7 + m] == d[m] {
      assert es[|opening| + m] == d[m] && es[|opening| + |d| + 1 + m] == d[m];
    }
  }

  lemma StaleRunExists(cfg: Config) returns (h: History, n: nat)
    requires |cfg.original| < TWO_POW_32
    ensures IsStaleRun(cfg, h, n)
  {
    var es := StaleActivation(cfg);
    n := |Cut(cfg.original, CHUNK_SIZE)|;
    StaleLayout(cfg, es, n);
    h := RunOf(cfg, es);
    RunHasLayout(cfg, h, es, n);
  }

  lemma RunHasLayout(cfg: Config, h: History, es: seq<Event>, n: nat)
    requires |cfg.original| < TWO_POW_32 && n == |Cut(cfg.original, CHUNK_SIZE)|
    requires IsRun(cfg, h) && |h| == |es| == 2 * n + 10 && forall i | 0 <= i < |h| :: h[i].event == es[i]
    requires forall m | 0 <= m < 4 :: es[m] == Opening(cfg)[m]
    requires forall m | 0 <= m < n + 2 :: es[4 + m] == Download(cfg.original)[m]
    requires es[n + 6] == Request(BuildRoutine(ROUTINE_ACTIVATE, []))
    requires forall m | 0 <= m < n + 2 :: es[n + 7 + m] == Download(cfg.original)[m]
    requires es[2 * n + 9] == Request(BuildEcuReset())
    ensures IsStaleRun(cfg, h, n)
  {
  }

  lemma FirstHalf(cfg: Config, h: History, n: nat)
    requires |cfg.original| < TWO_POW_32 && IsStaleRun(cfg, h, n)
    ensures ActivationAt(h, n + 6) && Stands(StateAt(h, n + 7), true, false, true, true)
  {
    StaleRunUnlocks(cfg, h);
    EraseStep(cfg, h, 3);
    DownloadPasses(cfg, h, 4, n, false, false);
    ActivationStep(cfg, h, n + 6);
  }

  /**
   The activation that an installation needs may come before the image it installs was even requested, for every
   ECU: a second download request takes back the pending installation but not the activation.
   */
  lemma ActivationCanBeStale(cfg: Config) returns (h: History, a: nat, d: nat, x: nat, i: nat)
    requires |cfg.original| < TWO_POW_32
    ensures IsRun(cfg, h) && a < d < x < i < |h|
    ensures ActivationAt(h, a) && DownloadAt(h, d) && ExitAt(h, x) && ResetAt(h, i)
    ensures StateAt(h, d + 1).activationMarked && !StateAt(h, d + 1).installPending
    ensures StateAt(h, i).receiver.buffer == cfg.original && h[i].outcome.installs
  {
    var n;
    h, n := StaleRunExists(cfg);
    a, d, x, i := n + 6, n + 7, 2 * n + 8, 2 * n + 9;
    FirstHalf(cfg, h, n);
    DownloadPasses(cfg, h, d, n, true, true);
    ResetStep(cfg, h, i);
  }
}
