/**
 What an ECU can have received when blocks of a firmware are lost and repeated on the way: the rules for one block
 (transport/doip/server.py and ecus/base/uds_can_programmer.py) against the chunks that the client issues.
 */
module LossyTransfer {
  import opened Base
  import opened UdsProgrammer

  // ----- what an ECU can have received

  /** The chunks with these numbers, in this order. */
  function Select(chunks: seq<Bytes>, numbers: seq<nat>): seq<Bytes>
    requires forall k | 0 <= k < |numbers| :: numbers[k] < |chunks|
  {
    seq(|numbers|, k requires 0 <= k < |numbers| => chunks[numbers[k]])
  }

  predicate Increasing(numbers: seq<nat>) {
    forall j, k | 0 <= j < k < |numbers| :: numbers[j] < numbers[k]
  }

  predicate AllBelow(numbers: seq<nat>, n: nat) {
    forall k | 0 <= k < |numbers| :: numbers[k] < n
  }

  /** The numbers 0, 1, ..., n - 1. */
  predicate IsPrefix(numbers: seq<nat>, n: nat) {
    |numbers| == n && forall k | 0 <= k < n :: numbers[k] == k
  }

  /** The client cuts firmware into non-empty chunks. */
  predicate NonEmpty(chunks: seq<Bytes>) {
    forall k | 0 <= k < |chunks| :: chunks[k] != []
  }

  /**
   The transfer holds exactly the chunks with the numbers `accepted`, strictly increasing, of a firmware cut into
   `chunks`.
   */
  ghost predicate Assembled(t: Transfer, chunks: seq<Bytes>, accepted: seq<nat>) {
    && Increasing(accepted) && AllBelow(accepted, |chunks|)
    && t.buffer == Flatten(Select(chunks, accepted)) && t.receivedSize == |t.buffer| && t.chunkCount == |accepted|
    && t.expectedSize == |Flatten(chunks)| && t.sequence == (1 + |accepted|) % 256
    && forall k | 0 <= k < |accepted| :: accepted[k] % 256 == k % 256
  }

  lemma SelectSnoc(chunks: seq<Bytes>, numbers: seq<nat>, i: nat)
    requires AllBelow(numbers, |chunks|) && i < |chunks|
    ensures Flatten(Select(chunks, numbers + [i])) == Flatten(Select(chunks, numbers)) + chunks[i]
  {
    assert Select(chunks, numbers + [i]) == Select(chunks, numbers) + [chunks[i]];
    FlattenSnoc(Select(chunks, numbers), chunks[i]);
  }

  lemma TakeOneMore(chunks: seq<Bytes>, n: nat)
    requires 0 < n <= |chunks|
    ensures Flatten(chunks[..n]) == Flatten(chunks[..n - 1]) + chunks[n - 1]
  {
    assert chunks[..n] == chunks[..n - 1] + [chunks[n - 1]];
    FlattenSnoc(chunks[..n - 1], chunks[n - 1]);
  }

  /** Increasing chunks below `n` hold no more than all of them, and as much only if they are all of them. */
  lemma {:induction false} SelectionFits(chunks: seq<Bytes>, numbers: seq<nat>, n: nat)
    requires n <= |chunks| && NonEmpty(chunks) && Increasing(numbers) && AllBelow(numbers, n)
    ensures |Flatten(Select(chunks, numbers))| <= |Flatten(chunks[..n])|
    ensures |Flatten(Select(chunks, numbers))| == |Flatten(chunks[..n])| ==> IsPrefix(numbers, n)
  {
    if n == 0 {
      assert numbers == [];
    } else {
      TakeOneMore(chunks, n);
      assert chunks[n - 1] != [];
      var last := |numbers| - 1;
      if last >= 0 && numbers[last] == n - 1 {
        var front := numbers[..last];
        DropLast(numbers, n);
        SelectSnoc(chunks, front, n - 1);
        SelectionFits(chunks, front, n - 1);
        PrefixGrows(front, n - 1);
      } else {
        LastIsMissing(numbers, n);
        SelectionFits(chunks, numbers, n - 1);
      }
    }
  }

  lemma DropLast(numbers: seq<nat>, n: nat)
    requires Increasing(numbers) && AllBelow(numbers, n) && numbers != [] && numbers[|numbers| - 1] == n - 1
    ensures var front := numbers[..|numbers| - 1];
      numbers == front + [n - 1] && Increasing(front) && AllBelow(front, n - 1)
  {
  }

  lemma LastIsMissing(numbers: seq<nat>, n: nat)
    requires Increasing(numbers) && AllBelow(numbers, n) && n > 0
    requires numbers != [] ==> numbers[|numbers| - 1] != n - 1
    ensures AllBelow(numbers, n - 1)
  {
    if numbers != [] {
      assert numbers[|numbers| - 1] < n - 1;
    }
  }

  lemma PrefixGrows(front: seq<nat>, n: nat)
    ensures IsPrefix(front, n) ==> IsPrefix(front + [n], n + 1)
  {
  }

  lemma AllSelected(chunks: seq<Bytes>, numbers: seq<nat>)
    requires IsPrefix(numbers, |chunks|)
    ensures AllBelow(numbers, |chunks|) && Select(chunks, numbers) == chunks
  {
  }

  lemma PrefixFits(chunks: seq<Bytes>, n: nat)
    requires n <= |chunks|
    ensures |Flatten(chunks[..n])| <= |Flatten(chunks)|
  {
    assert chunks == chunks[..n] + chunks[n..];
    FlattenAppend(chunks[..n], chunks[n..]);
  }

  /** The last accepted chunk is not newer than the next arrival. */
  predicate NotNewer(accepted: seq<nat>, i: nat) {
    accepted != [] ==> accepted[|accepted| - 1] <= i
  }

  /** The block counter tells the next chunk from the last accepted one, however often the counter has wrapped. */
  lemma RepeatIsNotNext(accepted: seq<nat>, i: nat)
    requires forall k | 0 <= k < |accepted| :: accepted[k] % 256 == k % 256
    requires i % 256 == |accepted| % 256 && NotNewer(accepted, i)
    requires Increasing(accepted)
    ensures Increasing(accepted + [i]) && AllBelow(accepted, i)
  {
    if accepted != [] {
      var m := |accepted| - 1;
      assert accepted[m] % 256 == m % 256;
      assert (m + 1) % 256 != m % 256;
    }
  }

  /** A chunk that is next leaves room for nothing to be cut off. */
  lemma BlockFits(chunks: seq<Bytes>, accepted: seq<nat>, i: nat)
    requires NonEmpty(chunks) && i < |chunks| && Increasing(accepted) && AllBelow(accepted, i)
    ensures |Flatten(Select(chunks, accepted))| + |chunks[i]| <= |Flatten(chunks)|
  {
    SelectionFits(chunks, accepted, i);
    TakeOneMore(chunks, i + 1);
    PrefixFits(chunks, i + 1);
  }

  lemma WholeBlock(t: Transfer, data: Bytes)
    requires data != [] && t.receivedSize + |data| <= t.expectedSize
    ensures AcceptBlock(t, t.sequence, data) ==
      (t.(buffer := t.buffer + data, chunkCount := t.chunkCount + 1, receivedSize := t.receivedSize + |data|,
          sequence := (t.sequence + 1) % 256), Accepted)
  {
    assert data[..|data|] == data;
  }

  lemma ResidueSnoc(accepted: seq<nat>, i: nat)
    requires forall k | 0 <= k < |accepted| :: accepted[k] % 256 == k % 256
    requires i % 256 == |accepted| % 256
    ensures forall k | 0 <= k < |accepted + [i]| :: (accepted + [i])[k] % 256 == k % 256
  {
  }

  lemma ModuloNext(m: nat)
    ensures (1 + m) % 256 == if m % 256 == 255 then 0 else 1 + m % 256
  {
  }

  lemma NextCounter(n: nat)
    ensures ((1 + n) % 256 + 1) % 256 == (2 + n) % 256
  {
    ModuloNext(1 + n);
    ModuloNext((1 + n) % 256);
  }

  lemma AssembledGrows(t: Transfer, u: Transfer, chunks: seq<Bytes>, accepted: seq<nat>, i: nat)
    requires Assembled(t, chunks, accepted) && i < |chunks| && i % 256 == |accepted| % 256 && NotNewer(accepted, i)
    requires u == t.(buffer := t.buffer + chunks[i], chunkCount := t.chunkCount + 1,
                     receivedSize := t.receivedSize + |chunks[i]|, sequence := (t.sequence + 1) % 256)
    ensures Assembled(u, chunks, accepted + [i])
  {
    RepeatIsNotNext(accepted, i);
    ResidueSnoc(accepted, i);
    SelectSnoc(chunks, accepted, i);
    NextCounter(|accepted|);
  }

  lemma NextIsAccepted(t: Transfer, chunks: seq<Bytes>, accepted: seq<nat>, i: nat)
    requires Assembled(t, chunks, accepted) && NonEmpty(chunks) && i < |chunks| && i % 256 == |accepted| % 256
    requires NotNewer(accepted, i)
    ensures var (u, verdict) := AcceptBlock(t, t.sequence, chunks[i]);
      verdict == Accepted && Assembled(u, chunks, accepted + [i])
  {
    RepeatIsNotNext(accepted, i);
    BlockFits(chunks, accepted, i);
    WholeBlock(t, chunks[i]);
    AssembledGrows(t, AcceptBlock(t, t.sequence, chunks[i]).0, chunks, accepted, i);
  }

  lemma CounterFits(n: nat, i: nat)
    ensures (1 + i) % 256 == (1 + n) % 256 <==> i % 256 == n % 256
  {
    ModuloNext(i);
    ModuloNext(n);
  }

  /**
   One block of a firmware, not older than the last accepted one, meets a transfer: it is never cut short and never out
   of range, it is accepted exactly if its number fits the count modulo 256, and the transfer stays a selection of
   strictly increasing chunks.
   */
  lemma BlockKeepsAssembled(t: Transfer, chunks: seq<Bytes>, accepted: seq<nat>, i: nat)
    requires Assembled(t, chunks, accepted) && NonEmpty(chunks) && i < |chunks|
    requires NotNewer(accepted, i)
    ensures var (u, verdict) := AcceptBlock(t, (1 + i) % 256, chunks[i]);
      && verdict == (if i % 256 == |accepted| % 256 then Accepted else WrongSequence)
      && (if verdict == Accepted then Assembled(u, chunks, accepted + [i]) else u == t)
  {
    CounterFits(|accepted|, i);
    if i % 256 == |accepted| % 256 {
      NextIsAccepted(t, chunks, accepted, i);
    }
  }

  /** A transfer that passes the length check holds every chunk, once and in order. */
  lemma FullLengthIsFirmware(t: Transfer, chunks: seq<Bytes>, accepted: seq<nat>)
    requires Assembled(t, chunks, accepted) && NonEmpty(chunks) && LengthMatches(t)
    ensures IsPrefix(accepted, |chunks|) && t.buffer == Flatten(chunks)
  {
    assert chunks[..|chunks|] == chunks;
    SelectionFits(chunks, accepted, |chunks|);
    AllSelected(chunks, accepted);
  }

  // ----- any pattern of loss and repetition

  /** The transfer after the blocks with these numbers have arrived, in this order. */
  function Deliver(t: Transfer, chunks: seq<Bytes>, arrivals: seq<nat>): Transfer
    requires AllBelow(arrivals, |chunks|)
  {
    if arrivals == [] then t
    else
      var before, i := Deliver(t, chunks, arrivals[..|arrivals| - 1]), arrivals[|arrivals| - 1];
      AcceptBlock(before, (1 + i) % 256, chunks[i]).0
  }

  /** A new transfer for this firmware. */
  function Empty(chunks: seq<Bytes>): Transfer {
    Transfer([], 0, |Flatten(chunks)|, 0, 1)
  }

  lemma NothingYet(chunks: seq<Bytes>)
    ensures Assembled(Empty(chunks), chunks, [])
  {
    assert Select(chunks, []) == [];
  }

  /** The accepted chunks once one more has arrived. */
  function AfterArrival(accepted: seq<nat>, i: nat): seq<nat> {
    if i % 256 == |accepted| % 256 then accepted + [i] else accepted
  }

  lemma ArrivalKeeps(chunks: seq<Bytes>, t: Transfer, accepted: seq<nat>, arrivals: seq<nat>, i: nat, u: Transfer)
    requires Assembled(t, chunks, accepted) && NonEmpty(chunks) && i < |chunks| && NotNewer(accepted, i)
    requires u == AcceptBlock(t, (1 + i) % 256, chunks[i]).0
    requires forall k | k in accepted :: k in arrivals
    ensures Assembled(u, chunks, AfterArrival(accepted, i)) && NotNewer(AfterArrival(accepted, i), i)
    ensures forall k | k in AfterArrival(accepted, i) :: k in arrivals + [i]
  {
    BlockKeepsAssembled(t, chunks, accepted, i);
  }

  /**
   Whatever a FIFO link makes of chunks that are issued in order, each any number of times: the ECU's buffer is the
   concatenation of strictly increasing chunks, and if its length is right it is the firmware.
   */
  lemma {:induction false} LossIsNeverWrong(chunks: seq<Bytes>, arrivals: seq<nat>) returns (accepted: seq<nat>)
    requires NonEmpty(chunks) && AllBelow(arrivals, |chunks|)
    requires forall j, k | 0 <= j < k < |arrivals| :: arrivals[j] <= arrivals[k]
    ensures Assembled(Deliver(Empty(chunks), chunks, arrivals), chunks, accepted)
    ensures forall i | i in accepted :: i in arrivals
    ensures arrivals != [] ==> NotNewer(accepted, arrivals[|arrivals| - 1])
    ensures LengthMatches(Deliver(Empty(chunks), chunks, arrivals)) ==>
      Deliver(Empty(chunks), chunks, arrivals).buffer == Flatten(chunks)
  {
    var t := Deliver(Empty(chunks), chunks, arrivals);
    if arrivals == [] {
      accepted := [];
      NothingYet(chunks);
    } else {
      var front, i := arrivals[..|arrivals| - 1], arrivals[|arrivals| - 1];
      var before := LossIsNeverWrong(chunks, front);
      accepted := AfterArrival(before, i);
      ArrivalKeeps(chunks, Deliver(Empty(chunks), chunks, front), before, front, i, t);
      assert arrivals == front + [i];
    }
    if LengthMatches(t) {
      FullLengthIsFirmware(t, chunks, accepted);
    }
  }

  // ----- cutting firmware into chunks

  /** Firmware in chunks of `size` bytes; the last one may be shorter. */
  function Cut(firmware: Bytes, size: nat): seq<Bytes>
    requires size >= 1
  {
    if firmware == [] then []
    else if |firmware| <= size then [firmware]
    else [firmware[..size]] + Cut(firmware[size..], size)
  }

  lemma {:induction false} CutIsFirmware(firmware: Bytes, size: nat)
    requires size >= 1
    ensures NonEmpty(Cut(firmware, size)) && Flatten(Cut(firmware, size)) == firmware
  {
    if |firmware| > size {
      var first, rest := firmware[..size], Cut(firmware[size..], size);
      CutIsFirmware(firmware[size..], size);
      NonEmptyCons(first, rest);
      FlattenCons(first, rest);
      assert Cut(firmware, size) == [first] + rest;
    } else if firmware != [] {
      FlattenCons(firmware, []);
      assert [firmware] + [] == [firmware];
    }
  }

  lemma NonEmptyCons(first: Bytes, rest: seq<Bytes>)
    requires first != [] && NonEmpty(rest)
    ensures NonEmpty([first] + rest)
  {
  }

  lemma FlattenCons(first: Bytes, rest: seq<Bytes>)
    ensures Flatten([first] + rest) == first + Flatten(rest)
  {
    assert ([first] + rest)[1..] == rest;
  }

  /** Where chunk number `k` begins: chunks from there on are those of the firmware that is left. */
  ghost predicate StartsAt(chunks: seq<Bytes>, firmware: Bytes, size: nat, from: nat, k: nat) {
    size >= 1 && from <= |firmware| && k <= |chunks| && chunks[k..] == Cut(firmware[from..], size)
  }

  function NextStart(length: nat, size: nat, from: nat): nat {
    if from + size < length then from + size else length
  }

  lemma CutStep(firmware: Bytes, size: nat, from: nat, chunks: seq<Bytes>, k: nat)
    requires StartsAt(chunks, firmware, size, from, k) && from < |firmware|
    ensures var next := NextStart(|firmware|, size, from);
      from < next && k < |chunks| && chunks[k] == firmware[from..next] && StartsAt(chunks, firmware, size, next, k + 1)
  {
    var next := NextStart(|firmware|, size, from);
    assert firmware[from..][..next - from] == firmware[from..next];
    assert firmware[from..][next - from..] == firmware[next..];
    assert chunks[k + 1..] == chunks[k..][1..];
    assert chunks[k] == chunks[k..][0];
  }

  lemma TwoChunksFit(chunks: seq<Bytes>)
    requires NonEmpty(chunks) && |chunks| >= 2
    ensures |chunks[0]| < |Flatten(chunks)|
  {
    BlockFits(chunks, [0], 1);
    assert Select(chunks, [0]) == [chunks[0]];
    assert Flatten([chunks[0]]) == chunks[0];
  }
}
