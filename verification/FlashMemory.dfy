/**
 The flash partition emulator of one ECU slot (ecus/base/flash_memory.py): erased bytes read as 0xFF, erasing
 works on sectors, programming on pages, and programming can only clear bits.
 */
module FlashMemory {
  import opened Base

  const ERASED_BYTE: byte := 0xFF
  const PAGE_SIZE := 256
  const SECTOR_SIZE := 4096

  datatype FlashError = BelowBase | ExceedsPartition | SetsErasedBits

  /** The states written to the flash journal of a slot. */
  datatype JournalState =
    Initialized | Prepared | Erased | Programmed | Verified | PendingActivation | BootedPending | Confirmed | RolledBack

  // ----- bits

  /** `a & b`. */
  function BitAnd(a: nat, b: nat): (r: nat)
    ensures r <= a && r <= b
  {
    if a == 0 || b == 0 then 0 else (if a % 2 == 1 && b % 2 == 1 then 1 else 0) + 2 * BitAnd(a / 2, b / 2)
  }

  /** Writing `value` over `current` sets no bit that is clear: the test `program` makes on each byte. */
  predicate OnlyClears(current: nat, value: nat) {
    BitOr(current, value) == current
  }

  lemma {:induction false} ClearingWritesTheValue(current: nat, value: nat)
    requires OnlyClears(current, value)
    ensures BitAnd(current, value) == value
  {
    if current > 0 && value > 0 {
      ClearingWritesTheValue(current / 2, value / 2);
    }
  }

  /** Bit `k` of `n`. */
  predicate Bit(n: nat, k: nat) {
    if k == 0 then n % 2 == 1 else Bit(n / 2, k - 1)
  }

  lemma {:induction false} ZeroHasNoBits(k: nat)
    ensures !Bit(0, k)
  {
    if k > 0 { ZeroHasNoBits(k - 1); }
  }

  lemma {:induction false} SomeBit(n: nat) returns (k: nat)
    requires n > 0
    ensures Bit(n, k)
  {
    k := 0;
    if n % 2 == 0 {
      k := SomeBit(n / 2);
      k := k + 1;
    }
  }

  /** Every bit of `value` is set in `current`. */
  ghost predicate HasBitsOf(current: nat, value: nat) {
    forall k: nat :: Bit(value, k) ==> Bit(current, k)
  }

  lemma BitsHalve(current: nat, value: nat)
    requires HasBitsOf(current, value)
    ensures HasBitsOf(current / 2, value / 2) && (value % 2 == 1 ==> current % 2 == 1)
  {
    assert Bit(value, 0) ==> Bit(current, 0);
    forall k: nat | Bit(value / 2, k) ensures Bit(current / 2, k) {
      assert Bit(value, k + 1);
      assert Bit(current, k + 1);
    }
  }

  lemma BitsDouble(current: nat, value: nat)
    requires HasBitsOf(current / 2, value / 2) && (value % 2 == 1 ==> current % 2 == 1)
    ensures HasBitsOf(current, value)
  {
    forall k: nat | Bit(value, k) ensures Bit(current, k) {
      if k > 0 {
        assert Bit(value / 2, k - 1);
        assert Bit(current / 2, k - 1);
      }
    }
  }

  /** A byte may be programmed over another exactly if it sets no bit that is clear there. */
  lemma {:induction false} OnlyClearsMeansBits(current: nat, value: nat)
    ensures OnlyClears(current, value) <==> HasBitsOf(current, value)
    decreases current + value
  {
    if value == 0 {
      forall k: nat ensures !Bit(value, k) { ZeroHasNoBits(k); }
    } else if current == 0 {
      var k := SomeBit(value);
      ZeroHasNoBits(k);
      assert Bit(value, k) && !Bit(current, k);
    } else {
      OnlyClearsMeansBits(current / 2, value / 2);
      if HasBitsOf(current, value) {
        BitsHalve(current, value);
      }
      if OnlyClears(current, value) {
        BitsDouble(current, value);
      }
    }
  }

  lemma {:induction false} ClearsTransitive(a: nat, b: nat, c: nat)
    requires OnlyClears(a, b) && OnlyClears(b, c)
    ensures OnlyClears(a, c)
  {
    if a > 0 && b > 0 && c > 0 {
      ClearsTransitive(a / 2, b / 2, c / 2);
    }
  }

  lemma {:induction false} ClearsItself(a: nat)
    ensures OnlyClears(a, a)
  {
    if a > 0 { ClearsItself(a / 2); }
  }

  /** Anything can be programmed over a mask of ones that is wide enough. */
  lemma {:induction false} OnesTakeAnything(mask: nat, value: nat, bits: nat)
    requires mask == Ones(bits) && value <= mask
    ensures OnlyClears(mask, value)
  {
    if bits > 0 && value > 0 {
      OnesTakeAnything(mask / 2, value / 2, bits - 1);
    }
  }

  lemma ErasedTakesAnyByte(value: byte)
    ensures OnlyClears(ERASED_BYTE, value)
  {
    assert Ones(4) == 15;
    assert Ones(8) == 255;
    OnesTakeAnything(255, value, 8);
  }

  // ----- what erasing and programming do to the cells

  function EraseStart(start: nat, sector: nat): nat
    requires sector > 0
  {
    start / sector * sector
  }

  function EraseEnd(end: nat, sector: nat, partition: nat): nat
    requires sector > 0
  {
    var e := (end + sector - 1) / sector * sector;
    if e < partition then e else partition
  }

  /** The cells with every sector that offsets `start` to `end` touch set to 0xFF. */
  function EraseCells(cells: Bytes, start: nat, end: nat, sector: nat): (r: Bytes)
    requires sector > 0
    ensures |r| == |cells|
  {
    var s, e := EraseStart(start, sector), EraseEnd(end, sector, |cells|);
    seq(|cells|, i requires 0 <= i < |cells| => if s <= i < e then ERASED_BYTE else cells[i])
  }

  /** Byte by byte, writing `chunk` over `current` sets no bit. */
  predicate AllClear(current: Bytes, chunk: Bytes)
    requires |current| == |chunk|
  {
    chunk == [] || (OnlyClears(current[0], chunk[0]) && AllClear(current[1..], chunk[1..]))
  }

  lemma {:induction false} AllClearMeansEach(current: Bytes, chunk: Bytes)
    requires |current| == |chunk|
    ensures AllClear(current, chunk) <==> forall i | 0 <= i < |chunk| :: OnlyClears(current[i], chunk[i])
  {
    if chunk != [] {
      var c, d := current[1..], chunk[1..];
      AllClearMeansEach(c, d);
      if AllClear(current, chunk) {
        forall i | 0 <= i < |chunk| ensures OnlyClears(current[i], chunk[i]) {
          if i > 0 { assert OnlyClears(c[i - 1], d[i - 1]); }
        }
      }
      if forall i | 0 <= i < |chunk| :: OnlyClears(current[i], chunk[i]) {
        forall i | 0 <= i < |d| ensures OnlyClears(c[i], d[i]) {
          assert OnlyClears(current[i + 1], chunk[i + 1]);
        }
      }
    }
  }

  lemma {:induction false} AllClearSplit(c: Bytes, d: Bytes, a: Bytes, b: Bytes)
    requires |c| == |a| && |d| == |b|
    ensures AllClear(c + d, a + b) <==> AllClear(c, a) && AllClear(d, b)
  {
    if a == [] {
      assert c + d == d && a + b == b;
    } else {
      assert (c + d)[1..] == c[1..] + d && (a + b)[1..] == a[1..] + b;
      AllClearSplit(c[1..], d, a[1..], b);
    }
  }

  predicate Programmable(cells: Bytes, offset: nat, chunk: Bytes)
    requires offset + |chunk| <= |cells|
  {
    AllClear(cells[offset..offset + |chunk|], chunk)
  }

  /** The cells with `chunk` written at `offset`. */
  function Overwrite(cells: Bytes, offset: nat, chunk: Bytes): (r: Bytes)
    requires offset + |chunk| <= |cells|
    ensures |r| == |cells|
  {
    cells[..offset] + chunk + cells[offset + |chunk|..]
  }

  function NextPage(payload: Bytes, page: nat): Bytes
    requires page > 0
  {
    if |payload| <= page then payload else payload[..page]
  }

  /** Page after page; a page that would set a bit stops the programming before it is written. */
  function ProgramPages(cells: Bytes, offset: nat, payload: Bytes, page: nat): (Bytes, bool)
    requires page > 0 && offset + |payload| <= |cells|
    decreases |payload|
  {
    if payload == [] then (cells, true)
    else
      var chunk := NextPage(payload, page);
      if !Programmable(cells, offset, chunk) then (cells, false)
      else ProgramPages(Overwrite(cells, offset, chunk), offset + |chunk|, payload[|chunk|..], page)
  }

  lemma ProgramFirstPage(cells: Bytes, offset: nat, payload: Bytes, page: nat)
    requires page > 0 && offset + |payload| <= |cells| && payload != []
    ensures var chunk := NextPage(payload, page);
      ProgramPages(cells, offset, payload, page) ==
        if Programmable(cells, offset, chunk)
        then ProgramPages(Overwrite(cells, offset, chunk), offset + |chunk|, payload[|chunk|..], page)
        else (cells, false)
  {
  }

  class FlashMemoryEmulator {
    const baseAddress: nat
    const partitionSize: nat
    const pageSize: nat
    const sectorSize: nat
    var cells: array<byte>
    var journal: Option<JournalState>

    ghost predicate Valid()
      reads this
    {
      cells.Length == partitionSize && pageSize > 0 && sectorSize > 0
    }

    /** Opens a slot whose flash file holds `content`. */
    constructor (baseAddress: nat, partitionSize: nat, pageSize: nat, sectorSize: nat, content: Bytes,
                 journal: Option<JournalState>)
      ensures this.baseAddress == baseAddress && this.partitionSize == partitionSize
      ensures this.pageSize == pageSize && this.sectorSize == sectorSize
      ensures fresh(cells) && cells[..] == content && this.journal == journal
    {
      this.baseAddress, this.partitionSize := baseAddress, partitionSize;
      this.pageSize, this.sectorSize := pageSize, sectorSize;
      this.journal := journal;
      cells := new byte[|content|](i requires 0 <= i < |content| => content[i]);
    }

    /** A new flash file of the partition's size, all erased. */
    method Initialize()
      modifies this
      ensures fresh(cells) && cells.Length == partitionSize
      ensures forall i | 0 <= i < cells.Length :: cells[i] == ERASED_BYTE
      ensures journal == Some(Initialized)
    {
      cells := new byte[partitionSize](_ => ERASED_BYTE);
      journal := Some(Initialized);
    }

    method EraseRegion(address: int, size: nat) returns (r: Result<(), FlashError>)
      requires Valid()
      modifies this`journal, cells
      ensures Valid() && cells == old(cells)
      ensures r == if address < baseAddress then Err(BelowBase) else Ok(())
      ensures r.Ok? ==> journal == Some(Erased)
      ensures r.Ok? ==> cells[..] == EraseCells(old(cells[..]), address - baseAddress, address - baseAddress + size,
                                                sectorSize)
      ensures r.Err? ==> journal == old(journal) && cells[..] == old(cells[..])
    {
      if address < baseAddress {
        return Err(BelowBase);
      }
      var start, end := address - baseAddress, address + size - baseAddress;
      var eraseStart, eraseEnd := EraseStart(start, sectorSize), EraseEnd(end, sectorSize, partitionSize);
      var i := eraseStart;
      while i < eraseEnd
        invariant eraseStart <= i
        invariant forall k | 0 <= k < cells.Length ::
          cells[k] == if eraseStart <= k < i && k < eraseEnd then ERASED_BYTE else old(cells[k])
      {
        cells[i] := ERASED_BYTE;
        i := i + 1;
      }
      journal := Some(Erased);
      return Ok(());
    }

    /** One page: nothing is written unless every byte of it may be. */
    method ProgramPage(offset: nat, chunk: Bytes) returns (ok: bool)
      requires Valid() && offset + |chunk| <= partitionSize
      modifies cells
      ensures ok == Programmable(old(cells[..]), offset, chunk)
      ensures cells[..] == if ok then Overwrite(old(cells[..]), offset, chunk) else old(cells[..])
    {
      var programmed: seq<byte> := [];
      AllClearMeansEach(cells[offset..offset + |chunk|], chunk);
      for i := 0 to |chunk|
        invariant cells[..] == old(cells[..]) && programmed == chunk[..i]
        invariant forall k | 0 <= k < i :: OnlyClears(cells[offset + k], chunk[k])
      {
        if !OnlyClears(cells[offset + i], chunk[i]) {
          return false;
        }
        ClearingWritesTheValue(cells[offset + i], chunk[i]);
        programmed := programmed + [BitAnd(cells[offset + i], chunk[i])];
      }
      assert programmed == chunk;
      WriteCells(offset, programmed);
      return true;
    }

    method WriteCells(offset: nat, programmed: Bytes)
      requires Valid() && offset + |programmed| <= partitionSize
      modifies cells
      ensures cells[..] == Overwrite(old(cells[..]), offset, programmed)
    {
      for i := 0 to |programmed|
        invariant forall k | 0 <= k < cells.Length ::
          cells[k] == if offset <= k < offset + i then programmed[k - offset] else old(cells[k])
      {
        cells[offset + i] := programmed[i];
      }
    }

    method Program(address: int, payload: Bytes) returns (r: Result<(), FlashError>)
      requires Valid()
      modifies this`journal, cells
      ensures Valid() && cells == old(cells)
      ensures address < baseAddress ==> r == Err(BelowBase)
      ensures address >= baseAddress && address - baseAddress + |payload| > partitionSize ==> r == Err(ExceedsPartition)
      ensures address >= baseAddress && address - baseAddress + |payload| <= partitionSize ==>
        var (after, ok) := ProgramPages(old(cells[..]), address - baseAddress, payload, pageSize);
        cells[..] == after && r == if ok then Ok(()) else Err(SetsErasedBits)
      ensures r == Err(BelowBase) || r == Err(ExceedsPartition) ==> cells[..] == old(cells[..])
      ensures journal == if r.Ok? then Some(Programmed) else old(journal)
    {
      if address < baseAddress {
        return Err(BelowBase);
      }
      var start := address - baseAddress;
      if start + |payload| > partitionSize {
        return Err(ExceedsPartition);
      }
      var ok := ProgramFrom(start, payload);
      if !ok {
        return Err(SetsErasedBits);
      }
      journal := Some(Programmed);
      return Ok(());
    }

    /** The page loop of `program`. */
    method ProgramFrom(start: nat, payload: Bytes) returns (ok: bool)
      requires Valid() && start + |payload| <= partitionSize
      modifies cells
      ensures (cells[..], ok) == ProgramPages(old(cells[..]), start, payload, pageSize)
    {
      ghost var result := ProgramPages(cells[..], start, payload, pageSize);
      var rest, offset := payload, start;
      while rest != []
        invariant offset + |rest| == start + |payload|
        invariant result == ProgramPages(cells[..], offset, rest, pageSize)
        decreases |rest|
      {
        var size;
        ok, size := ProgramOne(offset, rest);
        if !ok {
          return;
        }
        rest, offset := rest[size..], offset + size;
      }
      return true;
    }

    /** The first page of what is left. */
    method ProgramOne(offset: nat, rest: Bytes) returns (ok: bool, size: nat)
      requires Valid() && rest != [] && offset + |rest| <= partitionSize
      modifies cells
      ensures 0 < size <= |rest|
      ensures ProgramPages(old(cells[..]), offset, rest, pageSize) ==
        if ok then ProgramPages(cells[..], offset + size, rest[size..], pageSize) else (cells[..], false)
    {
      var chunk := NextPage(rest, pageSize);
      ProgramFirstPage(cells[..], offset, rest, pageSize);
      ok := ProgramPage(offset, chunk);
      size := |chunk|;
    }

    method Read(address: int, size: nat) returns (r: Result<Bytes, FlashError>)
      requires Valid()
      ensures r == if address < baseAddress then Err(BelowBase)
        else if address - baseAddress + size > partitionSize then Err(ExceedsPartition)
        else Ok(cells[address - baseAddress..address - baseAddress + size])
    {
      if address < baseAddress {
        return Err(BelowBase);
      }
      var offset := address - baseAddress;
      if offset + size > partitionSize {
        return Err(ExceedsPartition);
      }
      return Ok(cells[offset..offset + size]);
    }

    method Verify(address: int, payload: Bytes) returns (r: Result<bool, FlashError>)
      requires Valid()
      ensures address < baseAddress ==> r == Err(BelowBase)
      ensures address >= baseAddress && address - baseAddress + |payload| > partitionSize ==> r == Err(ExceedsPartition)
      ensures address >= baseAddress && address - baseAddress + |payload| <= partitionSize ==>
        r == Ok(cells[address - baseAddress..address - baseAddress + |payload|] == payload)
    {
      var content := Read(address, |payload|);
      match content
      case Err(e) => return Err(e);
      case Ok(b) => return Ok(b == payload);
    }
  }

  // ----- programming is exact

  lemma OverwriteSplit(cells: Bytes, offset: nat, a: Bytes, b: Bytes)
    requires offset + |a| + |b| <= |cells|
    ensures Overwrite(Overwrite(cells, offset, a), offset + |a|, b) == Overwrite(cells, offset, a + b)
  {
  }

  lemma ProgrammableSplit(cells: Bytes, offset: nat, a: Bytes, b: Bytes)
    requires offset + |a| + |b| <= |cells|
    ensures Programmable(cells, offset, a + b)
       <==> Programmable(cells, offset, a) && Programmable(Overwrite(cells, offset, a), offset + |a|, b)
  {
    var next, middle, end := Overwrite(cells, offset, a), offset + |a|, offset + |a| + |b|;
    assert cells[offset..end] == cells[offset..middle] + cells[middle..end];
    assert next[middle..end] == cells[middle..end];
    AllClearSplit(cells[offset..middle], cells[middle..end], a, b);
  }

  /** How many bytes of the payload are in the pages before the first that would set a bit. */
  function PagesWritten(cells: Bytes, offset: nat, payload: Bytes, page: nat): nat
    requires page > 0 && offset + |payload| <= |cells|
    decreases |payload|
  {
    if payload == [] then 0
    else
      var chunk := NextPage(payload, page);
      if !Programmable(cells, offset, chunk) then 0
      else |chunk| + PagesWritten(Overwrite(cells, offset, chunk), offset + |chunk|, payload[|chunk|..], page)
  }

  predicate WholePages(n: nat, page: nat)
    requires page > 0
  {
    n == 0 || (n >= page && WholePages(n - page, page))
  }

  /** Whole pages were written, and the next one would have set a bit. */
  predicate StopsAt(cells: Bytes, offset: nat, payload: Bytes, page: nat, written: nat)
    requires page > 0 && offset + |payload| <= |cells|
  {
    && WholePages(written, page) && written < |payload|
    && var end := if written + page < |payload| then written + page else |payload|;
       !Programmable(cells, offset + written, payload[written..end])
  }

  lemma LaterPageFails(cells: Bytes, offset: nat, payload: Bytes, chunk: Bytes, rest: Bytes, more: nat, page: nat)
    requires payload == chunk + rest && offset + |payload| <= |cells| && page > 0 && chunk == NextPage(payload, page)
    requires StopsAt(Overwrite(cells, offset, chunk), offset + |chunk|, rest, page, more)
    ensures StopsAt(cells, offset, payload, page, |chunk| + more)
  {
    var next, from := Overwrite(cells, offset, chunk), offset + |chunk| + more;
    var end := if more + page < |rest| then more + page else |rest|;
    assert payload[|chunk| + more..|chunk| + end] == rest[more..end];
    assert next[from..from + (end - more)] == cells[from..from + (end - more)];
  }

  /** What is written: nothing if the first page fails, and else that page and what is written of the rest. */
  lemma WrittenStep(cells: Bytes, offset: nat, payload: Bytes, page: nat, chunk: Bytes, rest: Bytes)
    requires page > 0 && offset + |payload| <= |cells| && payload != []
    requires chunk == NextPage(payload, page) && payload == chunk + rest
    ensures if Programmable(cells, offset, chunk)
            then
              var next := Overwrite(cells, offset, chunk);
              && PagesWritten(cells, offset, payload, page)
                 == |chunk| + PagesWritten(next, offset + |chunk|, rest, page)
              && ProgramPages(cells, offset, payload, page) == ProgramPages(next, offset + |chunk|, rest, page)
            else PagesWritten(cells, offset, payload, page) == 0
  {
    assert payload[|chunk|..] == rest;
  }

  lemma FirstPageStops(cells: Bytes, offset: nat, payload: Bytes, page: nat, chunk: Bytes)
    requires page > 0 && offset + |payload| <= |cells| && payload != []
    requires chunk == NextPage(payload, page) && !Programmable(cells, offset, chunk)
    ensures StopsAt(cells, offset, payload, page, 0)
  {
    assert chunk == payload[0..|chunk|];
  }

  /** A programming that fails has written whole pages up to the one that would set a bit. */
  lemma {:induction false} FailureStopsAtPage(cells: Bytes, offset: nat, payload: Bytes, page: nat, written: nat)
    requires page > 0 && offset + |payload| <= |cells| && !ProgramPages(cells, offset, payload, page).1
    requires written == PagesWritten(cells, offset, payload, page)
    ensures StopsAt(cells, offset, payload, page, written)
    decreases |payload|, 1
  {
    assert payload != [];
    var chunk := NextPage(payload, page);
    FirstPageOf(payload, page);
    WrittenStep(cells, offset, payload, page, chunk, payload[|chunk|..]);
    if Programmable(cells, offset, chunk) {
      RestStopsAtPage(cells, offset, payload, page, chunk, payload[|chunk|..], written - |chunk|);
    } else {
      FirstPageStops(cells, offset, payload, page, chunk);
    }
  }

  lemma {:induction false} RestStopsAtPage(cells: Bytes, offset: nat, payload: Bytes, page: nat, chunk: Bytes,
                                           rest: Bytes, more: nat)
    requires page > 0 && offset + |payload| <= |cells| && chunk != [] && payload == chunk + rest
    requires chunk == NextPage(payload, page)
    requires !ProgramPages(Overwrite(cells, offset, chunk), offset + |chunk|, rest, page).1
    requires more == PagesWritten(Overwrite(cells, offset, chunk), offset + |chunk|, rest, page)
    ensures StopsAt(cells, offset, payload, page, |chunk| + more)
    decreases |payload|, 0
  {
    FailureStopsAtPage(Overwrite(cells, offset, chunk), offset + |chunk|, rest, page, more);
    LaterPageFails(cells, offset, payload, chunk, rest, more, page);
  }

  lemma FirstPageOf(payload: Bytes, page: nat)
    requires page > 0 && payload != []
    ensures var chunk := NextPage(payload, page); chunk != [] && payload == chunk + payload[|chunk|..]
  {
  }

  /** What programming did: it wrote a prefix of the payload, all of it exactly when it succeeded. */
  ghost predicate WrotePrefix(cells: Bytes, offset: nat, payload: Bytes, written: nat, result: (Bytes, bool))
    requires offset + |payload| <= |cells| && written <= |payload|
  {
    && result.0 == Overwrite(cells, offset, payload[..written])
    && Programmable(cells, offset, payload[..written])
    && (result.1 <==> Programmable(cells, offset, payload)) && (result.1 <==> written == |payload|)
  }

  lemma PrefixGrows(cells: Bytes, offset: nat, payload: Bytes, chunk: Bytes, rest: Bytes, more: nat,
                    result: (Bytes, bool))
    requires payload == chunk + rest && offset + |payload| <= |cells| && more <= |rest|
      && Programmable(cells, offset, chunk)
    requires WrotePrefix(Overwrite(cells, offset, chunk), offset + |chunk|, rest, more, result)
    ensures WrotePrefix(cells, offset, payload, |chunk| + more, result)
  {
    assert payload[..|chunk| + more] == chunk + rest[..more];
    OverwriteSplit(cells, offset, chunk, rest[..more]);
    ProgrammableSplit(cells, offset, chunk, rest[..more]);
    ProgrammableSplit(cells, offset, chunk, rest);
  }

  lemma NothingWritten(cells: Bytes, offset: nat, payload: Bytes, ok: bool)
    requires offset + |payload| <= |cells| && (if ok then payload == [] else !Programmable(cells, offset, payload))
    ensures WrotePrefix(cells, offset, payload, 0, (cells, ok))
  {
    assert payload[..0] == [];
    assert Overwrite(cells, offset, []) == cells;
  }

  lemma FirstPageFails(cells: Bytes, offset: nat, payload: Bytes, chunk: Bytes, rest: Bytes)
    requires payload == chunk + rest && offset + |payload| <= |cells| && !Programmable(cells, offset, chunk)
    ensures WrotePrefix(cells, offset, payload, 0, (cells, false))
  {
    ProgrammableSplit(cells, offset, chunk, rest);
    NothingWritten(cells, offset, payload, false);
  }

  lemma {:induction false} PagesWritePrefix(cells: Bytes, offset: nat, payload: Bytes, page: nat, result: (Bytes, bool))
    returns (written: nat)
    requires page > 0 && offset + |payload| <= |cells| && result == ProgramPages(cells, offset, payload, page)
    ensures written == PagesWritten(cells, offset, payload, page)
    ensures written <= |payload| && WrotePrefix(cells, offset, payload, written, result)
    decreases |payload|
  {
    if payload == [] {
      NothingWritten(cells, offset, payload, true);
      return 0;
    }
    var chunk := NextPage(payload, page);
    var rest := payload[|chunk|..];
    assert payload == chunk + rest;
    ProgramFirstPage(cells, offset, payload, page);
    if !Programmable(cells, offset, chunk) {
      FirstPageFails(cells, offset, payload, chunk, rest);
      return 0;
    }
    var next := Overwrite(cells, offset, chunk);
    assert result == ProgramPages(next, offset + |chunk|, rest, page);
    var more := PagesWritePrefix(next, offset + |chunk|, rest, page, result);
    written := |chunk| + more;
    PrefixGrows(cells, offset, payload, chunk, rest, more, result);
  }

  /**
   Programming succeeds exactly when no byte of the payload sets a bit, whatever the page size, and then the
   payload stands at its place and nothing else has changed: a `verify` after it holds. When it fails, whole pages have
   been written up to the first one that would set a bit, and nothing else.
   */
  lemma ProgrammingIsExact(cells: Bytes, offset: nat, payload: Bytes, page: nat) returns (written: nat)
    requires page > 0 && offset + |payload| <= |cells|
    ensures written <= |payload|
    ensures WrotePrefix(cells, offset, payload, written, ProgramPages(cells, offset, payload, page))
    ensures !ProgramPages(cells, offset, payload, page).1 ==> StopsAt(cells, offset, payload, page, written)
  {
    written := PagesWritePrefix(cells, offset, payload, page, ProgramPages(cells, offset, payload, page));
    if !ProgramPages(cells, offset, payload, page).1 {
      FailureStopsAtPage(cells, offset, payload, page, written);
    }
  }

  lemma ProgrammingSucceeds(cells: Bytes, offset: nat, payload: Bytes, page: nat)
    requires page > 0 && offset + |payload| <= |cells| && Programmable(cells, offset, payload)
    ensures ProgramPages(cells, offset, payload, page) == (Overwrite(cells, offset, payload), true)
  {
    var written := ProgrammingIsExact(cells, offset, payload, page);
    assert payload[..|payload|] == payload;
  }

  lemma ProgramVerifies(cells: Bytes, offset: nat, payload: Bytes, page: nat)
    requires page > 0 && offset + |payload| <= |cells|
    ensures var (after, ok) := ProgramPages(cells, offset, payload, page);
      |after| == |cells| && (ok ==> after[offset..offset + |payload|] == payload)
  {
    var written := ProgrammingIsExact(cells, offset, payload, page);
    assert written == |payload| ==> payload[..written] == payload;
  }

  // ----- histories

  datatype FlashOp = Erase(offset: nat, size: nat) | Write(offset: nat, payload: Bytes)

  /** The cells after one request to the emulator; a write that does not fit is refused whole. */
  function Apply(cells: Bytes, op: FlashOp, page: nat, sector: nat): (r: Bytes)
    requires page > 0 && sector > 0
  {
    match op
    case Erase(offset, size) => EraseCells(cells, offset, offset + size, sector)
    case Write(offset, payload) =>
      if offset + |payload| > |cells| then cells else ProgramPages(cells, offset, payload, page).0
  }

  function ApplyAll(cells: Bytes, ops: seq<FlashOp>, page: nat, sector: nat): Bytes
    requires page > 0 && sector > 0
    decreases |ops|
  {
    if ops == [] then cells else ApplyAll(Apply(cells, ops[0], page, sector), ops[1..], page, sector)
  }

  /** Whether an erase reaches the sector of cell `i`: one that starts before its end and ends after its start. */
  predicate Covers(op: FlashOp, i: nat, sector: nat)
    requires sector > 0
  {
    op.Erase? && op.offset / sector <= i / sector && i / sector * sector < op.offset + op.size
  }

  lemma Times(k: nat, q: nat, m: nat)
    requires k <= q
    ensures k * m <= q * m
  {
  }

  /** A multiple of `m` is at most `i` exactly if its factor is at most the quotient of `i`. */
  lemma QuotientLeq(k: nat, i: nat, m: nat)
    requires m > 0
    ensures k * m <= i <==> k <= i / m
  {
    assert i == i / m * m + i % m;
    if k <= i / m {
      Times(k, i / m, m);
    } else {
      Times(i / m + 1, k, m);
      assert (i / m + 1) * m == i / m * m + m;
    }
  }

  /** Rounding up: `i` is below the next multiple after `end` exactly if its own sector starts before `end`. */
  lemma RoundedUp(end: nat, i: nat, m: nat)
    requires m > 0
    ensures i < (end + m - 1) / m * m <==> i / m * m < end
  {
    var e := (end + m - 1) / m;
    QuotientLeq(e, i, m);
    QuotientLeq(i / m + 1, end + m - 1, m);
    assert (i / m + 1) * m == i / m * m + m;
  }

  /** Exactly the sectors that the region touches are erased, and nothing else changes. */
  lemma ErasesWholeSectors(cells: Bytes, op: FlashOp, sector: nat, i: nat)
    requires op.Erase? && sector > 0 && i < |cells|
    ensures EraseCells(cells, op.offset, op.offset + op.size, sector)[i]
         == if Covers(op, i, sector) then ERASED_BYTE else cells[i]
  {
    QuotientLeq(op.offset / sector, i, sector);
    RoundedUp(op.offset + op.size, i, sector);
  }

  /** The first byte of a sector, and one behind its last. */
  lemma SectorBounds(i: nat, sector: nat)
    requires sector > 0
    ensures i / sector * sector <= i < i / sector * sector + sector
  {
    QuotientLeq(i / sector, i, sector);
    QuotientLeq(i / sector + 1, i, sector);
    assert (i / sector + 1) * sector == i / sector * sector + sector;
  }

  lemma SameSector(i: nat, j: nat, sector: nat)
    requires sector > 0 && i / sector * sector <= j < i / sector * sector + sector
    ensures j / sector == i / sector
  {
    QuotientLeq(i / sector, j, sector);
    QuotientLeq(i / sector + 1, j, sector);
    assert (i / sector + 1) * sector == i / sector * sector + sector;
  }

  /** A sector is touched by a region that is not empty exactly if it has a byte of it. */
  lemma CoversMeansTouches(op: FlashOp, i: nat, sector: nat)
    requires op.Erase? && op.size > 0 && sector > 0
    ensures Covers(op, i, sector) <==> exists j :: op.offset <= j < op.offset + op.size && j / sector == i / sector
  {
    if Covers(op, i, sector) {
      var j := TouchedByte(op, i, sector);
    }
    forall j | op.offset <= j < op.offset + op.size && j / sector == i / sector ensures Covers(op, i, sector) {
      TouchCovers(op, i, sector, j);
    }
  }

  lemma TouchedByte(op: FlashOp, i: nat, sector: nat) returns (j: nat)
    requires op.Erase? && op.size > 0 && sector > 0 && Covers(op, i, sector)
    ensures op.offset <= j < op.offset + op.size && j / sector == i / sector
  {
    var first := i / sector * sector;
    j := if op.offset <= first then first else op.offset;
    SectorBounds(op.offset, sector);
    if op.offset > first {
      Times(op.offset / sector, i / sector, sector);
    }
    SameSector(i, j, sector);
  }

  lemma TouchCovers(op: FlashOp, i: nat, sector: nat, j: nat)
    requires op.Erase? && sector > 0 && op.offset <= j < op.offset + op.size && j / sector == i / sector
    ensures Covers(op, i, sector)
  {
    SectorBounds(j, sector);
    SectorBounds(op.offset, sector);
    QuotientLeq(op.offset / sector, j, sector);
  }

  lemma WritingOnlyClears(cells: Bytes, offset: nat, payload: Bytes, page: nat, i: nat)
    requires page > 0 && offset + |payload| <= |cells| && i < |cells|
    ensures var after := ProgramPages(cells, offset, payload, page).0;
      |after| == |cells| && OnlyClears(cells[i], after[i])
  {
    var written := ProgrammingIsExact(cells, offset, payload, page);
    OverwritingOnlyClears(cells, offset, payload[..written], i);
  }

  lemma OverwritingOnlyClears(cells: Bytes, offset: nat, chunk: Bytes, i: nat)
    requires offset + |chunk| <= |cells| && i < |cells| && Programmable(cells, offset, chunk)
    ensures OnlyClears(cells[i], Overwrite(cells, offset, chunk)[i])
  {
    ClearsItself(cells[i]);
    AllClearMeansEach(cells[offset..offset + |chunk|], chunk);
    if offset <= i < offset + |chunk| {
      assert OnlyClears(cells[offset..offset + |chunk|][i - offset], chunk[i - offset]);
    }
  }

  lemma ApplyOnlyClears(cells: Bytes, op: FlashOp, page: nat, sector: nat, i: nat)
    requires page > 0 && sector > 0 && i < |cells|
    ensures var after := Apply(cells, op, page, sector);
      |after| == |cells|
      && if Covers(op, i, sector) then after[i] == ERASED_BYTE else OnlyClears(cells[i], after[i])
  {
    ClearsItself(cells[i]);
    if op.Erase? {
      ErasesWholeSectors(cells, op, sector, i);
    }
    if op.Write? && op.offset + |op.payload| <= |cells| {
      WritingOnlyClears(cells, op.offset, op.payload, page, i);
    }
  }

  /** Over any history, failed programmings included, a cell only loses bits as long as no erase covers its sector. */
  lemma {:induction false} CellsOnlyLoseBits(cells: Bytes, ops: seq<FlashOp>, page: nat, sector: nat, i: nat)
    requires page > 0 && sector > 0 && i < |cells|
    requires forall k | 0 <= k < |ops| :: !Covers(ops[k], i, sector)
    ensures |ApplyAll(cells, ops, page, sector)| == |cells|
    ensures OnlyClears(cells[i], ApplyAll(cells, ops, page, sector)[i])
    decreases |ops|
  {
    if ops == [] {
      ClearsItself(cells[i]);
    } else {
      var next := Apply(cells, ops[0], page, sector);
      ApplyOnlyClears(cells, ops[0], page, sector, i);
      assert forall k | 0 <= k < |ops[1..]| :: ops[1..][k] == ops[k + 1];
      CellsOnlyLoseBits(next, ops[1..], page, sector, i);
      ClearsTransitive(cells[i], next[i], ApplyAll(next, ops[1..], page, sector)[i]);
    }
  }
}
