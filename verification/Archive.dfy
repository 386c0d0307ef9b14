/** RLP list framing (Appendix B of the Ethereum Yellow Paper) as the archive reader sees it. */
module Rlp {
  import opened Transactions

  type Byte = x: nat | x < 256

  function BigEndian(n: nat): seq<Byte> { if n == 0 then [] else BigEndian(n / 256) + [n % 256] }

  function FromBytes(s: seq<Byte>): nat { if s == [] then 0 else 256 * FromBytes(s[..|s| - 1]) + s[|s| - 1] }

  lemma {:induction false} FromBigEndian(n: nat)
    ensures FromBytes(BigEndian(n)) == n
    ensures n > 0 ==> BigEndian(n) != []
  {
    if n > 0 {
      FromBigEndian(n / 256);
      assert BigEndian(n)[..|BigEndian(n)| - 1] == BigEndian(n / 256);
    }
  }

  function Pow256(k: nat): (p: nat)
    ensures p > 0
  {
    if k == 0 then 1 else 256 * Pow256(k - 1)
  }

  lemma {:induction false} BigEndianLength(n: nat, k: nat)
    requires n < Pow256(k)
    ensures |BigEndian(n)| <= k
    decreases k
  {
    if n > 0 && k > 0 { BigEndianLength(n / 256, k - 1); }
  }

  /** The prefix of a list with a payload of `n` bytes. */
  function Header(n: nat): seq<Byte>
    requires n < TWO64
  {
    if n < 56 then [0xc0 + n]
    else
      LengthFits(n);
      [0xf7 + |BigEndian(n)|] + BigEndian(n)
  }

  lemma LengthFits(n: nat)
    requires n < TWO64
    ensures |BigEndian(n)| <= 8 && (n > 0 ==> 1 <= |BigEndian(n)|)
  {
    assert Pow256(8) == TWO64;
    BigEndianLength(n, 8);
    FromBigEndian(n);
  }

  function EncodeList(payload: seq<Byte>): seq<Byte>
    requires |payload| < TWO64
  {
    Header(|payload|) + payload
  }

  /** An encoded list that fits a slice. */
  ghost predicate IsList(e: seq<Byte>) {
    exists payload :: |payload| < TWO64 && |EncodeList(payload)| < TWO63 && e == EncodeList(payload)
  }

  /** Header and payload size announced by the first bytes; None if they are missing or do not start a list. */
  function Declared(input: seq<Byte>): Option<(nat, nat)> {
    if input == [] || input[0] < 0xc0 then None
    else if input[0] <= 0xf7 then Some((1, input[0] - 0xc0))
    else
      var n := input[0] - 0xf7;
      if |input| < 1 + n then None else Some((1 + n, FromBytes(input[1..1 + n])))
  }

  /** The prefixes by the numbers: one byte up to 55, then the length of the length and the length itself. */
  lemma HeadersByNumbers()
    ensures Header(0) == [0xc0] && Header(55) == [0xf7] && Header(56) == [0xf8, 56]
    ensures Header(255) == [0xf8, 255] && Header(256) == [0xf9, 1, 0] && Header(65536) == [0xfa, 1, 0, 0]
  {
    assert BigEndian(56) == [56] && BigEndian(255) == [255];
    assert BigEndian(256) == [1, 0] && BigEndian(65536) == [1, 0, 0];
  }

  /** A reader recognises the prefix of every list, whatever follows it. */
  lemma DeclaredSize(n: nat, rest: seq<Byte>)
    requires n < TWO64
    ensures Declared(Header(n) + rest) == Some((|Header(n)|, n))
  {
    hide BigEndian, FromBytes;
    if n >= 56 {
      LengthFits(n);
      FromBigEndian(n);
      assert (Header(n) + rest)[1..1 + |BigEndian(n)|] == BigEndian(n);
    }
  }

  function Concat(items: seq<seq<Byte>>): seq<Byte> {
    if items == [] then [] else items[0] + Concat(items[1..])
  }

  lemma {:induction false} ConcatAppend(a: seq<seq<Byte>>, b: seq<seq<Byte>>)
    ensures Concat(a + b) == Concat(a) + Concat(b)
  {
    if a == [] {
      assert a + b == b;
    } else {
      assert (a + b)[1..] == a[1..] + b;
      ConcatAppend(a[1..], b);
    }
  }

  lemma ConcatOne(x: seq<Byte>)
    ensures Concat([x]) == x
  {
    assert [x][1..] == [];
  }
}

/** The reader of an archive file (archive/restore.go). */
module ArchiveReader {
  import opened Transactions
  import opened Rlp

  /** How much of `input` a read of `n` bytes gets. */
  function Available(input: seq<Byte>, n: nat): nat { if n <= |input| then n else |input| }

  /** `Loaded` gives the size announced; a panic ends the program. */
  datatype Load = End | Failed | Panicked | Loaded(size: nat)

  class BlockStream {
    var input: seq<Byte>
    var buffer: array<Byte>

    constructor (input: seq<Byte>)
      ensures this.input == input && fresh(buffer) && buffer.Length == 1024
    {
      this.input := input;
      buffer := new Byte[1024](i => 0);
    }

    /**
     Makes room for `size` bytes and keeps the first `keep` of them. A size that is negative as a signed integer
     panics.
     */
    method ReserveCap(size: nat, ghost keep: nat) returns (panics: bool)
      requires keep <= buffer.Length && size < TWO64
      modifies `buffer
      ensures panics <==> size >= TWO63
      ensures !panics ==> buffer.Length >= size
      ensures buffer.Length >= old(buffer.Length) && (buffer == old(buffer) || fresh(buffer))
      ensures buffer[..keep] == old(buffer[..keep])
    {
      panics := size >= TWO63;
      if !panics && size > buffer.Length {
        var current, bigger := buffer, new Byte[size](i => 0);
        for i := 0 to current.Length
          invariant bigger[..i] == current[..i]
        {
          bigger[i] := current[i];
        }
        assert bigger[..keep] == bigger[..current.Length][..keep];
        buffer := bigger;
      }
    }

    /** Reads up to `n` bytes to offset `at`; reports the end of the input only when nothing at all is left. */
    method Read(at: nat, n: nat) returns (got: nat, eof: bool)
      requires at + n <= buffer.Length
      modifies `input, buffer
      ensures got == Available(old(input), n) && eof == (n > 0 && old(input) == [])
      ensures input == old(input)[got..]
      ensures buffer[..at] == old(buffer[..at]) && buffer[at..at + got] == old(input)[..got]
    {
      got := if n <= |input| then n else |input|;
      eof := n > 0 && |input| == 0;
      for i := 0 to got
        invariant input == old(input) && buffer == old(buffer)
        invariant buffer[..at] == old(buffer[..at]) && buffer[at..at + i] == input[..i]
      {
        buffer[at + i] := input[i];
      }
      input := input[got..];
    }

    /** Reads the size announced by a list prefix. None when the bytes do not announce a list. */
    method LoadPrefixSize() returns (r: Option<(nat, nat)>)
      requires buffer.Length >= 1024 && input != []
      modifies `input, `buffer, buffer
      ensures buffer.Length >= 1024 && (buffer == old(buffer) || fresh(buffer))
      ensures r == Declared(old(input))
      ensures r.Some? ==>
                && 1 <= r.value.0 <= |old(input)| && r.value.0 <= 9
                && input == old(input)[r.value.0..] && buffer[..r.value.0] == old(input)[..r.value.0]
    {
      var got, eof := Read(0, 1);
      assert buffer[0] == buffer[0..1][0] == old(input)[0];
      var prefix := buffer[0];
      if prefix < 0xc0 { return None; }
      if prefix <= 0xf7 { return Some((1, prefix - 0xc0)); }
      var n := prefix - 0xf7;
      var panics := ReserveCap(1 + n, 1);
      got, eof := Read(1, n);
      if eof || got < n { return None; }
      assert buffer[..1 + n] == buffer[..1] + buffer[1..1 + n];
      assert old(input)[..1 + n] == old(input)[..1] + old(input)[1..][..n];
      assert buffer[1..1 + n] == old(input)[1..1 + n];
      r := Some((1 + n, FromBytes(buffer[1..1 + n])));
    }

    /** The announced list is too long for a slice. */
    static predicate TooLong(bytes: seq<Byte>) {
      Declared(bytes).Some? && Declared(bytes).value.0 + Declared(bytes).value.1 >= TWO63
    }

    /**
     What loading the next list comes to: it fails if no list starts here, or if its payload is announced and missing
     altogether.
     */
    static function Outcome(bytes: seq<Byte>): Load {
      if bytes == [] then End
      else if Declared(bytes).None? then Failed
      else
        var (header, payload) := Declared(bytes).value;
        if TooLong(bytes) then Panicked
        else if payload > 0 && |bytes| == header then Failed
        else Loaded(header + payload)
    }

    /** Loads the next list into the buffer; header and payload size are added as 64-bit integers. */
    method LoadRlpArray() returns (r: Load)
      requires buffer.Length >= 1024
      modifies `input, `buffer, buffer
      ensures buffer.Length >= 1024 && (buffer == old(buffer) || fresh(buffer))
      ensures r == Outcome(old(input))
      ensures r.End? ==> input == []
      ensures r.Loaded? ==>
                && 0 < r.size <= buffer.Length && old(input) != []
                && var got := Available(old(input), r.size);
                && input == old(input)[got..] && buffer[..got] == old(input)[..got]
    {
      hide Declared;
      if |input| == 0 { return End; }
      ghost var start := input;
      var declared := LoadPrefixSize();
      if declared.None? { return Failed; }
      var (header, payload) := declared.value;
      PayloadFits(start);
      var size := if header + payload < TWO64 then header + payload else header + payload - TWO64;
      var panics := ReserveCap(size, header);
      if panics || size < header { return Panicked; }
      var got, eof := Read(header, payload);
      if eof { return Failed; }
      assert buffer[..header + got] == buffer[..header] + buffer[header..header + got];
      Spliced(start, header, got);
      return Loaded(size);
    }

    /** Loads all lists up to the end of the input. */
    method LoadAll(ghost items: seq<seq<Byte>>) returns (loaded: seq<seq<Byte>>, r: Load)
      requires buffer.Length >= 1024
      modifies `input, `buffer, buffer
      ensures !r.Loaded?
      ensures (forall x :: x in items ==> IsList(x)) && old(input) == Concat(items) ==> r == End && loaded == items
    {
      hide IsList, Concat, Outcome;
      loaded := [];
      ghost var framed := (forall x :: x in items ==> IsList(x)) && input == Concat(items);
      ghost var left := items;
      while true
        invariant buffer.Length >= 1024 && (buffer == old(buffer) || fresh(buffer))
        invariant framed ==> input == Concat(left) && loaded + left == items && forall x :: x in left ==> IsList(x)
        decreases |input|
      {
        if framed { if left != [] { FrameOf(left); } else { NothingLeft(); } }
        r := LoadRlpArray();
        if !r.Loaded? { return; }
        loaded := loaded + [buffer[..r.size]];
        if framed { left := left[1..]; }
      }
    }
  }

  lemma Spliced(s: seq<Byte>, i: nat, n: nat)
    requires i + n <= |s|
    ensures s[..i + n] == s[..i] + s[i..][..n] && s[i + n..] == s[i..][n..]
  {
  }

  /** At most eight bytes announce a size. */
  lemma PayloadFits(bytes: seq<Byte>)
    requires Declared(bytes).Some?
    ensures Declared(bytes).value.0 <= 9 && Declared(bytes).value.1 < TWO64
  {
    if bytes[0] > 0xf7 {
      assert Pow256(8) == TWO64;
      BytesBelow(bytes[1..1 + (bytes[0] - 0xf7)], 8);
    }
  }

  lemma {:induction false} BytesBelow(s: seq<Byte>, k: nat)
    requires |s| <= k
    ensures FromBytes(s) < Pow256(k)
    decreases k
  {
    if s != [] { BytesBelow(s[..|s| - 1], k - 1); }
  }

  /**
   The prefix decides: a list too long for a slice makes the reader panic, and only an empty rest is noticed as
   missing.
   */
  lemma PrefixDecides(n: nat, rest: seq<Byte>)
    requires n < TWO64
    ensures BlockStream.Outcome(Header(n) + rest) ==
            if |Header(n)| + n >= TWO63 then Panicked
            else if n > 0 && rest == [] then Failed
            else Loaded(|Header(n)| + n)
  {
    DeclaredSize(n, rest);
  }

  lemma NothingLeft()
    ensures Concat([]) == [] && BlockStream.Outcome([]) == End
  {
  }

  lemma ListOutcome(payload: seq<Byte>, rest: seq<Byte>)
    requires |payload| < TWO64 && |EncodeList(payload)| < TWO63
    ensures BlockStream.Outcome(EncodeList(payload) + rest) == Loaded(|EncodeList(payload)|)
  {
    PrefixDecides(|payload|, payload + rest);
    hide Header, BlockStream.Outcome;
    var header := Header(|payload|);
    assert header + payload + rest == header + (payload + rest);
  }

  lemma Front(a: seq<Byte>, b: seq<Byte>)
    ensures (a + b)[..|a|] == a && (a + b)[|a|..] == b
  {
  }

  /** The first list of a concatenation is framed exactly, so loading it leaves the others. */
  lemma FrameOf(items: seq<seq<Byte>>)
    requires items != [] && IsList(items[0])
    ensures var input := Concat(items);
            && BlockStream.Outcome(input) == Loaded(|items[0]|) && |items[0]| <= |input|
            && input[..|items[0]|] == items[0] && input[|items[0]|..] == Concat(items[1..])
  {
    var payload :| |payload| < TWO64 && |EncodeList(payload)| < TWO63 && items[0] == EncodeList(payload);
    var rest := Concat(items[1..]);
    assert Concat(items) == items[0] + rest;
    hide Concat;
    ListOutcome(payload, rest);
    Front(items[0], rest);
  }

  /**
   A file cut off inside a list: the cut is noticed exactly when no byte of the payload is there. Otherwise the list is
   loaded with whatever the buffer held before in place of the missing bytes.
   */
  lemma CutIsNoticedExactly(payload: seq<Byte>, cut: nat)
    requires |payload| < TWO64 && |EncodeList(payload)| < TWO63 && 0 < cut < |EncodeList(payload)|
    ensures var r := BlockStream.Outcome(EncodeList(payload)[..cut]);
            if cut <= |Header(|payload|)| then r == Failed else r == Loaded(|EncodeList(payload)|)
  {
    var n, header := |payload|, Header(|payload|);
    var part := EncodeList(payload)[..cut];
    if cut >= |header| {
      assert part == header + payload[..cut - |header|];
      PrefixDecides(n, payload[..cut - |header|]);
    } else {
      LengthFits(n);
      assert part[0] == header[0];
    }
  }
}

/** The writer of the export stream (server/system_service.go) and the receiver that files it (archive/backup.go). */
module ArchiveWriter {
  import opened Transactions
  import opened Rlp
  import opened ArchiveReader

  const MAX_HEADER_INFO_SIZE: nat := 24

  datatype Block = Block(number: nat, encoding: seq<Byte>)

  datatype ExportEvent = ExportEvent(from: nat, to: nat, data: seq<Byte>)

  function Encodings(blocks: seq<Block>): seq<seq<Byte>> {
    seq(|blocks|, i requires 0 <= i < |blocks| => blocks[i].encoding)
  }

  function Bytes(blocks: seq<Block>): seq<Byte> { Concat(Encodings(blocks)) }

  lemma BytesAppend(a: seq<Block>, b: seq<Block>)
    ensures Bytes(a + b) == Bytes(a) + Bytes(b)
  {
    assert Encodings(a + b) == Encodings(a) + Encodings(b);
    ConcatAppend(Encodings(a), Encodings(b));
  }

  lemma BytesOne(b: Block)
    ensures Bytes([b]) == b.encoding
  {
    assert Encodings([b]) == [b.encoding];
    ConcatOne(b.encoding);
  }

  /**
   One event carries these blocks: their bytes, the first and the last height, within the limit unless it is one
   block.
   */
  ghost predicate Carries(e: ExportEvent, blocks: seq<Block>, maxPayload: nat) {
    && blocks != []
    && e.data == Bytes(blocks)
    && e.from == blocks[0].number && e.to == blocks[|blocks| - 1].number
    && (|blocks| == 1 || MAX_HEADER_INFO_SIZE + |e.data| < maxPayload)
  }

  /** The events carry the parts, in order. */
  ghost predicate CarriesAll(events: seq<ExportEvent>, parts: seq<seq<Block>>, maxPayload: nat) {
    |events| == |parts| && forall i :: 0 <= i < |events| ==> Carries(events[i], parts[i], maxPayload)
  }

  function Flatten(parts: seq<seq<Block>>): seq<Block> {
    if parts == [] then [] else Flatten(parts[..|parts| - 1]) + parts[|parts| - 1]
  }

  function Sent(events: seq<ExportEvent>): seq<Byte> {
    if events == [] then [] else Sent(events[..|events| - 1]) + events[|events| - 1].data
  }

  /** The chunks concatenate to the encodings of all blocks. */
  lemma {:induction false} SentIsEverything(events: seq<ExportEvent>, parts: seq<seq<Block>>, maxPayload: nat)
    requires CarriesAll(events, parts, maxPayload)
    ensures Sent(events) == Bytes(Flatten(parts))
  {
    if events != [] {
      var n := |events| - 1;
      SentIsEverything(events[..n], parts[..n], maxPayload);
      BytesAppend(Flatten(parts[..n]), parts[n]);
    }
  }

  ghost predicate Consecutive(blocks: seq<Block>) {
    forall i :: 0 <= i < |blocks| ==> blocks[i].number == blocks[0].number + i
  }

  /** The ranges of the events tile the heights: each starts one above the end of the one before. */
  lemma RangesTile(events: seq<ExportEvent>, parts: seq<seq<Block>>, maxPayload: nat, i: nat)
    requires CarriesAll(events, parts, maxPayload) && Consecutive(Flatten(parts)) && i < |events|
    ensures events[i].from <= events[i].to
    ensures i == 0 ==> events[i].from == Flatten(parts)[0].number
    ensures i + 1 < |events| ==> events[i + 1].from == events[i].to + 1
    ensures i + 1 == |events| ==> events[i].to == Flatten(parts)[|Flatten(parts)| - 1].number
  {
    var at := Offset(parts, i);
    assert Carries(events[i], parts[i], maxPayload);
    PartAt(parts, i, 0);
    PartAt(parts, i, |parts[i]| - 1);
    if i + 1 < |events| {
      assert Carries(events[i + 1], parts[i + 1], maxPayload);
      PartAt(parts, i + 1, 0);
    } else {
      assert parts[..i] + [parts[i]] == parts;
    }
  }

  /** Where part `i` starts. */
  function Offset(parts: seq<seq<Block>>, i: nat): nat
    requires i <= |parts|
  {
    if i == 0 then 0 else Offset(parts, i - 1) + |parts[i - 1]|
  }

  lemma {:induction false} PartAt(parts: seq<seq<Block>>, i: nat, j: nat)
    requires i < |parts| && j < |parts[i]|
    ensures Offset(parts, i) + |parts[i]| <= |Flatten(parts)|
    ensures Flatten(parts)[Offset(parts, i) + j] == parts[i][j]
    decreases |parts|
  {
    var n := |parts| - 1;
    OffsetIsLength(parts, n);
    if i < n {
      PartAt(parts[..n], i, j);
      OffsetOfPrefix(parts, n, i);
    }
  }

  lemma {:induction false} OffsetOfPrefix(parts: seq<seq<Block>>, n: nat, i: nat)
    requires i <= n <= |parts|
    ensures Offset(parts[..n], i) == Offset(parts, i)
  {
    if i > 0 { OffsetOfPrefix(parts, n, i - 1); }
  }

  lemma {:induction false} OffsetIsLength(parts: seq<seq<Block>>, n: nat)
    requires n <= |parts|
    ensures |Flatten(parts[..n])| == Offset(parts, n)
  {
    if n > 0 {
      OffsetIsLength(parts, n - 1);
      assert parts[..n][..n - 1] == parts[..n - 1];
    }
  }

  class BlockStreamWriter {
    var buf: seq<Byte>
    var pendingFrom: Option<nat>
    var pendingTo: Option<nat>
    const maxPayload: nat
    /** What was sent. */
    var stream: seq<ExportEvent>
    /** The blocks of each event sent, and those in the buffer. */
    ghost var parts: seq<seq<Block>>
    ghost var pending: seq<Block>

    ghost predicate Valid()
      reads this
    {
      && CarriesAll(stream, parts, maxPayload)
      && buf == Bytes(pending)
      && (pending == [] ==> pendingFrom == None && pendingTo == None)
      && (pending != [] ==>
            && buf != [] && pendingFrom == Some(pending[0].number) && pendingTo == Some(pending[|pending| - 1].number)
            && (|pending| == 1 || MAX_HEADER_INFO_SIZE + |buf| < maxPayload))
    }

    /** Everything appended so far. */
    ghost function Blocks(): seq<Block>
      reads this
    {
      Flatten(parts) + pending
    }

    constructor (maxPayload: nat)
      ensures Valid() && Blocks() == [] && this.maxPayload == maxPayload
    {
      this.maxPayload := maxPayload;
      buf, pendingFrom, pendingTo, stream, parts, pending := [], None, None, [], [], [];
    }

    /** Sends the buffer as one event; an empty buffer sends nothing. */
    method Flush()
      requires Valid()
      modifies this
      ensures Valid() && pending == [] && Blocks() == old(Blocks())
    {
      if |buf| == 0 { return; }
      var event := ExportEvent(pendingFrom.value, pendingTo.value, buf);
      stream := stream + [event];
      parts := parts + [pending];
      assert parts[..|parts| - 1] == old(parts);
      assert Flatten(parts) == Flatten(old(parts)) + old(pending);
      buf, pendingFrom, pendingTo, pending := [], None, None, [];
    }

    /** Adds a block, after sending the buffer if the block would not fit. */
    method AppendBlock(b: Block)
      requires Valid() && b.encoding != []
      modifies this
      ensures Valid() && Blocks() == old(Blocks()) + [b]
      ensures MAX_HEADER_INFO_SIZE + |old(buf)| + |b.encoding| < maxPayload ==> stream == old(stream)
    {
      if MAX_HEADER_INFO_SIZE + |buf| + |b.encoding| >= maxPayload { Flush(); }
      BytesAppend(pending, [b]);
      BytesOne(b);
      assert Flatten(parts) + (pending + [b]) == Flatten(parts) + pending + [b];
      buf := buf + b.encoding;
      if pendingFrom.None? { pendingFrom := Some(b.number); }
      pendingTo := Some(b.number);
      pending := pending + [b];
    }
  }

  /** The chain's blocks by height. */
  type Heights = map<nat, seq<Byte>>

  /** The blocks of the heights `from` up to, but without, `end`. */
  function BlocksBetween(chain: Heights, from: nat, end: nat): seq<Block>
    requires from <= end && forall i :: from <= i < end ==> i in chain
  {
    seq(end - from, i requires 0 <= i < end - from => Block(from + i, chain[from + i]))
  }

  /** The first height from `from` on that is missing or beyond `last`. */
  function StopAt(chain: Heights, from: nat, last: nat): (end: nat)
    ensures from <= end && (end == from || end <= last + 1)
    ensures (forall i :: from <= i < end ==> i in chain) && (end > last || end !in chain)
    decreases last + 1 - from
  {
    if from > last || from !in chain then from else StopAt(chain, from + 1, last)
  }

  lemma StopStep(chain: Heights, i: nat, last: nat)
    ensures StopAt(chain, i, last) == if i > last || i !in chain then i else StopAt(chain, i + 1, last)
  {
  }

  ghost predicate Encoded(chain: Heights) { forall i :: i in chain ==> IsList(chain[i]) }

  lemma EncodedAt(chain: Heights, i: nat)
    requires Encoded(chain) && i in chain
    ensures chain[i] != [] && IsList(chain[i])
  {
    assert IsList(chain[i]);
  }

  lemma BetweenStep(chain: Heights, from: nat, end: nat)
    requires from <= end && (forall i :: from <= i < end ==> i in chain) && end in chain
    ensures BlocksBetween(chain, from, end + 1) == BlocksBetween(chain, from, end) + [Block(end, chain[end])]
  {
  }

  lemma EncodingsAreLists(chain: Heights, from: nat, end: nat)
    requires Encoded(chain) && from <= end && (forall i :: from <= i < end ==> i in chain)
    ensures forall x :: x in Encodings(BlocksBetween(chain, from, end)) ==> IsList(x)
  {
  }

  /**
   Exports the heights from `from` to `to`, or to the head `latest` when `to` is zero, and stops at the first missing
   height. The events carry exactly those blocks in order.
   */
  method Export(chain: Heights, latest: nat, from: nat, to: nat, maxPayload: nat)
    returns (events: Option<seq<ExportEvent>>, ghost parts: seq<seq<Block>>)
    requires Encoded(chain)
    ensures events.None? <==> to != 0 && from >= to
    ensures events.Some? ==>
              && CarriesAll(events.value, parts, maxPayload)
              && Flatten(parts) == BlocksBetween(chain, from, StopAt(chain, from, if to == 0 then latest else to))
  {
    parts := [];
    if to != 0 && from >= to { return None, parts; }
    var writer := new BlockStreamWriter(maxPayload);
    AppendBlocks(writer, chain, from, if to == 0 then latest else to);
    writer.Flush();
    assert writer.Blocks() == Flatten(writer.parts);
    return Some(writer.stream), writer.parts;
  }

  method AppendBlocks(writer: BlockStreamWriter, chain: Heights, from: nat, last: nat)
    requires Encoded(chain) && writer.Valid() && writer.Blocks() == []
    modifies writer
    ensures writer.Valid() && writer.Blocks() == BlocksBetween(chain, from, StopAt(chain, from, last))
  {
    assert BlocksBetween(chain, from, from) == [];
    hide Encoded, IsList, CarriesAll, Flatten, BlocksBetween, Bytes, StopAt;
    var i := from;
    while i <= last
      invariant writer.Valid()
      invariant from <= i && (forall j :: from <= j < i ==> j in chain)
      invariant StopAt(chain, i, last) == StopAt(chain, from, last)
      invariant writer.Blocks() == BlocksBetween(chain, from, i)
      decreases last + 1 - i
    {
      StopStep(chain, i, last);
      if i !in chain { break; }
      EncodedAt(chain, i);
      BetweenStep(chain, from, i);
      writer.AppendBlock(Block(i, chain[i]));
      i := i + 1;
    }
    StopStep(chain, i, last);
  }

  /** Files the events in order and reports the range they cover. */
  method Receive(events: seq<ExportEvent>) returns (file: seq<Byte>, range: Option<(nat, nat)>)
    ensures file == Sent(events)
    ensures range == if events == [] then None else Some((events[0].from, events[|events| - 1].to))
  {
    file, range := [], None;
    for i := 0 to |events|
      invariant file == Sent(events[..i])
      invariant range == if i == 0 then None else Some((events[0].from, events[i - 1].to))
    {
      assert events[..i + 1][..i] == events[..i];
      file := file + events[i].data;
      range := Some((if range.None? then events[i].from else range.value.0, events[i].to));
    }
    assert events[..|events|] == events;
  }

  /**
   What is exported, filed and loaded again is exactly the chain's encodings in order, for every chain and every
   payload limit.
   */
  method ExportThenRestore(chain: Heights, latest: nat, from: nat, to: nat, maxPayload: nat)
    returns (restored: seq<seq<Byte>>)
    requires Encoded(chain) && (to == 0 || from < to)
    ensures restored == Encodings(BlocksBetween(chain, from, StopAt(chain, from, if to == 0 then latest else to)))
  {
    hide IsList, CarriesAll, Sent, Flatten, Concat;
    var events, parts := Export(chain, latest, from, to, maxPayload);
    ghost var end := StopAt(chain, from, if to == 0 then latest else to);
    EncodingsAreLists(chain, from, end);
    hide Encoded, BlocksBetween;
    var file, range := Receive(events.value);
    SentIsEverything(events.value, parts, maxPayload);
    var reader := new BlockStream(file);
    var last;
    restored, last := reader.LoadAll(Encodings(BlocksBetween(chain, from, end)));
  }
}
