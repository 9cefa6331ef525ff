/** The log file format: records cut into fragments that never cross a block, and the reader that puts them together
    again. */
module Log {
  import opened Keys
  import opened Wire
  import opened Coding

  const BLOCK := 32768
  const HEADER := 7

  const FULL: Byte := 1
  const FIRST: Byte := 2
  const MIDDLE: Byte := 3
  const LAST: Byte := 4

  // ----- the bytes of a record -----

  /** What is left of the block at file position `p`. */
  function Room(p: nat): nat {
    BLOCK - p % BLOCK
  }

  /** The zeros that fill a block with no room for a header. */
  function Trailer(p: nat): nat {
    if Room(p) < HEADER then Room(p) else 0
  }

  function Zeros(n: nat): Bytes {
    seq(n, _ => 0)
  }

  function Kind(begin: bool, end: bool): Byte {
    if begin && end then FULL else if begin then FIRST else if end then LAST else MIDDLE
  }

  function Physical(sum: Checksum, kind: Byte, data: Bytes): Bytes
    requires |data| <= 0xFFFF
  {
    Fixed32(sum([kind] + data)) + [|data| % 256, |data| / 256, kind] + data
  }

  /** How many bytes of a record with `size` to go are put into the next fragment, from file position `p`. */
  function Part(p: nat, size: nat): (n: nat)
    ensures n <= size && n <= 0xFFFF
  {
    var avail := Room(p + Trailer(p)) - HEADER;
    if size < avail then size else avail
  }

  /** That fragment, with the zeros before it. */
  function NextFragment(sum: Checksum, p: nat, data: Bytes, begin: bool): Bytes {
    var n := Part(p, |data|);
    Zeros(Trailer(p)) + Physical(sum, Kind(begin, n == |data|), data[..n])
  }

  /** Where that fragment ends. */
  function After(p: nat, size: nat): nat {
    p + Trailer(p) + HEADER + Part(p, size)
  }

  lemma FragmentSize(sum: Checksum, p: nat, data: Bytes, begin: bool)
    ensures p + |NextFragment(sum, p, data, begin)| == After(p, |data|)
  {
  }

  /** An empty fragment of a record that goes on ends a block, so the next one is not empty. */
  lemma EmptyFragment(p: nat, size: nat)
    ensures Part(p, size) == 0 < size ==> p % BLOCK != 0 && After(p, size) % BLOCK == 0
  {
  }

  /** What a record, or the rest of one, becomes at file position `p`. */
  function Fragments(sum: Checksum, p: nat, data: Bytes, begin: bool): Bytes
    decreases |data|, if p % BLOCK == 0 then 0 else 1
  {
    var n := Part(p, |data|);
    EmptyFragment(p, |data|);
    NextFragment(sum, p, data, begin) + if n == |data| then [] else Fragments(sum, After(p, |data|), data[n..], false)
  }

  /** The file after the records, one at a time. */
  function Written(sum: Checksum, records: seq<Bytes>): Bytes {
    if records == [] then []
    else
      var before := Written(sum, records[..|records| - 1]);
      before + Fragments(sum, |before|, records[|records| - 1], true)
  }

  lemma FragmentsUnfold(sum: Checksum, p: nat, data: Bytes, begin: bool)
    ensures var n := Part(p, |data|);
      Fragments(sum, p, data, begin)
      == NextFragment(sum, p, data, begin) + if n == |data| then []
        else Fragments(sum, After(p, |data|), data[n..], false)
  {
  }

  /** Having put out the next fragment, the rest is still to be put out. */
  lemma Emitted(sum: Checksum, was: Bytes, file: Bytes, rest: Bytes, begin: bool)
    requires file == was + NextFragment(sum, |was|, rest, begin)
    ensures var n := Part(|was|, |rest|);
      was + Fragments(sum, |was|, rest, begin) == file + if n == |rest| then []
        else Fragments(sum, |file|, rest[n..], false)
    ensures |file| == After(|was|, |rest|)
  {
    hide Part, Trailer, NextFragment, After, Fragments;
    FragmentSize(sum, |was|, rest, begin);
    FragmentsUnfold(sum, |was|, rest, begin);
    var n := Part(|was|, |rest|);
    Associate(was, NextFragment(sum, |was|, rest, begin),
      if n == |rest| then [] else Fragments(sum, |file|, rest[n..], false));
  }

  lemma Associate(a: Bytes, b: Bytes, c: Bytes)
    ensures a + (b + c) == a + b + c
  {
  }

  // ----- the writer -----

  class Writer {
    const sum: Checksum
    var file: Bytes
    var blockOffset: nat

    /** At a block's end the offset may read as the end of that block or as the start of the next. */
    ghost predicate Valid()
      reads this
    {
      blockOffset == |file| % BLOCK || (blockOffset == BLOCK && |file| % BLOCK == 0)
    }

    /** A new writer, or one that goes on where an earlier one stopped. */
    constructor (sum: Checksum, file: Bytes)
      ensures Valid() && this.sum == sum && this.file == file
    {
      this.sum := sum;
      this.file := file;
      blockOffset := |file| % BLOCK;
    }

    method AddRecord(data: Bytes)
      requires Valid()
      modifies this
      ensures Valid() && file == old(file) + Fragments(sum, |old(file)|, data, true)
    {
      hide Physical, Fragments;
      var rest, begin, end := data, true, false;
      while !end
        invariant Valid()
        invariant old(file) + Fragments(sum, |old(file)|, data, true) == file + if end then []
          else Fragments(sum, |file|, rest, begin)
        decreases if end then 0 else 1, |rest|, if |file| % BLOCK == 0 then 0 else 1
      {
        ghost var was, more, first := file, rest, begin;
        var leftover := BLOCK - blockOffset;
        if leftover < HEADER {
          file := file + Zeros(leftover);
          blockOffset := 0;
        }
        assert file == was + Zeros(Trailer(|was|)) && blockOffset == |file| % BLOCK;
        var avail := BLOCK - blockOffset - HEADER;
        var length := if |rest| < avail then |rest| else avail;
        assert length == Part(|was|, |rest|);
        end := |rest| == length;
        EmitPhysicalRecord(Kind(begin, end), rest[..length]);
        rest := rest[length..];
        begin := false;
        Emitted(sum, was, file, more, first);
        EmptyFragment(|was|, |more|);
      }
    }

    method EmitPhysicalRecord(kind: Byte, data: Bytes)
      requires blockOffset == |file| % BLOCK && |data| <= 0xFFFF && blockOffset + HEADER + |data| <= BLOCK
      modifies this
      ensures Valid() && file == old(file) + Physical(sum, kind, data)
    {
      var length := |data|;
      var header := Fixed32(sum([kind] + data)) + [length % 256, length / 256, kind];
      file := file + header;
      file := file + data;
      blockOffset := blockOffset + HEADER + length;
    }
  }

  // ----- the reader -----

  datatype Report = Report(bytes: nat, reason: string)

  /** A physical record, or why there is none; `next` is where reading goes on. */
  datatype Piece = Fragment(kind: Byte, data: Bytes, next: nat) | Bad(next: nat, reports: seq<Report>) | Eof

  /** Where the block of `p` ends, in the file. */
  function BlockEnd(file: Bytes, p: nat): nat {
    if p + Room(p) < |file| then p + Room(p) else |file|
  }

  /** The file ends inside the block of `p`. */
  predicate Short(file: Bytes, p: nat) {
    p + Room(p) > |file|
  }

  /** A block's unread bytes `b`, at least a header, parsed; they start at file position `p`. */
  function Parsed(sum: Checksum, checks: bool, b: Bytes, short: bool, p: nat): (r: Piece)
    requires |b| >= HEADER
    ensures r.Fragment? ==> p < r.next <= p + |b|
    ensures r.Bad? ==> r.next == p + |b|
  {
    var length := b[4] as int + 256 * b[5] as int;
    var kind := b[6];
    if HEADER + length > |b| then
      if short then Eof else Bad(p + |b|, [Report(|b|, "bad record length")])
    else if kind == 0 && length == 0 then Bad(p + |b|, [])
    else if checks && sum(b[6..HEADER + length]) != Number32(b[..4]) then
      Bad(p + |b|, [Report(|b|, "checksum mismatch")])
    else Fragment(kind, b[HEADER..HEADER + length], p + HEADER + length)
  }

  /** ReadPhysicalRecord at file position `p`: a block's end too short for a header is passed over. */
  function PieceAt(sum: Checksum, checks: bool, file: Bytes, p: nat): (r: Piece)
    requires p <= |file|
    ensures r.Fragment? ==> p < r.next <= |file|
    ensures r.Bad? ==> p < r.next <= |file|
    decreases |file| - p
  {
    var e := BlockEnd(file, p);
    if e - p >= HEADER then Parsed(sum, checks, file[p..e], Short(file, p), p)
    else if Short(file, p) then Eof
    else PieceAt(sum, checks, file, e)
  }

  /** A record and where reading goes on, or none before the end of the file; and what was reported on the way. */
  datatype Outcome = Outcome(record: Option<(Bytes, nat)>, reports: seq<Report>)

  function Reported(reports: seq<Report>, o: Outcome): Outcome {
    o.(reports := reports + o.reports)
  }

  /** The size of a record's beginning, if one was read. */
  function Size(scratch: Option<Bytes>): nat {
    if scratch.Some? then |scratch.value| else 0
  }

  function Partial(scratch: Option<Bytes>, reason: string): seq<Report> {
    if Size(scratch) > 0 then [Report(Size(scratch), reason)] else []
  }

  /** What was reported while the piece was read. */
  function Own(piece: Piece): seq<Report> {
    if piece.Bad? then piece.reports else []
  }

  /** What ReadRecord makes of one piece: the record is done, or there is a beginning of one, or nothing; and its
      reports. */
  datatype Step = Step(done: bool, scratch: Option<Bytes>, reports: seq<Report>)

  function StepOf(piece: Piece, scratch: Option<Bytes>): (r: Step)
    requires !piece.Eof?
    ensures r.done ==> r.scratch.Some?
  {
    match piece
    case Bad(_, _) =>
      Step(false, None, if scratch.Some? then [Report(|scratch.value|, "error in middle of record")] else [])
    case Fragment(kind, data, _) =>
      if kind == FULL then Step(true, Some(data), Partial(scratch, "partial record without end(1)"))
      else if kind == FIRST then Step(false, Some(data), Partial(scratch, "partial record without end(2)"))
      else if kind == MIDDLE then
        if scratch.Some? then Step(false, Some(scratch.value + data), [])
        else Step(false, None, [Report(|data|, "missing start of fragmented record(1)")])
      else if kind == LAST then
        if scratch.Some? then Step(true, Some(scratch.value + data), [])
        else Step(false, None, [Report(|data|, "missing start of fragmented record(2)")])
      else Step(false, None, [Report(|data| + Size(scratch), "unknown record type")])
  }

  /** ReadRecord from file position `p`, with the beginning of a record already read or not. */
  function RecordFrom(sum: Checksum, checks: bool, file: Bytes, p: nat, scratch: Option<Bytes>): (r: Outcome)
    requires p <= |file|
    ensures r.record.Some? ==> p < r.record.value.1 <= |file|
    decreases |file| - p
  {
    var piece := PieceAt(sum, checks, file, p);
    if piece.Eof? then Outcome(None, [])
    else
      var step := StepOf(piece, scratch);
      if step.done then Outcome(Some((step.scratch.value, piece.next)), Own(piece) + step.reports)
      else Reported(Own(piece) + step.reports, RecordFrom(sum, checks, file, piece.next, step.scratch))
  }

  lemma NothingReported(o: Outcome)
    ensures Reported([], o) == o
  {
  }

  /** One piece further on, with `told` reported before it. */
  lemma RecordStep(sum: Checksum, checks: bool, file: Bytes, p: nat, scratch: Option<Bytes>, told: seq<Report>)
    requires p <= |file|
    ensures var piece, all := PieceAt(sum, checks, file, p), Reported(told, RecordFrom(sum, checks, file, p, scratch));
      if piece.Eof? then all == Outcome(None, told)
      else
        var step := StepOf(piece, scratch);
        var now := told + (Own(piece) + step.reports);
        if step.done then all == Outcome(Some((step.scratch.value, piece.next)), now)
        else all == Reported(now, RecordFrom(sum, checks, file, piece.next, step.scratch))
  {
    hide PieceAt, StepOf;
    var piece := PieceAt(sum, checks, file, p);
    if !piece.Eof? {
      var step := StepOf(piece, scratch);
      if !step.done {
        var rest := RecordFrom(sum, checks, file, piece.next, step.scratch).reports;
        assert told + (Own(piece) + step.reports + rest) == told + (Own(piece) + step.reports) + rest;
      }
    }
  }

  /** `n` bytes are left of the block that was read last, up to `at`. */
  ghost predicate Buffered(file: Bytes, n: nat, at: nat, eof: bool) {
    if eof then at == |file| && n <= |file| % BLOCK else at % BLOCK == 0 && n <= BLOCK
  }

  class Reader {
    const sum: Checksum
    const checks: bool
    const file: Bytes
    var at: nat
    var buffer: Bytes
    var eof: bool
    var reports: seq<Report>

    /** The buffer is the unread part of the block that was read last; a short read has met the end of the file. */
    ghost predicate Valid()
      reads this
    {
      |buffer| <= at <= |file| && buffer == file[at - |buffer|..at] && Buffered(file, |buffer|, at, eof)
    }

    /** The file position of the next unread byte. */
    function Pos(): nat
      requires |buffer| <= at
      reads this
    {
      at - |buffer|
    }

    constructor (sum: Checksum, checks: bool, file: Bytes)
      ensures Valid() && Pos() == 0 && reports == [] && this.sum == sum && this.checks == checks && this.file == file
    {
      this.sum := sum;
      this.checks := checks;
      this.file := file;
      at, buffer, eof, reports := 0, [], false, [];
    }

    /** The next block of the file into the buffer. */
    method ReadBlock()
      requires at <= |file| && at % BLOCK == 0
      modifies this
      ensures Valid() && Pos() == old(at) && reports == old(reports) && old(at) <= at
      ensures old(at) < at || eof
    {
      hide Buffered;
      var e := if at + BLOCK < |file| then at + BLOCK else |file|;
      BlockRead(file, at, e);
      buffer := file[at..e];
      eof := e - at < BLOCK;
      at := e;
    }

    /** The refilling half of ReadPhysicalRecord: false at the end of the file. */
    method Refill() returns (more: bool)
      requires Valid()
      modifies this
      ensures Valid() && reports == old(reports) && (more <==> |buffer| >= HEADER)
      ensures var piece := PieceAt(sum, checks, file, old(Pos()));
        if more then piece == Parsed(sum, checks, buffer, eof, Pos()) else piece == Eof && Pos() == |file|
    {
      hide PieceAt, Parsed, Buffered;
      ghost var piece := PieceAt(sum, checks, file, Pos());
      while |buffer| < HEADER
        invariant Valid() && reports == old(reports)
        invariant piece == PieceAt(sum, checks, file, Pos())
        decreases if eof then 0 else 1, |file| - at
      {
        if eof {
          TornHeader(sum, checks, file, Pos(), at);
          buffer := [];
          return false;
        }
        NextBlock(sum, checks, file, Pos(), at);
        ReadBlock();
      }
      WholeHeader(sum, checks, file, Pos(), at, eof);
      more := true;
    }

    /** ReadPhysicalRecord */
    method ReadPhysicalRecord() returns (r: Piece)
      requires Valid()
      modifies this
      ensures Valid() && r == PieceAt(sum, checks, file, old(Pos()))
      ensures Pos() == if r.Eof? then |file| else r.next
      ensures reports == old(reports) + if r.Bad? then r.reports else []
    {
      hide PieceAt;
      var more := Refill();
      if !more {
        return Eof;
      }
      var length := buffer[4] as int + 256 * buffer[5] as int;
      var kind := buffer[6];
      var drop := |buffer|;
      if HEADER + length > |buffer| {
        buffer := [];
        if !eof {
          reports := reports + [Report(drop, "bad record length")];
          return Bad(at, [Report(drop, "bad record length")]);
        }
        return Eof;
      }
      if kind == 0 && length == 0 {
        buffer := [];
        return Bad(at, []);
      }
      if checks {
        if sum(buffer[6..HEADER + length]) != Number32(buffer[..4]) {
          buffer := [];
          reports := reports + [Report(drop, "checksum mismatch")];
          return Bad(at, [Report(drop, "checksum mismatch")]);
        }
      }
      r := Fragment(kind, buffer[HEADER..HEADER + length], at - |buffer| + HEADER + length);
      buffer := buffer[HEADER + length..];
    }

    /** The body of ReadRecord's loop, with a piece read. */
    method TakePiece(piece: Piece, inFragment: bool, scratch: Bytes)
      returns (done: bool, inFragment': bool, scratch': Bytes)
      requires !piece.Eof?
      modifies this`reports
      ensures var step := StepOf(piece, if inFragment then Some(scratch) else None);
        && done == step.done && (if inFragment' then Some(scratch') else None) == step.scratch
        && reports == old(reports) + step.reports
    {
      done, inFragment', scratch' := false, inFragment, scratch;
      match piece {
        case Bad(_, _) =>
          if inFragment {
            reports := reports + [Report(|scratch|, "error in middle of record")];
            inFragment', scratch' := false, [];
          }
        case Fragment(kind, data, _) =>
          if kind == FULL {
            if inFragment && |scratch| > 0 {
              reports := reports + [Report(|scratch|, "partial record without end(1)")];
            }
            return true, true, data;
          } else if kind == FIRST {
            if inFragment && |scratch| > 0 {
              reports := reports + [Report(|scratch|, "partial record without end(2)")];
            }
            inFragment', scratch' := true, data;
          } else if kind == MIDDLE {
            if !inFragment {
              reports := reports + [Report(|data|, "missing start of fragmented record(1)")];
            } else {
              scratch' := scratch + data;
            }
          } else if kind == LAST {
            if !inFragment {
              reports := reports + [Report(|data|, "missing start of fragmented record(2)")];
            } else {
              return true, true, scratch + data;
            }
          } else {
            reports := reports + [Report(|data| + if inFragment then |scratch| else 0, "unknown record type")];
            inFragment', scratch' := false, [];
          }
      }
    }

    /** ReadRecord: false at the end of the file, whatever has been read of a record then being dropped without a
        report. */
    method ReadRecord() returns (ok: bool, record: Bytes, ghost told: seq<Report>)
      requires Valid()
      modifies this
      ensures Valid() && reports == old(reports) + told
      ensures RecordFrom(sum, checks, file, old(Pos()), None)
        == Outcome(if ok then Some((record, Pos())) else None, told)
      ensures !ok ==> Pos() == |file|
    {
      hide PieceAt, StepOf, RecordFrom, Reported;
      NothingReported(RecordFrom(sum, checks, file, Pos(), None));
      var inFragment, scratch := false, [];
      told := [];
      record := [];
      while true
        invariant Valid() && reports == old(reports) + told
        invariant RecordFrom(sum, checks, file, old(Pos()), None)
          == Reported(told, RecordFrom(sum, checks, file, Pos(), if inFragment then Some(scratch) else None))
        decreases |file| - Pos()
      {
        RecordStep(sum, checks, file, Pos(), if inFragment then Some(scratch) else None, told);
        var piece := ReadPhysicalRecord();
        if piece.Eof? {
          ok := false;
          return;
        }
        ghost var step := StepOf(piece, if inFragment then Some(scratch) else None);
        ghost var more := Own(piece) + step.reports;
        ok, inFragment, scratch := TakePiece(piece, inFragment, scratch);
        told := told + more;
        if ok {
          record := scratch;
          return;
        }
      }
    }
  }

  /** What is in the buffer is what is left of a block. */
  lemma BufferIsBlock(file: Bytes, p: nat, at: nat, eof: bool)
    requires p < at <= |file| && Buffered(file, at - p, at, eof)
    ensures BlockEnd(file, p) == at && Short(file, p) == eof
  {
    if eof {
      SameBlock(p, at);
    } else {
      SameBlock(p, at - 1);
    }
  }

  lemma SameBlock(p: nat, q: nat)
    requires p <= q && q - p <= q % BLOCK
    ensures p % BLOCK == q % BLOCK - (q - p)
  {
    var k := q / BLOCK;
    assert q == BLOCK * k + q % BLOCK;
    assert p == BLOCK * k + (q % BLOCK - (q - p));
  }

  lemma BlockRead(file: Bytes, at: nat, e: nat)
    requires at <= |file| && at % BLOCK == 0 && e == if at + BLOCK < |file| then at + BLOCK else |file|
    ensures Buffered(file, e - at, e, e - at < BLOCK)
  {
  }

  /** Fewer bytes than a header at the end of a block are passed over. */
  lemma NextBlock(sum: Checksum, checks: bool, file: Bytes, p: nat, at: nat)
    requires p <= at <= |file| && Buffered(file, at - p, at, false) && at - p < HEADER
    ensures PieceAt(sum, checks, file, p) == PieceAt(sum, checks, file, at) && at % BLOCK == 0
  {
    if p < at {
      BufferIsBlock(file, p, at, false);
    }
  }

  lemma WholeHeader(sum: Checksum, checks: bool, file: Bytes, p: nat, at: nat, eof: bool)
    requires p + HEADER <= at <= |file| && Buffered(file, at - p, at, eof)
    ensures PieceAt(sum, checks, file, p) == Parsed(sum, checks, file[p..at], eof, p)
  {
    BufferIsBlock(file, p, at, eof);
  }

  /** Fewer bytes than a header at the end of the file are no record. */
  lemma TornHeader(sum: Checksum, checks: bool, file: Bytes, p: nat, at: nat)
    requires p <= at <= |file| && Buffered(file, at - p, at, true) && at - p < HEADER
    ensures PieceAt(sum, checks, file, p) == Eof && at == |file| && Buffered(file, 0, at, true)
  {
    if p < at {
      BufferIsBlock(file, p, at, true);
    }
  }

  // ----- reading back what was written -----

  /** The file has the bytes `b` at `p`, as far as it goes. */
  ghost predicate Agrees(file: Bytes, p: nat, b: Bytes) {
    p <= |file| && forall i :: 0 <= i < |b| && p + i < |file| ==> file[p + i] == b[i]
  }

  lemma AgreesParts(file: Bytes, p: nat, a: Bytes, b: Bytes)
    requires Agrees(file, p, a + b)
    ensures Agrees(file, p, a) && (p + |a| <= |file| ==> Agrees(file, p + |a|, b))
  {
    forall i | 0 <= i < |a| && p + i < |file|
      ensures file[p + i] == a[i]
    {
      assert (a + b)[i] == a[i];
    }
    forall i | 0 <= i < |b| && p + |a| + i < |file|
      ensures file[p + |a| + i] == b[i]
    {
      assert (a + b)[|a| + i] == b[i];
    }
  }

  lemma HeaderBack(sum: Checksum, checks: bool, kind: Byte, data: Bytes, b: Bytes, short: bool, p: nat)
    requires |data| <= 0xFFFF && kind != 0 && |b| >= HEADER && Agrees(b, 0, Physical(sum, kind, data))
    requires |b| >= HEADER + |data| || short
    ensures Parsed(sum, checks, b, short, p)
      == if |b| >= HEADER + |data| then Fragment(kind, data, p + HEADER + |data|) else Eof
  {
    var n, d := |data|, Physical(sum, kind, data);
    hide Number32, Fixed32;
    Fixed32RoundTrip(sum([kind] + data));
    assert d[4] == n % 256 && d[5] == n / 256 && d[6] == kind && d[..4] == Fixed32(sum([kind] + data));
    assert b[4] == d[4] && b[5] == d[5] && b[6] == d[6];
    if |b| >= HEADER + n {
      assert forall i :: 0 <= i < |d| ==> b[0 + i] == d[i];
      assert b[..HEADER + n] == d;
      assert b[..4] == d[..4] && b[6..HEADER + n] == d[6..] && b[HEADER..HEADER + n] == d[HEADER..];
      assert d[6..] == [kind] + data && d[HEADER..] == data;
    }
  }

  /** At the header of a fragment: it is read back if the file has all of it, and is the end of the file if not. */
  lemma PhysicalBack(sum: Checksum, checks: bool, file: Bytes, q: nat, kind: Byte, data: Bytes)
    requires Room(q) >= HEADER + |data| && kind != 0 && Agrees(file, q, Physical(sum, kind, data))
    ensures PieceAt(sum, checks, file, q)
      == if q + HEADER + |data| <= |file| then Fragment(kind, data, q + HEADER + |data|) else Eof
  {
    hide Physical, Parsed;
    var e := BlockEnd(file, q);
    if e - q >= HEADER {
      var b := file[q..e];
      forall i | 0 <= i < |Physical(sum, kind, data)| && 0 + i < |b|
        ensures b[0 + i] == Physical(sum, kind, data)[i]
      {
        assert b[i] == file[q + i];
      }
      HeaderBack(sum, checks, kind, data, b, Short(file, q), q);
    }
  }

  /** The zeros before a header are passed over. */
  lemma TrailerBack(sum: Checksum, checks: bool, file: Bytes, p: nat)
    requires p <= |file|
    ensures var q := p + Trailer(p);
      PieceAt(sum, checks, file, p) == if q <= |file| then PieceAt(sum, checks, file, q) else Eof
  {
    hide Parsed;
  }

  lemma NextFragmentBack(sum: Checksum, checks: bool, file: Bytes, p: nat, data: Bytes, begin: bool)
    requires Agrees(file, p, NextFragment(sum, p, data, begin))
    ensures var n, next := Part(p, |data|), After(p, |data|);
      PieceAt(sum, checks, file, p) == if next <= |file| then Fragment(Kind(begin, n == |data|), data[..n], next)
        else Eof
  {
    hide PieceAt, Physical;
    var n, q := Part(p, |data|), p + Trailer(p);
    AgreesParts(file, p, Zeros(Trailer(p)), Physical(sum, Kind(begin, n == |data|), data[..n]));
    TrailerBack(sum, checks, file, p);
    if q <= |file| {
      PhysicalBack(sum, checks, file, q, Kind(begin, n == |data|), data[..n]);
    }
  }

  /** A record, or the rest of one, is read back if the file has all of it; if not, reading ends without a report. */
  lemma {:induction false} FragmentsBack(sum: Checksum, checks: bool, file: Bytes, p: nat, data: Bytes,
          scratch: Option<Bytes>)
    requires Agrees(file, p, Fragments(sum, p, data, scratch == None))
    ensures var end := p + |Fragments(sum, p, data, scratch == None)|;
      RecordFrom(sum, checks, file, p, scratch)
      == Outcome(if end <= |file| then Some(((if scratch.Some? then scratch.value else []) + data, end)) else None, [])
    decreases |data|, if p % BLOCK == 0 then 0 else 1
  {
    hide PieceAt, NextFragment, Agrees, Fragments, Part, After;
    var begin, n, next := scratch == None, Part(p, |data|), After(p, |data|);
    var here, had := NextFragment(sum, p, data, begin), if scratch.Some? then scratch.value else [];
    FragmentsUnfold(sum, p, data, begin);
    FragmentSize(sum, p, data, begin);
    EmptyFragment(p, |data|);
    if n == |data| {
      assert here + [] == here && data[..n] == data;
      assert had + data == if scratch.Some? then had + data else data;
      NextFragmentBack(sum, checks, file, p, data, begin);
    } else {
      var more := Fragments(sum, next, data[n..], false);
      AgreesParts(file, p, here, more);
      NextFragmentBack(sum, checks, file, p, data, begin);
      if next <= |file| {
        FragmentsBack(sum, checks, file, next, data[n..], Some(had + data[..n]));
        assert had + data[..n] + data[n..] == had + data;
        assert [] + data[..n] == data[..n];
      }
    }
  }

  /** All records from file position `p` on, and all reports. */
  function RecordsFrom(sum: Checksum, checks: bool, file: Bytes, p: nat): (seq<Bytes>, seq<Report>)
    requires p <= |file|
    decreases |file| - p
  {
    var o := RecordFrom(sum, checks, file, p, None);
    if o.record.None? then ([], o.reports)
    else
      var (records, reports) := RecordsFrom(sum, checks, file, o.record.value.1);
      ([o.record.value.0] + records, o.reports + reports)
  }

  function Followed(records: seq<Bytes>, reports: seq<Report>, rest: (seq<Bytes>, seq<Report>)): (seq<Bytes>,
          seq<Report>)
  {
    (records + rest.0, reports + rest.1)
  }

  lemma RecordsStep(sum: Checksum, checks: bool, file: Bytes, p: nat, records: seq<Bytes>, reports: seq<Report>)
    requires p <= |file|
    ensures var o, all := RecordFrom(sum, checks, file, p, None),
      Followed(records, reports, RecordsFrom(sum, checks, file, p));
      match o.record
      case None => all == (records, reports + o.reports)
      case Some((record, next)) =>
        all == Followed(records + [record], reports + o.reports, RecordsFrom(sum, checks, file, next))
  {
    hide RecordFrom;
    var o := RecordFrom(sum, checks, file, p, None);
    if o.record.Some? {
      var rest := RecordsFrom(sum, checks, file, o.record.value.1);
      assert records + ([o.record.value.0] + rest.0) == records + [o.record.value.0] + rest.0;
      assert reports + (o.reports + rest.1) == reports + o.reports + rest.1;
    } else {
      assert records + [] == records;
    }
  }

  /** RecoverLogFile's loop over a log. */
  method ReadAll(reader: Reader) returns (records: seq<Bytes>)
    requires reader.Valid() && reader.Pos() == 0 && reader.reports == []
    modifies reader
    ensures (records, reader.reports) == RecordsFrom(reader.sum, reader.checks, reader.file, 0)
  {
    hide RecordFrom, RecordsFrom, Followed;
    records := [];
    NothingFollowed(RecordsFrom(reader.sum, reader.checks, reader.file, 0));
    while true
      invariant reader.Valid()
      invariant RecordsFrom(reader.sum, reader.checks, reader.file, 0)
        == Followed(records, reader.reports, RecordsFrom(reader.sum, reader.checks, reader.file, reader.Pos()))
      decreases |reader.file| - reader.Pos()
    {
      RecordsStep(reader.sum, reader.checks, reader.file, reader.Pos(), records, reader.reports);
      var ok, record, _ := reader.ReadRecord();
      if !ok {
        return;
      }
      records := records + [record];
    }
  }

  lemma NothingFollowed(rest: (seq<Bytes>, seq<Report>))
    ensures Followed([], [], rest) == rest
  {
    assert [] + rest.0 == rest.0 && [] + rest.1 == rest.1;
  }

  ghost predicate PrefixOf(file: Bytes, whole: Bytes) {
    |file| <= |whole| && file == whole[..|file|]
  }

  /** How many of the records a file of `size` bytes has whole. */
  function Whole(sum: Checksum, records: seq<Bytes>, size: nat): (k: nat)
    ensures k <= |records|
  {
    if records == [] then 0
    else if |Written(sum, records)| <= size then |records|
    else Whole(sum, records[..|records| - 1], size)
  }

  lemma {:induction false} WholeFits(sum: Checksum, records: seq<Bytes>, size: nat)
    ensures var k := Whole(sum, records, size);
      k <= |records| && |Written(sum, records[..k])| <= size
        && (k < |records| ==> |Written(sum, records[..k + 1])| > size)
  {
    hide Fragments;
    if records == [] || |Written(sum, records)| <= size {
      assert records[..|records|] == records;
    } else {
      var rs := records[..|records| - 1];
      WholeFits(sum, rs, size);
      var k := Whole(sum, rs, size);
      assert records[..k] == rs[..k];
      if k < |rs| {
        assert records[..k + 1] == rs[..k + 1];
      } else {
        assert records[..k + 1] == records;
      }
    }
  }

  /** The file after `k` records begins the file after more. */
  lemma {:induction false} WrittenPrefix(sum: Checksum, records: seq<Bytes>, k: nat)
    requires k <= |records|
    ensures PrefixOf(Written(sum, records[..k]), Written(sum, records))
  {
    hide Fragments;
    if k == |records| {
      assert records[..k] == records;
    } else {
      var rs := records[..|records| - 1];
      WrittenPrefix(sum, rs, k);
      assert rs[..k] == records[..k];
    }
  }

  lemma PrefixAgrees(file: Bytes, whole: Bytes, a: Bytes, b: Bytes)
    requires PrefixOf(file, whole) && PrefixOf(a + b, whole) && |a| <= |file|
    ensures Agrees(file, |a|, b)
  {
    forall i | 0 <= i < |b| && |a| + i < |file|
      ensures file[|a| + i] == b[i]
    {
      assert (a + b)[|a| + i] == b[i];
    }
  }

  lemma {:induction false} CutFrom(sum: Checksum, checks: bool, records: seq<Bytes>, file: Bytes, i: nat, k: nat)
    requires PrefixOf(file, Written(sum, records)) && i <= k <= |records| && |Written(sum, records[..k])| <= |file|
    requires k < |records| ==> |Written(sum, records[..k + 1])| > |file|
    requires |Written(sum, records[..i])| <= |file|
    ensures RecordsFrom(sum, checks, file, |Written(sum, records[..i])|) == (records[i..k], [])
    decreases |records| - i
  {
    hide RecordFrom, RecordsFrom, Fragments;
    var a := Written(sum, records[..i]);
    if i < |records| {
      var b := Fragments(sum, |a|, records[i], true);
      assert records[..i + 1][..i] == records[..i];
      assert Written(sum, records[..i + 1]) == a + b;
      WrittenPrefix(sum, records, i + 1);
      PrefixAgrees(file, Written(sum, records), a, b);
      FragmentsBack(sum, checks, file, |a|, records[i], None);
      assert [] + records[i] == records[i];
      if i < k {
        WrittenGrows(sum, records, i + 1, k);
        CutFrom(sum, checks, records, file, i + 1, k);
        OneMore(sum, checks, file, |a|, records, i, k, |a + b|);
      } else {
        NoMore(sum, checks, file, |a|, records, k);
      }
    } else {
      AtEnd(sum, checks, file, records);
      NoMore(sum, checks, file, |a|, records, k);
    }
  }

  lemma OneMore(sum: Checksum, checks: bool, file: Bytes, p: nat, records: seq<Bytes>, i: nat, k: nat, next: nat)
    requires p < next <= |file| && i < k <= |records|
    requires RecordFrom(sum, checks, file, p, None) == Outcome(Some((records[i], next)), [])
    requires RecordsFrom(sum, checks, file, next) == (records[i + 1..k], [])
    ensures RecordsFrom(sum, checks, file, p) == (records[i..k], [])
  {
    hide RecordFrom;
    var none: seq<Report> := [];
    assert none + none == none && [records[i]] + records[i + 1..k] == records[i..k];
  }

  lemma NoMore(sum: Checksum, checks: bool, file: Bytes, p: nat, records: seq<Bytes>, k: nat)
    requires p <= |file| && k <= |records| && RecordFrom(sum, checks, file, p, None) == Outcome(None, [])
    ensures RecordsFrom(sum, checks, file, p) == (records[k..k], [])
  {
    assert records[k..k] == [];
  }

  lemma WrittenGrows(sum: Checksum, records: seq<Bytes>, i: nat, k: nat)
    requires i <= k <= |records|
    ensures |Written(sum, records[..i])| <= |Written(sum, records[..k])|
  {
    WrittenPrefix(sum, records[..k], i);
    assert records[..k][..i] == records[..i];
  }

  lemma AtEnd(sum: Checksum, checks: bool, file: Bytes, records: seq<Bytes>)
    requires PrefixOf(file, Written(sum, records)) && |Written(sum, records[..|records|])| <= |file|
    ensures RecordFrom(sum, checks, file, |Written(sum, records[..|records|])|, None) == Outcome(None, [])
  {
    assert records[..|records|] == records;
  }

  /** A log of any records, cut at any byte, reads back as the records it has whole, with nothing reported. */
  lemma CutLogReadsBack(sum: Checksum, checks: bool, records: seq<Bytes>, file: Bytes)
    requires PrefixOf(file, Written(sum, records))
    ensures RecordsFrom(sum, checks, file, 0) == (records[..Whole(sum, records, |file|)], [])
  {
    hide RecordsFrom;
    WholeFits(sum, records, |file|);
    assert records[..0] == [] && Written(sum, []) == [];
    CutFrom(sum, checks, records, file, 0, Whole(sum, records, |file|));
  }

  /** A log that was not cut reads back whole. */
  lemma LogReadsBack(sum: Checksum, checks: bool, records: seq<Bytes>)
    ensures RecordsFrom(sum, checks, Written(sum, records), 0) == (records, [])
  {
    hide RecordsFrom, Fragments;
    var file := Written(sum, records);
    CutLogReadsBack(sum, checks, records, file);
    WholeFits(sum, records, |file|);
    assert records[..|records|] == records;
  }
}
