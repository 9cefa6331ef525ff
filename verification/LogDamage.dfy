/** What damage to a log costs: reading starts again at the next block, and only records that touch the damaged block
    from the damage on are lost. */
module LogDamage {
  import opened Keys
  import opened Wire
  import opened Coding
  import opened Log

  // ----- starting at a block -----

  /** Where record `j` starts, before any zeros that end a block. */
  function Start(sum: Checksum, records: seq<Bytes>, j: nat): nat
    requires j <= |records|
  {
    |Written(sum, records[..j])|
  }

  /** How many records have their first header before `q`. */
  function StartedBefore(sum: Checksum, records: seq<Bytes>, q: nat): (j: nat)
    ensures j <= |records|
  {
    if records == [] then 0
    else
      var r := records[..|records| - 1];
      var p := |Written(sum, r)|;
      if p + Trailer(p) < q then |records| else StartedBefore(sum, r, q)
  }

  lemma {:induction false} StartedBeforeIs(sum: Checksum, records: seq<Bytes>, q: nat)
    ensures var j := StartedBefore(sum, records, q);
      && (j > 0 ==> Start(sum, records, j - 1) + Trailer(Start(sum, records, j - 1)) < q)
      && (j < |records| ==> Start(sum, records, j) + Trailer(Start(sum, records, j)) >= q)
  {
    hide Written;
    if records != [] {
      var r := records[..|records| - 1];
      var j := StartedBefore(sum, r, q);
      StartedBeforeIs(sum, r, q);
      assert j > 0 ==> r[..j - 1] == records[..j - 1];
      assert r[..j] == records[..j];
    }
  }

  /** The rest of a record whose beginning was not read is reported and passed over. */
  lemma {:induction false} RestSkipped(sum: Checksum, checks: bool, file: Bytes, p: nat, data: Bytes)
    returns (told: seq<Report>)
    requires Agrees(file, p, Fragments(sum, p, data, false)) && p + |Fragments(sum, p, data, false)| <= |file|
    ensures RecordFrom(sum, checks, file, p, None)
      == Reported(told, RecordFrom(sum, checks, file, p + |Fragments(sum, p, data, false)|, None))
    decreases |data|, if p % BLOCK == 0 then 0 else 1
  {
    hide PieceAt, NextFragment, Agrees, Fragments, Part, After, RecordFrom, Reported;
    var n, next, here := Part(p, |data|), After(p, |data|), NextFragment(sum, p, data, false);
    FragmentsUnfold(sum, p, data, false);
    FragmentSize(sum, p, data, false);
    EmptyFragment(p, |data|);
    if n == |data| {
      assert here + [] == here;
      NextFragmentBack(sum, checks, file, p, data, false);
      told := OneSkipped(sum, checks, file, p);
    } else {
      AgreesParts(file, p, here, Fragments(sum, next, data[n..], false));
      NextFragmentBack(sum, checks, file, p, data, false);
      var one := OneSkipped(sum, checks, file, p);
      var more := RestSkipped(sum, checks, file, next, data[n..]);
      told := one + more;
      ReportedTwice(one, more, RecordFrom(sum, checks, file, p + |Fragments(sum, p, data, false)|, None));
    }
  }

  /** A fragment that goes on with nothing begun is reported. */
  lemma OneSkipped(sum: Checksum, checks: bool, file: Bytes, p: nat) returns (told: seq<Report>)
    requires p <= |file| && PieceAt(sum, checks, file, p).Fragment?
    requires PieceAt(sum, checks, file, p).kind == MIDDLE || PieceAt(sum, checks, file, p).kind == LAST
    ensures |told| == 1 && told[0].bytes == |PieceAt(sum, checks, file, p).data|
    ensures RecordFrom(sum, checks, file, p, None)
      == Reported(told, RecordFrom(sum, checks, file, PieceAt(sum, checks, file, p).next, None))
  {
    hide PieceAt;
    var piece := PieceAt(sum, checks, file, p);
    told := StepOf(piece, None).reports;
    assert [] + told == told;
  }

  lemma ReportedTwice(a: seq<Report>, b: seq<Report>, o: Outcome)
    ensures Reported(a, Reported(b, o)) == Reported(a + b, o)
  {
    assert a + (b + o.reports) == a + b + o.reports;
  }

  /** Passing over the zeros makes no difference. */
  lemma AfterTrailer(sum: Checksum, checks: bool, file: Bytes, p: nat, q: nat)
    requires q <= |file| && p <= q <= p + Trailer(p) && q % BLOCK == 0
    ensures RecordFrom(sum, checks, file, p, None) == RecordFrom(sum, checks, file, q, None)
  {
    hide PieceAt;
    TrailerBack(sum, checks, file, p);
    TrailerEnds(p, q);
  }

  lemma TrailerEnds(p: nat, q: nat)
    requires p <= q <= p + Trailer(p) && q % BLOCK == 0
    ensures q == p + Trailer(p)
  {
  }

  lemma InOneBlock(p: nat, size: nat, q: nat)
    requires p + Trailer(p) < q && q % BLOCK == 0
    ensures After(p, size) <= q
  {
    BoundaryPast(p + Trailer(p), q);
  }

  lemma BoundaryPast(s: nat, q: nat)
    requires s < q && q % BLOCK == 0
    ensures s + Room(s) <= q
  {
    var a, b := s / BLOCK, q / BLOCK;
    assert s == BLOCK * a + s % BLOCK && q == BLOCK * b;
    assert a < b;
  }

  /** A block boundary inside a record: reading from there goes on behind the record. */
  lemma {:induction false} InsideRecord(sum: Checksum, checks: bool, file: Bytes, p: nat, data: Bytes, begin: bool,
          q: nat)
    returns (told: seq<Report>)
    requires Agrees(file, p, Fragments(sum, p, data, begin)) && p + |Fragments(sum, p, data, begin)| <= |file|
    requires p + Trailer(p) < q < p + |Fragments(sum, p, data, begin)| && q % BLOCK == 0
    ensures RecordFrom(sum, checks, file, q, None)
      == Reported(told, RecordFrom(sum, checks, file, p + |Fragments(sum, p, data, begin)|, None))
    decreases |data|, if p % BLOCK == 0 then 0 else 1
  {
    hide PieceAt, NextFragment, Agrees, Fragments, Part, After, RecordFrom, Trailer;
    var n, next, here := Part(p, |data|), After(p, |data|), NextFragment(sum, p, data, begin);
    FragmentsUnfold(sum, p, data, begin);
    FragmentSize(sum, p, data, begin);
    EmptyFragment(p, |data|);
    InOneBlock(p, |data|, q);
    var more := Fragments(sum, next, data[n..], false);
    assert n < |data| && |Fragments(sum, p, data, begin)| == |here| + |more|;
    AgreesParts(file, p, here, more);
    if next + Trailer(next) < q {
      told := InsideRecord(sum, checks, file, next, data[n..], false, q);
    } else {
      AfterTrailer(sum, checks, file, next, q);
      told := RestSkipped(sum, checks, file, next, data[n..]);
    }
  }

  lemma ReportsOnly(sum: Checksum, checks: bool, file: Bytes, p: nat, q: nat, told: seq<Report>)
    requires p <= |file| && q <= |file|
    requires RecordFrom(sum, checks, file, p, None) == Reported(told, RecordFrom(sum, checks, file, q, None))
    ensures RecordsFrom(sum, checks, file, p)
      == (RecordsFrom(sum, checks, file, q).0, told + RecordsFrom(sum, checks, file, q).1)
  {
    hide RecordFrom;
    var o := RecordFrom(sum, checks, file, q, None);
    if o.record.Some? {
      var rest := RecordsFrom(sum, checks, file, o.record.value.1);
      assert told + o.reports + rest.1 == told + (o.reports + rest.1);
    }
  }

  lemma RecordInside(sum: Checksum, records: seq<Bytes>, j: nat)
    requires j < |records|
    ensures var p := Start(sum, records, j);
      && Start(sum, records, j + 1) == p + |Fragments(sum, p, records[j], true)| <= |Written(sum, records)|
      && Agrees(Written(sum, records), p, Fragments(sum, p, records[j], true))
  {
    hide Fragments;
    var a := Written(sum, records[..j]);
    assert records[..j + 1][..j] == records[..j];
    WrittenPrefix(sum, records, j + 1);
    PrefixAgrees(Written(sum, records), Written(sum, records), a, Fragments(sum, |a|, records[j], true));
  }

  lemma FromStart(sum: Checksum, checks: bool, records: seq<Bytes>, j: nat)
    requires j <= |records|
    ensures Start(sum, records, j) <= |Written(sum, records)|
    ensures RecordsFrom(sum, checks, Written(sum, records), Start(sum, records, j)) == (records[j..], [])
  {
    hide RecordsFrom, Fragments;
    assert records[..|records|] == records;
    WrittenPrefix(sum, records, j);
    CutFrom(sum, checks, records, Written(sum, records), j, |records|);
    assert records[j..|records|] == records[j..];
  }

  /** Reading may start at any block: it gives exactly the records that start there or later, and reports the rest of
      one that started before. */
  lemma ReadsFromBlock(sum: Checksum, checks: bool, records: seq<Bytes>, q: nat)
    requires q % BLOCK == 0 && q <= |Written(sum, records)|
    ensures RecordsFrom(sum, checks, Written(sum, records), q).0 == records[StartedBefore(sum, records, q)..]
  {
    hide RecordsFrom, RecordFrom, Fragments, Agrees, Trailer, Written;
    var whole, j := Written(sum, records), StartedBefore(sum, records, q);
    StartedBeforeIs(sum, records, q);
    FromStart(sum, checks, records, j);
    var p := Start(sum, records, j);
    assert records[..|records|] == records;
    if p <= q {
      if j == |records| {
        assert p == q;
      } else {
        AfterTrailer(sum, checks, whole, p, q);
        NothingReported(RecordFrom(sum, checks, whole, p, None));
        ReportsOnly(sum, checks, whole, q, p, []);
      }
    } else {
      NoneBefore(sum, records);
      RecordInside(sum, records, j - 1);
      var told := InsideRecord(sum, checks, whole, Start(sum, records, j - 1), records[j - 1], true, q);
      ReportsOnly(sum, checks, whole, q, p, told);
    }
  }

  lemma NoneBefore(sum: Checksum, records: seq<Bytes>)
    ensures Start(sum, records, 0) == 0
  {
    assert records[..0] == [];
  }

  // ----- up to the damage -----

  /** From `p` on, with `size` bytes of a record to put out, some fragment starts at `q`, after `t` more bytes. */
  ghost predicate Reaches(p: nat, size: nat, q: nat, t: nat)
    decreases size, if p % BLOCK == 0 then 0 else 1
  {
    EmptyFragment(p, size);
    if q == p then t == 0
    else
      && Part(p, size) < size && Part(p, size) <= t
      && Reaches(After(p, size), size - Part(p, size), q, t - Part(p, size))
  }

  lemma {:induction false} ReachesOn(p: nat, size: nat, q: nat, t: nat)
    requires Reaches(p, size, q, t)
    ensures p <= q && t <= size && (q == p || After(p, size) <= q)
    decreases size, if p % BLOCK == 0 then 0 else 1
  {
    EmptyFragment(p, size);
    if q != p {
      ReachesOn(After(p, size), size - Part(p, size), q, t - Part(p, size));
    }
  }

  lemma {:induction false} ReachesInside(sum: Checksum, p: nat, data: Bytes, begin: bool, q: nat, t: nat)
    requires Reaches(p, |data|, q, t)
    ensures q - p <= |Fragments(sum, p, data, begin)|
    decreases |data|, if p % BLOCK == 0 then 0 else 1
  {
    hide NextFragment, Fragments, Part, After;
    if q != p {
      var n, next := Part(p, |data|), After(p, |data|);
      EmptyFragment(p, |data|);
      FragmentsUnfold(sum, p, data, begin);
      FragmentSize(sum, p, data, begin);
      ReachesInside(sum, next, data[n..], false, q, t - n);
    }
  }

  /** What the file has from `p` to `q` begins `b`. */
  ghost predicate SameUpTo(file: Bytes, p: nat, q: nat, b: Bytes) {
    p <= q <= |file| && q - p <= |b| && file[p..q] == b[..q - p]
  }

  lemma SameParts(file: Bytes, p: nat, q: nat, a: Bytes, b: Bytes)
    requires SameUpTo(file, p, q, a + b) && |a| <= q - p
    ensures Agrees(file, p, a) && SameUpTo(file, p + |a|, q, b)
  {
    forall i | 0 <= i < |a|
      ensures file[p + i] == a[i]
    {
      assert file[p..q][i] == (a + b)[..q - p][i];
    }
    assert file[p + |a|..q] == file[p..q][|a|..];
    assert (a + b)[..q - p][|a|..] == b[..q - p - |a|];
  }

  lemma OneBegun(sum: Checksum, checks: bool, file: Bytes, p: nat, scratch: Option<Bytes>)
    requires p <= |file| && PieceAt(sum, checks, file, p).Fragment?
    requires PieceAt(sum, checks, file, p).kind == if scratch == None then FIRST else MIDDLE
    ensures var piece := PieceAt(sum, checks, file, p);
      RecordFrom(sum, checks, file, p, scratch) == RecordFrom(sum, checks, file, piece.next,
        Some((if scratch.Some? then scratch.value else []) + piece.data))
  {
    hide PieceAt;
    var piece := PieceAt(sum, checks, file, p);
    assert [] + piece.data == piece.data;
    NothingReported(RecordFrom(sum, checks, file, piece.next, StepOf(piece, scratch).scratch));
  }

  /** Up to that fragment the record is put together without a report. */
  lemma {:induction false} ReadsUpTo(sum: Checksum, checks: bool, file: Bytes, p: nat, data: Bytes,
          scratch: Option<Bytes>, q: nat, t: nat)
    requires Reaches(p, |data|, q, t) && t <= |data|
    requires SameUpTo(file, p, q, Fragments(sum, p, data, scratch == None))
    ensures RecordFrom(sum, checks, file, p, scratch) == RecordFrom(sum, checks, file, q,
      if q == p then scratch else Some((if scratch.Some? then scratch.value else []) + data[..t]))
    decreases |data|, if p % BLOCK == 0 then 0 else 1
  {
    hide PieceAt, NextFragment, Agrees, Fragments, Part, After, RecordFrom;
    if q != p {
      var begin, n, next := scratch == None, Part(p, |data|), After(p, |data|);
      var here, had := NextFragment(sum, p, data, begin), if scratch.Some? then scratch.value else [];
      ReachesOn(p, |data|, q, t);
      FragmentsUnfold(sum, p, data, begin);
      FragmentSize(sum, p, data, begin);
      EmptyFragment(p, |data|);
      SameParts(file, p, q, here, Fragments(sum, next, data[n..], false));
      NextFragmentBack(sum, checks, file, p, data, begin);
      OneBegun(sum, checks, file, p, scratch);
      ReachesOn(next, |data| - n, q, t - n);
      ReadsUpTo(sum, checks, file, next, data[n..], Some(had + data[..n]), q, t - n);
      assert had + data[..n] + data[n..][..t - n] == had + data[..t];
    }
  }

  /** The records before are read as ever. */
  lemma {:induction false} FrontRead(sum: Checksum, checks: bool, records: seq<Bytes>, file: Bytes, k: nat, i: nat)
    requires k <= i <= |records| && Start(sum, records, i) <= |file|
    requires PrefixOf(file[..Start(sum, records, i)], Written(sum, records))
    ensures Start(sum, records, k) <= |file|
    ensures RecordsFrom(sum, checks, file, Start(sum, records, k))
      == Followed(records[k..i], [], RecordsFrom(sum, checks, file, Start(sum, records, i)))
    decreases i - k
  {
    hide RecordsFrom, RecordFrom, Fragments, Written;
    if k == i {
      NothingFollowed(RecordsFrom(sum, checks, file, Start(sum, records, i)));
      assert records[k..i] == [];
    } else {
      FrontRead(sum, checks, records, file, k + 1, i);
      RecordInside(sum, records, k);
      StartsGrow(sum, records, k + 1, i);
      var p, next := Start(sum, records, k), Start(sum, records, k + 1);
      FrontAgrees(sum, records, file, k, i);
      FragmentsBack(sum, checks, file, p, records[k], None);
      assert [] + records[k] == records[k];
      OneRead(sum, checks, file, p, records[k], next);
      assert [records[k]] + records[k + 1..i] == records[k..i];
      FollowedTwice(records[k], records[k + 1..i], RecordsFrom(sum, checks, file, Start(sum, records, i)));
    }
  }

  lemma OneRead(sum: Checksum, checks: bool, file: Bytes, p: nat, record: Bytes, next: nat)
    requires p < next <= |file| && RecordFrom(sum, checks, file, p, None) == Outcome(Some((record, next)), [])
    ensures RecordsFrom(sum, checks, file, p) == Followed([record], [], RecordsFrom(sum, checks, file, next))
  {
    hide RecordFrom;
  }

  lemma FollowedTwice(r: Bytes, more: seq<Bytes>, rest: (seq<Bytes>, seq<Report>))
    ensures Followed([r], [], Followed(more, [], rest)) == Followed([r] + more, [], rest)
  {
    var none: seq<Report> := [];
    assert [r] + (more + rest.0) == [r] + more + rest.0 && none + (none + rest.1) == none + rest.1;
  }

  lemma StartsGrow(sum: Checksum, records: seq<Bytes>, k: nat, i: nat)
    requires k <= i <= |records|
    ensures Start(sum, records, k) <= Start(sum, records, i)
  {
    WrittenGrows(sum, records, k, i);
  }

  lemma FrontAgrees(sum: Checksum, records: seq<Bytes>, file: Bytes, k: nat, i: nat)
    requires k < i <= |records| && Start(sum, records, i) <= |file|
    requires PrefixOf(file[..Start(sum, records, i)], Written(sum, records))
    ensures Start(sum, records, k) <= |file|
    ensures Agrees(file, Start(sum, records, k), Fragments(sum, Start(sum, records, k), records[k], true))
  {
    hide Fragments, Written, Agrees, PrefixOf, Start;
    RecordInside(sum, records, k);
    StartsGrow(sum, records, k + 1, i);
    var p := Start(sum, records, k);
    PrefixSame(file, Written(sum, records), Start(sum, records, i));
    AgreesInFront(file, Written(sum, records), Start(sum, records, i), p, Fragments(sum, p, records[k], true));
  }

  lemma PrefixSame(file: Bytes, whole: Bytes, n: nat)
    requires n <= |file| && PrefixOf(file[..n], whole)
    ensures n <= |whole| && file[..n] == whole[..n]
  {
  }

  lemma AgreesInFront(file: Bytes, whole: Bytes, n: nat, p: nat, b: Bytes)
    requires n <= |file| && n <= |whole| && file[..n] == whole[..n] && p + |b| <= n && Agrees(whole, p, b)
    ensures Agrees(file, p, b)
  {
    forall x | 0 <= x < |b| && p + x < |file|
      ensures file[p + x] == b[x]
    {
      assert file[..n][p + x] == whole[..n][p + x];
    }
  }

  // ----- behind the damage -----

  ghost predicate SameFrom(file: Bytes, whole: Bytes, q: nat) {
    |file| == |whole| && q <= |file| && file[q..] == whole[q..]
  }

  lemma SameLater(file: Bytes, whole: Bytes, q: nat, p: nat)
    requires SameFrom(file, whole, q) && q <= p <= |file|
    ensures SameFrom(file, whole, p)
  {
    assert file[p..] == file[q..][p - q..] && whole[p..] == whole[q..][p - q..];
  }

  lemma {:induction false} SamePiece(sum: Checksum, checks: bool, file: Bytes, whole: Bytes, p: nat)
    requires SameFrom(file, whole, p)
    ensures PieceAt(sum, checks, file, p) == PieceAt(sum, checks, whole, p)
    decreases |file| - p
  {
    hide Parsed;
    var e := BlockEnd(file, p);
    assert file[p..e] == file[p..][..e - p] && whole[p..e] == whole[p..][..e - p];
    if e - p < HEADER && !Short(file, p) {
      SameLater(file, whole, p, e);
      SamePiece(sum, checks, file, whole, e);
    }
  }

  lemma {:induction false} SameRecord(sum: Checksum, checks: bool, file: Bytes, whole: Bytes, p: nat,
          scratch: Option<Bytes>)
    requires SameFrom(file, whole, p)
    ensures RecordFrom(sum, checks, file, p, scratch) == RecordFrom(sum, checks, whole, p, scratch)
    decreases |file| - p
  {
    hide PieceAt, StepOf;
    SamePiece(sum, checks, file, whole, p);
    var piece := PieceAt(sum, checks, file, p);
    if !piece.Eof? {
      SameLater(file, whole, p, piece.next);
      SameRecord(sum, checks, file, whole, piece.next, StepOf(piece, scratch).scratch);
    }
  }

  lemma {:induction false} SameRecords(sum: Checksum, checks: bool, file: Bytes, whole: Bytes, p: nat)
    requires SameFrom(file, whole, p)
    ensures RecordsFrom(sum, checks, file, p) == RecordsFrom(sum, checks, whole, p)
    decreases |file| - p
  {
    hide RecordFrom;
    SameRecord(sum, checks, file, whole, p, None);
    var o := RecordFrom(sum, checks, file, p, None);
    if o.record.Some? {
      SameLater(file, whole, p, o.record.value.1);
      SameRecords(sum, checks, file, whole, o.record.value.1);
    }
  }

  // ----- the damage -----

  /** A bad fragment costs the rest of its block. */
  lemma {:induction false} BadEndsBlock(sum: Checksum, checks: bool, file: Bytes, p: nat)
    requires p <= |file| && PieceAt(sum, checks, file, p).Bad?
    ensures PieceAt(sum, checks, file, p).next % BLOCK == 0 || PieceAt(sum, checks, file, p).next == |file|
    decreases |file| - p
  {
    hide Parsed;
    var e := BlockEnd(file, p);
    if e - p >= HEADER {
      BlockEnds(file, p);
      BadNext(sum, checks, file[p..e], Short(file, p), p);
    } else if !Short(file, p) {
      BadEndsBlock(sum, checks, file, e);
    }
  }

  lemma BadNext(sum: Checksum, checks: bool, b: Bytes, short: bool, p: nat)
    requires |b| >= HEADER
    ensures Parsed(sum, checks, b, short, p).Bad? ==> Parsed(sum, checks, b, short, p).next == p + |b|
  {
  }

  lemma BlockEnds(file: Bytes, p: nat)
    ensures BlockEnd(file, p) == |file| || BlockEnd(file, p) % BLOCK == 0
  {
    var a := p / BLOCK;
    assert p == BLOCK * a + p % BLOCK;
    assert p + Room(p) == BLOCK * (a + 1);
  }

  lemma BadStep(sum: Checksum, file: Bytes, p: nat, scratch: Option<Bytes>) returns (told: seq<Report>)
    requires p <= |file| && PieceAt(sum, true, file, p).Bad?
    ensures var bad := PieceAt(sum, true, file, p);
      && RecordFrom(sum, true, file, p, scratch) == Reported(told, RecordFrom(sum, true, file, bad.next, None))
      && bad.reports <= told
  {
    hide PieceAt;
    var bad := PieceAt(sum, true, file, p);
    told := bad.reports + StepOf(bad, scratch).reports;
  }

  lemma AllStarted(sum: Checksum, records: seq<Bytes>)
    ensures StartedBefore(sum, records, |Written(sum, records)|) == |records|
  {
    hide Fragments;
    if records != [] {
      var j := |records| - 1;
      RecordInside(sum, records, j);
      assert records[..j + 1] == records;
      FirstHeaderInside(sum, Start(sum, records, j), records[j]);
    }
  }

  lemma FirstHeaderInside(sum: Checksum, p: nat, data: Bytes)
    ensures p + Trailer(p) < p + |Fragments(sum, p, data, true)|
  {
    FragmentsUnfold(sum, p, data, true);
    FragmentSize(sum, p, data, true);
  }

  /** In a log that was damaged in one place, where the reader finds a fragment of record `i` bad: all records before
      that one are read, and all that start behind the block; what is lost are the damaged record and those that start
      between. The damage is reported first. */
  lemma DamageContained(sum: Checksum, records: seq<Bytes>, file: Bytes, i: nat, p: nat, t: nat)
    requires i < |records| && Reaches(Start(sum, records, i), |records[i]|, p, t)
    requires |file| == |Written(sum, records)| && p <= |file| && file[..p] == Written(sum, records)[..p]
    requires var bad := PieceAt(sum, true, file, p); bad.Bad? && SameFrom(file, Written(sum, records), bad.next)
    ensures var bad, (read, told) := PieceAt(sum, true, file, p), RecordsFrom(sum, true, file, 0);
      && read == records[..i] + records[StartedBefore(sum, records, bad.next)..]
      && bad.reports <= told
  {
    hide RecordsFrom, RecordFrom, PieceAt, Fragments, Written, Reaches, Agrees, StartedBefore;
    var whole, first := Written(sum, records), Start(sum, records, i);
    var bad := PieceAt(sum, true, file, p);
    ReachesOn(first, |records[i]|, p, t);
    RecordInside(sum, records, i);
    assert file[..first] == file[..p][..first] && whole[..first] == whole[..p][..first];
    NoneBefore(sum, records);
    FrontRead(sum, true, records, file, 0, i);
    ReachesInside(sum, first, records[i], true, p, t);
    UpToDamage(file, whole, first, p, Fragments(sum, first, records[i], true));
    ReadsUpTo(sum, true, file, first, records[i], None, p, t);
    var told := BadStep(sum, file, p, if p == first then None else Some([] + records[i][..t]));
    ReportsOnly(sum, true, file, first, bad.next, told);
    SameRecords(sum, true, file, whole, bad.next);
    BadEndsBlock(sum, true, file, p);
    if bad.next == |file| {
      AllStarted(sum, records);
      FromStart(sum, true, records, |records|);
      assert records[..|records|] == records;
    } else {
      ReadsFromBlock(sum, true, records, bad.next);
    }
    assert records[0..i] == records[..i];
    var rest := RecordsFrom(sum, true, file, first).1;
    assert [] + rest == rest;
  }

  lemma UpToDamage(file: Bytes, whole: Bytes, p: nat, q: nat, b: Bytes)
    requires p <= q <= |file| && q <= |whole| && file[..q] == whole[..q] && q - p <= |b| && Agrees(whole, p, b)
    ensures SameUpTo(file, p, q, b)
  {
    forall x | 0 <= x < q - p
      ensures file[p..q][x] == b[..q - p][x]
    {
      assert file[..q][p + x] == whole[..q][p + x];
    }
  }
}
