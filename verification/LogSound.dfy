/** Whatever the bytes of a log: with checksums on, a record that is read is one that its fragments spell out. */
module LogSound {
  import opened Keys
  import opened Wire
  import opened Coding
  import opened Log

  /** From `p` to `q` the file has one fragment, behind the zeros that end a block: its checksum, its length, its kind
      and its data. */
  ghost predicate FragmentAt(sum: Checksum, file: Bytes, p: nat, q: nat, kind: Byte, data: Bytes) {
    var s := p + Trailer(p);
    && q == s + HEADER + |data| && q <= |file| && |data| <= 0xFFFF
    && file[s..q] == Fixed32(sum([kind] + data)) + [|data| % 256, |data| / 256, kind] + data
  }

  /** From `p` to `q` the file has the beginning of a record: a first fragment and then middle ones. */
  ghost predicate Begun(sum: Checksum, file: Bytes, p: nat, q: nat, data: Bytes)
    decreases q
  {
    || FragmentAt(sum, file, p, q, FIRST, data)
    || exists m: nat, n: nat ::
         m < q && n <= |data| && Begun(sum, file, p, m, data[..n]) && FragmentAt(sum, file, m, q, MIDDLE, data[n..])
  }

  /** From `p` to `q` the file has a record: one full fragment, or a beginning and a last fragment. */
  ghost predicate RecordAt(sum: Checksum, file: Bytes, p: nat, q: nat, data: Bytes) {
    || FragmentAt(sum, file, p, q, FULL, data)
    || exists m: nat, n: nat ::
         n <= |data| && Begun(sum, file, p, m, data[..n]) && FragmentAt(sum, file, m, q, LAST, data[n..])
  }

  lemma ParsedIsPhysical(sum: Checksum, b: Bytes, short: bool, p: nat)
    requires |b| >= HEADER && Parsed(sum, true, b, short, p).Fragment?
    ensures var f := Parsed(sum, true, b, short, p);
      && f.next == p + HEADER + |f.data| && HEADER + |f.data| <= |b| && |f.data| <= 0xFFFF
      && b[..HEADER + |f.data|] == Physical(sum, f.kind, f.data)
  {
    hide Number32, Fixed32;
    var f := Parsed(sum, true, b, short, p);
    var n := |f.data|;
    Number32Back(b[..4]);
    assert b[6..HEADER + n] == [f.kind] + f.data;
    assert b[..HEADER + n] == b[..4] + [b[4], b[5], b[6]] + b[HEADER..HEADER + n];
  }

  /** The reader's fragments are those the file has. */
  lemma {:induction false} PieceIsThere(sum: Checksum, file: Bytes, p: nat)
    requires p <= |file| && PieceAt(sum, true, file, p).Fragment?
    ensures var f := PieceAt(sum, true, file, p); FragmentAt(sum, file, p, f.next, f.kind, f.data)
  {
    hide Parsed, Fixed32;
    TrailerBack(sum, true, file, p);
    var s := p + Trailer(p);
    var e := BlockEnd(file, s);
    assert e - s >= HEADER;
    ParsedIsPhysical(sum, file[s..e], Short(file, s), s);
    var f := PieceAt(sum, true, file, s);
    assert file[s..e][..HEADER + |f.data|] == file[s..s + HEADER + |f.data|];
  }

  lemma {:induction false} RecordIsThere(sum: Checksum, file: Bytes, p: nat, scratch: Option<Bytes>, from: nat)
    requires p <= |file| && (scratch.Some? ==> Begun(sum, file, from, p, scratch.value))
    ensures var o := RecordFrom(sum, true, file, p, scratch); o.record.Some? ==>
      exists q :: 0 <= q && RecordAt(sum, file, q, o.record.value.1, o.record.value.0)
    decreases |file| - p
  {
    hide PieceAt;
    var piece := PieceAt(sum, true, file, p);
    if !piece.Eof? {
      var step := StepOf(piece, scratch);
      if piece.Bad? {
        RecordIsThere(sum, file, piece.next, None, 0);
      } else {
        PieceIsThere(sum, file, p);
        var data := piece.data;
        if piece.kind == FULL {
          assert RecordAt(sum, file, p, piece.next, data);
        } else if piece.kind == FIRST {
          RecordIsThere(sum, file, piece.next, Some(data), p);
        } else if scratch.Some? && (piece.kind == MIDDLE || piece.kind == LAST) {
          var n, all := |scratch.value|, scratch.value + data;
          assert all[..n] == scratch.value && all[n..] == data;
          if piece.kind == MIDDLE {
            RecordIsThere(sum, file, piece.next, Some(all), from);
          } else {
            assert RecordAt(sum, file, from, piece.next, all);
          }
        } else {
          RecordIsThere(sum, file, piece.next, None, 0);
        }
      }
    }
  }

  /** Every record read from any file, with checksums on, is there: full, or from a first fragment through middle ones
      to a last, each with its length and the checksum of its kind and data. */
  lemma {:induction false} OnlyWhatIsThere(sum: Checksum, file: Bytes, p: nat, k: nat)
    requires p <= |file| && k < |RecordsFrom(sum, true, file, p).0|
    ensures exists from: nat, to: nat :: RecordAt(sum, file, from, to, RecordsFrom(sum, true, file, p).0[k])
    decreases |file| - p
  {
    hide RecordFrom, RecordAt;
    RecordIsThere(sum, file, p, None, 0);
    var o := RecordFrom(sum, true, file, p, None);
    var (record, next) := o.record.value;
    var all, rest := RecordsFrom(sum, true, file, p).0, RecordsFrom(sum, true, file, next).0;
    assert all == [record] + rest;
    if k == 0 {
      var from :| 0 <= from && RecordAt(sum, file, from, next, record);
      assert all[k] == record;
    } else {
      OnlyWhatIsThere(sum, file, next, k - 1);
      assert all[k] == rest[k - 1];
    }
  }
}
