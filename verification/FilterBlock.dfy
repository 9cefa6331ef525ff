/** The filter block of a table: one filter for each two kilobytes of file, over the keys of the blocks that start
    there. */
module FilterBlocks {
  import opened Keys
  import opened Wire
  import opened Bloom
  import opened Blocks
  import BlockIterators

  const BASE_LG := 11
  const BASE := 2048

  /** A key added while the block at `offset` was being built. */
  datatype Added = Added(offset: nat, key: Bytes)

  /** Filter `i` of those between the offsets; the last ends at `end`. */
  function FilterAt(result: Bytes, offsets: seq<nat>, end: nat, i: nat): Bytes
    requires i < |offsets|
  {
    var limit := if i + 1 < |offsets| then offsets[i + 1] else end;
    if offsets[i] <= limit <= |result| then result[offsets[i]..limit] else []
  }

  /** Offsets ascend and lie in the result. */
  ghost predicate OffsetsOk(result: Bytes, offsets: seq<nat>) {
    && (forall i, j :: 0 <= i <= j < |offsets| ==> offsets[i] <= offsets[j])
    && (forall i :: 0 <= i < |offsets| ==> offsets[i] <= |result|)
  }

  /** The keys of the blocks that start in place `i` of the file. */
  ghost function KeysAt(added: set<Added>, i: nat): set<Bytes> {
    set a | a in added && a.offset / BASE == i :: a.key
  }

  /** A filter for just these keys; none takes no bytes. */
  ghost predicate Filters(hash: Hash, k: nat, filter: Bytes, keys: set<Bytes>) {
    if keys == {} then filter == [] else MadeFor(hash, k, filter, keys)
  }

  /** Every place so far has the filter for its keys, and the keys of the next one wait. */
  ghost predicate Covered(policy: BloomFilterPolicy, result: Bytes, offsets: seq<nat>, pending: seq<Bytes>,
          added: set<Added>)
  {
    && (forall i :: 0 <= i < |offsets| ==>
      Filters(policy.hash, policy.k, FilterAt(result, offsets, |result|, i), KeysAt(added, i)))
    && KeysAt(added, |offsets|) == KeySet(pending)
    && forall a :: a in added ==> a.offset / BASE <= |offsets|
  }

  /** Where key `i` ends. */
  function KeyEnd(keys: Bytes, start: seq<nat>, i: nat): nat
    requires i < |start|
  {
    if i + 1 < |start| then start[i + 1] else |keys|
  }

  /** The flattened keys are the waiting ones, end to end. */
  ghost predicate Flattened(keys: Bytes, start: seq<nat>, pending: seq<Bytes>) {
    |start| == |pending| && forall i :: 0 <= i < |start| ==> KeyIs(keys, start, i, pending[i])
  }

  ghost predicate KeyIs(keys: Bytes, start: seq<nat>, i: nat, key: Bytes)
    requires i < |start|
  {
    start[i] <= KeyEnd(keys, start, i) <= |keys| && keys[start[i]..KeyEnd(keys, start, i)] == key
  }

  lemma OneMoreKey(keys: Bytes, start: seq<nat>, pending: seq<Bytes>, key: Bytes)
    requires Flattened(keys, start, pending)
    ensures Flattened(keys + key, start + [|keys|], pending + [key])
  {
  }

  lemma OneMoreCovered(policy: BloomFilterPolicy, result: Bytes, offsets: seq<nat>, pending: seq<Bytes>,
                       added: set<Added>, a: Added)
    requires Covered(policy, result, offsets, pending, added) && a.offset / BASE == |offsets|
    ensures Covered(policy, result, offsets, pending + [a.key], added + {a})
  {
    hide Filters;
    forall i: nat
      ensures KeysAt(added + {a}, i) == if i == |offsets| then KeysAt(added, i) + {a.key} else KeysAt(added, i)
    {
      assert a in added + {a};
    }
  }

  class FilterBlockBuilder {
    const policy: BloomFilterPolicy
    var keys: Bytes
    var start: seq<nat>
    var result: Bytes
    var filterOffsets: seq<nat>
    ghost var pending: seq<Bytes>
    ghost var added: set<Added>
    ghost var current: nat

    ghost predicate Valid()
      reads this
    {
      && policy.Valid() && Flattened(keys, start, pending) && OffsetsOk(result, filterOffsets)
        && current / BASE == |filterOffsets|
      && Covered(policy, result, filterOffsets, pending, added)
    }

    /** With the table's first block at the beginning of the file. */
    constructor (policy: BloomFilterPolicy)
      requires policy.Valid()
      ensures Valid() && this.policy == policy && added == {} && current == 0
    {
      this.policy := policy;
      keys, start, result, filterOffsets := [], [], [], [];
      pending, added, current := [], {}, 0;
    }

    method AddKey(key: Bytes)
      requires Valid()
      modifies this
      ensures Valid() && added == old(added) + {Added(current, key)} && current == old(current)
    {
      hide Covered, Flattened;
      OneMoreKey(keys, start, pending, key);
      OneMoreCovered(policy, result, filterOffsets, pending, added, Added(current, key));
      start := start + [|keys|];
      keys := keys + key;
      pending := pending + [key];
      added := added + {Added(current, key)};
    }

    /** StartBlock: make the filters of all places before the block's. Blocks come in file order. */
    method StartBlock(offset: nat)
      requires Valid() && offset >= current
      modifies this
      ensures Valid() && added == old(added) && current == offset
    {
      var index := offset / BASE;
      while index > |filterOffsets|
        invariant policy.Valid() && Flattened(keys, start, pending) && OffsetsOk(result, filterOffsets)
        invariant |filterOffsets| <= index
        invariant Covered(policy, result, filterOffsets, pending, added) && added == old(added)
        decreases index - |filterOffsets|
      {
        GenerateFilter();
      }
      current := offset;
    }

    method GenerateFilter()
      requires policy.Valid() && Flattened(keys, start, pending) && OffsetsOk(result, filterOffsets)
      requires Covered(policy, result, filterOffsets, pending, added)
      modifies this`keys, this`start, this`result, this`filterOffsets, this`pending
      ensures Flattened(keys, start, pending) && OffsetsOk(result, filterOffsets)
      ensures |filterOffsets| == |old(filterOffsets)| + 1 && pending == []
      ensures Covered(policy, result, filterOffsets, pending, added)
    {
      hide Matches, Covered;
      if |start| == 0 {
        NothingPending(policy, result, filterOffsets, added);
        filterOffsets := filterOffsets + [|result|];
        return;
      }
      var numKeys, limits := |start|, start + [|keys|];
      var tmpKeys: seq<Bytes> := [];
      for i := 0 to numKeys
        invariant Flattened(keys, start, pending) && |start| == numKeys && limits == start + [|keys|]
        invariant tmpKeys == pending[..i]
        invariant Covered(policy, result, filterOffsets, pending, added) && OffsetsOk(result, filterOffsets)
        invariant filterOffsets == old(filterOffsets) && pending == old(pending) && result == old(result)
      {
        assert KeyIs(keys, start, i, pending[i]) && limits[i + 1] == KeyEnd(keys, start, i);
        tmpKeys := tmpKeys + [keys[limits[i]..limits[i + 1]]];
      }
      assert pending[..numKeys] == pending;
      var filter := policy.CreateFilter(tmpKeys);
      FilterMade(policy, result, filterOffsets, pending, added, filter);
      filterOffsets := filterOffsets + [|result|];
      result := result + filter;
      keys, start, pending := [], [], [];
    }

    /** Finish: the last filter, the offsets of the filters, where they are, and the base. */
    method Finish() returns (block: Bytes, ghost offsets: seq<nat>)
      requires Valid()
      modifies this
      ensures added == old(added) && block == FilterBlockBytes(result, offsets)
      ensures OffsetsOk(result, offsets) && Covered(policy, result, offsets, [], added)
    {
      hide Covered, Words, Fixed32, OffsetsOk;
      if |start| > 0 {
        GenerateFilter();
      }
      assert pending == [];
      label Made:
      var arrayOffset, ns := |result|, filterOffsets;
      offsets := ns;
      var words := [];
      for i := 0 to |ns|
        invariant words == Words(ns[..i])
        invariant unchanged@Made(this)
      {
        WordsMore(ns, i);
        words := words + Fixed32(ns[i]);
      }
      assert ns[..|ns|] == ns;
      block := result + words;
      block := block + Fixed32(arrayOffset);
      block := block + [BASE_LG];
    }
  }

  lemma WordsMore(ns: seq<nat>, i: nat)
    requires i < |ns|
    ensures Words(ns[..i + 1]) == Words(ns[..i]) + Fixed32(ns[i])
  {
    assert ns[..i + 1][..i] == ns[..i];
  }

  function FilterBlockBytes(result: Bytes, offsets: seq<nat>): Bytes {
    result + Words(offsets) + Fixed32(|result|) + [BASE_LG]
  }

  /** With no key waiting, an empty filter takes the next place. */
  lemma NothingPending(policy: BloomFilterPolicy, result: Bytes, offsets: seq<nat>, added: set<Added>)
    requires Covered(policy, result, offsets, [], added) && OffsetsOk(result, offsets)
    ensures Covered(policy, result, offsets + [|result|], [], added)
  {
    FiltersStay(policy, result, offsets, [], added, []);
  }

  /** The filter made for the waiting keys takes the next place. */
  lemma FilterMade(policy: BloomFilterPolicy, result: Bytes, offsets: seq<nat>, pending: seq<Bytes>, added: set<Added>,
                   filter: Bytes)
    requires Covered(policy, result, offsets, pending, added) && OffsetsOk(result, offsets)
    requires pending != [] && MadeFor(policy.hash, policy.k, filter, KeySet(pending))
    ensures Covered(policy, result + filter, offsets + [|result|], [], added)
  {
    assert pending[0] in KeySet(pending);
    FiltersStay(policy, result, offsets, pending, added, filter);
  }

  lemma FiltersStay(policy: BloomFilterPolicy, result: Bytes, offsets: seq<nat>, pending: seq<Bytes>,
                    added: set<Added>, filter: Bytes)
    requires Covered(policy, result, offsets, pending, added) && OffsetsOk(result, offsets)
    requires Filters(policy.hash, policy.k, filter, KeySet(pending))
    ensures Covered(policy, result + filter, offsets + [|result|], [], added)
  {
    hide Filters;
    var all, more := result + filter, offsets + [|result|];
    assert FilterAt(all, more, |all|, |offsets|) == filter;
    forall i | 0 <= i < |offsets|
      ensures FilterAt(all, more, |all|, i) == FilterAt(result, offsets, |result|, i)
    {
    }
    assert KeysAt(added, |more|) == KeySet([]);
  }

  // ----- reading -----

  function WordIn(b: Bytes, p: nat): nat
    requires p + 4 <= |b|
  {
    Number32(b[p..p + 4])
  }

  /** Where the offsets of the filters are, how many filters there are, and the base. */
  datatype Directory = Directory(arrayOffset: nat, num: nat, baseLg: nat)

  /** What FilterBlockReader's constructor finds: no filters, if the block is malformed. */
  function DirectoryOf(contents: Bytes): (d: Directory)
    ensures d.num == 0 || d.arrayOffset + 4 * d.num + 5 <= |contents|
  {
    var n := |contents|;
    if n < 5 then Directory(0, 0, 0)
    else if WordIn(contents, n - 5) > n - 5 then Directory(0, 0, contents[n - 1])
    else Directory(WordIn(contents, n - 5), (n - 5 - WordIn(contents, n - 5)) / 4, contents[n - 1])
  }

  /** Whether filter `index` lets the key through: anything out of order counts as a match. */
  function Passes(hash: Hash, contents: Bytes, d: Directory, index: nat, key: Bytes): bool
    requires index < d.num && d.arrayOffset + 4 * d.num + 5 <= |contents|
  {
    var start, limit := WordIn(contents, d.arrayOffset + index * 4), WordIn(contents, d.arrayOffset + index * 4 + 4);
    if start <= limit && limit <= d.arrayOffset then Matches(hash, key, contents[start..limit]) else start != limit
  }

  /** Which filter is for a block offset: the offset shifted right. */
  function FilterIndex(blockOffset: nat, baseLg: nat): nat {
    if baseLg == 0 then blockOffset else FilterIndex(blockOffset / 2, baseLg - 1)
  }

  function PassesIfAny(hash: Hash, contents: Bytes, d: Directory, index: nat, key: Bytes): bool
    requires d.num == 0 || d.arrayOffset + 4 * d.num + 5 <= |contents|
  {
    index >= d.num || Passes(hash, contents, d, index, key)
  }

  /** What the reader answers. */
  function MayMatch(hash: Hash, contents: Bytes, blockOffset: nat, key: Bytes): bool {
    var d := DirectoryOf(contents);
    PassesIfAny(hash, contents, d, FilterIndex(blockOffset, d.baseLg), key)
  }

  class FilterBlockReader {
    const policy: BloomFilterPolicy
    const contents: Bytes
    const arrayOffset: nat
    const num: nat
    const baseLg: nat

    ghost predicate Valid() {
      Directory(arrayOffset, num, baseLg) == DirectoryOf(contents)
    }

    constructor (policy: BloomFilterPolicy, contents: Bytes)
      ensures Valid() && this.policy == policy && this.contents == contents
    {
      this.policy := policy;
      this.contents := contents;
      arrayOffset, num, baseLg := 0, 0, 0;
      var n := |contents|;
      if n >= 5 {
        baseLg := contents[n - 1];
        var lastWord := Number32(contents[n - 5..n - 1]);
        if lastWord <= n - 5 {
          arrayOffset := lastWord;
          num := (n - 5 - lastWord) / 4;
        }
      }
    }

    method KeyMayMatch(blockOffset: nat, key: Bytes) returns (r: bool)
      requires Valid()
      ensures r == MayMatch(policy.hash, contents, blockOffset, key)
    {
      hide Matches, Number32, FilterIndex, DirectoryOf;
      var index := FilterIndex(blockOffset, baseLg);
      if index < num {
        var start := Number32(contents[arrayOffset + index * 4..arrayOffset + index * 4 + 4]);
        var limit := Number32(contents[arrayOffset + index * 4 + 4..arrayOffset + index * 4 + 8]);
        if start <= limit && limit <= arrayOffset {
          r := policy.KeyMayMatch(key, contents[start..limit]);
          return;
        } else if start == limit {
          return false;
        }
      }
      r := true;
    }
  }

  /** Where a built block's offsets are, and what they say. */
  lemma BlockParts(result: Bytes, offsets: seq<nat>)
    requires OffsetsOk(result, offsets) && |FilterBlockBytes(result, offsets)| < TWO32
    ensures var b := FilterBlockBytes(result, offsets);
      && |b| == |result| + 4 * |offsets| + 5 && WordIn(b, |b| - 5) == |result| && b[|b| - 1] == BASE_LG
        && b[..|result|] == result
    ensures forall i :: 0 <= i <= |offsets| ==>
      WordIn(FilterBlockBytes(result, offsets), |result| + i * 4) == if i < |offsets| then offsets[i] else |result|
  {
    hide Words, Fixed32, Number32;
    var b, all := FilterBlockBytes(result, offsets), offsets + [|result|];
    assert Words(all) == Words(offsets) + Fixed32(|result|) by {
      WordsMore(all, |offsets|);
      assert all[..|offsets| + 1] == all && all[..|offsets|] == offsets;
    }
    Fixed32RoundTrip(|result|);
    assert b == result + Words(all) + [BASE_LG];
    forall i | 0 <= i <= |offsets|
      ensures WordIn(b, |result| + i * 4) == if i < |offsets| then offsets[i] else |result|
    {
      BlockIterators.WordInside(result, all, [BASE_LG], i);
    }
    assert WordIn(b, |result| + |offsets| * 4) == |result|;
  }

  /** What the reader of the finished block answers: past the last filter yes; in a place without keys no; and elsewhere
      yes exactly if every probe of the key is a probe of some key of the blocks that start there. */
  lemma AnswersExactly(policy: BloomFilterPolicy, result: Bytes, offsets: seq<nat>, added: set<Added>, offset: nat,
                       key: Bytes)
    requires policy.Valid() && OffsetsOk(result, offsets) && Covered(policy, result, offsets, [], added)
    requires |FilterBlockBytes(result, offsets)| < TWO32
    ensures var i := offset / BASE; MayMatch(policy.hash, FilterBlockBytes(result, offsets), offset, key) <==>
      || i >= |offsets|
      || (KeysAt(added, i) != {}
          && var bits := ArrayBits(FilterAt(result, offsets, |result|, i));
            forall j :: 0 <= j < policy.k ==>
              ProbedBy(policy.hash, KeysAt(added, i), policy.k, bits, Place(policy.hash(key), j, bits)))
  {
    hide MayMatch, ProbedBy, Place, Covered, KeysAt;
    var i := offset / BASE;
    ReadsFilter(policy.hash, result, offsets, offset, key);
    if i < |offsets| {
      FilterOf(policy, result, offsets, added, i);
      if KeysAt(added, i) != {} {
        PassesExactly(policy.hash, policy.k, FilterAt(result, offsets, |result|, i), KeysAt(added, i), key);
      }
    }
  }

  lemma FilterOf(policy: BloomFilterPolicy, result: Bytes, offsets: seq<nat>, added: set<Added>, i: nat)
    requires Covered(policy, result, offsets, [], added) && i < |offsets|
    ensures var f, keys := FilterAt(result, offsets, |result|, i), KeysAt(added, i);
      if keys == {} then f == [] else MadeFor(policy.hash, policy.k, f, keys)
  {
  }

  /** The reader asks the filter of the place the offset is in. */
  lemma ReadsFilter(hash: Hash, result: Bytes, offsets: seq<nat>, offset: nat, key: Bytes)
    requires OffsetsOk(result, offsets) && |FilterBlockBytes(result, offsets)| < TWO32
    ensures var i := offset / BASE; MayMatch(hash, FilterBlockBytes(result, offsets), offset, key) <==>
      i >= |offsets| || Matches(hash, key, FilterAt(result, offsets, |result|, i))
  {
    hide Matches, FilterBlockBytes, WordIn;
    var b, index := FilterBlockBytes(result, offsets), offset / BASE;
    BlockParts(result, offsets);
    assert DirectoryOf(b) == Directory(|result|, |offsets|, BASE_LG);
    hide DirectoryOf;
    BaseIs(offset);
    if index < |offsets| {
      var limit := if index + 1 < |offsets| then offsets[index + 1] else |result|;
      assert WordIn(b, |result| + index * 4) == offsets[index] && WordIn(b, |result| + (index + 1) * 4) == limit;
      assert offsets[index] <= limit <= |result|;
      assert b[offsets[index]..limit] == b[..|result|][offsets[index]..limit];
    }
  }

  /** A key added to the builder passes the reader of the finished block, at the offset of its table block. */
  lemma NoFalseNegatives(policy: BloomFilterPolicy, result: Bytes, offsets: seq<nat>, added: set<Added>, a: Added)
    requires OffsetsOk(result, offsets) && Covered(policy, result, offsets, [], added) && a in added
    requires |FilterBlockBytes(result, offsets)| < TWO32
    ensures MayMatch(policy.hash, FilterBlockBytes(result, offsets), a.offset, a.key)
  {
    hide MayMatch, Matches, FilterBlockBytes, OffsetsOk;
    var i := a.offset / BASE;
    ReadsFilter(policy.hash, result, offsets, a.offset, a.key);
    assert a.key in KeysAt(added, i);
    assert KeySet([]) == {};
    FilterOf(policy, result, offsets, added, i);
    MadeMatches(policy.hash, policy.k, FilterAt(result, offsets, |result|, i), KeysAt(added, i), a.key);
  }

  lemma TwoShifts(n: nat, k: nat)
    ensures FilterIndex(n, k + 2) == FilterIndex(n / 4, k)
  {
  }

  lemma BaseIs(n: nat)
    ensures FilterIndex(n, BASE_LG) == n / BASE
  {
    TwoShifts(n, 9);
    TwoShifts(n / 4, 7);
    TwoShifts(n / 4 / 4, 5);
    TwoShifts(n / 4 / 4 / 4, 3);
    TwoShifts(n / 4 / 4 / 4 / 4, 1);
    assert n / 4 / 4 / 4 / 4 / 4 == n / 1024 && n / 1024 / 2 == n / BASE;
    assert FilterIndex(n / 1024, 1) == n / 1024 / 2;
  }

  /** Building a filter block for some keys, each at the offset of its table block, and asking for one of them. */
  method AskBack(policy: BloomFilterPolicy, places: seq<Added>, i: nat) returns (r: bool, size: nat)
    requires policy.Valid() && i < |places|
    requires forall j, k :: 0 <= j <= k < |places| ==> places[j].offset <= places[k].offset
    ensures size < TWO32 ==> r
  {
    hide Covered, OffsetsOk, MayMatch, FilterBlockBytes;
    var builder := new FilterBlockBuilder(policy);
    for j := 0 to |places|
      invariant fresh(builder) && builder.Valid() && builder.policy == policy
      invariant j == 0 ==> builder.current == 0
      invariant j > 0 ==> builder.current == places[j - 1].offset
      invariant forall k :: 0 <= k < j ==> places[k] in builder.added
    {
      builder.StartBlock(places[j].offset);
      builder.AddKey(places[j].key);
    }
    ghost var added := builder.added;
    var block, offsets := builder.Finish();
    size := |block|;
    var reader := new FilterBlockReader(policy, block);
    if size < TWO32 {
      NoFalseNegatives(policy, builder.result, offsets, added, places[i]);
    }
    r := reader.KeyMayMatch(places[i].offset, places[i].key);
  }
}
