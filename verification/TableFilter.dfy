/** The filter of a table whose keys are internal keys. */
module TableFilters {
  import opened Keys
  import opened Wire
  import opened Blocks
  import opened Bloom
  import opened FilterBlocks
  import opened Separators
  import opened Tables
  import TwoLevels

  /** InternalFilterPolicy: the user's policy on user keys. */
  function OnUserKeys(hash: Hash): Hash {
    k => hash(User(k))
  }

  /** A key passes whenever one with the same user key does. */
  lemma SameUserMatches(hash: Hash, a: Bytes, b: Bytes, filter: Bytes)
    requires User(a) == User(b)
    ensures Matches(OnUserKeys(hash), a, filter) == Matches(OnUserKeys(hash), b, filter)
  {
  }

  /** Each pair of the table was added to the filter at the offset of its block. */
  ghost predicate AllAdded(l: Layout, added: set<Added>)
    requires |l.blocks| == |l.handles|
  {
    forall j, i :: 0 <= j < |l.blocks| && 0 <= i < |l.blocks[j]| ==>
      Added(l.handles[j].offset, l.blocks[j][i].key) in added
  }

  /** The finished filter never hides a pair from a lookup of its user key, which is what InternalGet needs of it. */
  lemma FilterIsSound(policy: BloomFilterPolicy, hash: Hash, l: Layout, result: Bytes, offsets: seq<nat>,
                      added: set<Added>, k: Bytes)
    requires policy.hash == OnUserKeys(hash) && |l.blocks| == |l.handles| && AllAdded(l, added)
    requires OffsetsOk(result, offsets) && Covered(policy, result, offsets, [], added)
    requires |FilterBlockBytes(result, offsets)| < TWO32
    ensures TwoLevels.FilterSound(l,
      (o: nat, key: Bytes) => MayMatch(OnUserKeys(hash), FilterBlockBytes(result, offsets), o, key), k)
  {
    hide Matches, FilterBlockBytes, OffsetsOk, Covered, User, MayMatch;
    var block := FilterBlockBytes(result, offsets);
    forall j, i | 0 <= j < |l.blocks| && 0 <= i < |l.blocks[j]| && User(l.blocks[j][i].key) == User(k)
      ensures MayMatch(OnUserKeys(hash), block, l.handles[j].offset, k)
    {
      var key := l.blocks[j][i].key;
      NoFalseNegatives(policy, result, offsets, added, Added(l.handles[j].offset, key));
      SameUserPasses(hash, block, l.handles[j].offset, key, k);
    }
  }

  lemma SameUserPasses(hash: Hash, contents: Bytes, offset: nat, a: Bytes, b: Bytes)
    requires User(a) == User(b)
    ensures MayMatch(OnUserKeys(hash), contents, offset, a) == MayMatch(OnUserKeys(hash), contents, offset, b)
  {
  }
}
