/** One shard of the LRU cache: reference counts, the two lists, charges, and the chained hash table. */
module LruCaches {
  import opened Keys

  /** An entry of the cache. */
  class Handle {
    const key: Bytes
    const hash: nat
    const charge: nat
    var inCache: bool
    var refs: nat  // the cache's own reference included

    constructor (key: Bytes, hash: nat, charge: nat)
      ensures this.key == key && this.hash == hash && this.charge == charge && !inCache && refs == 1
    {
      this.key := key;
      this.hash := hash;
      this.charge := charge;
      inCache := false;
      refs := 1;
    }
  }

  predicate Matches(h: Handle, key: Bytes, hash: nat) {
    h.hash == hash && h.key == key
  }

  // ----- the hash table -----

  ghost predicate NoTwins(hs: set<Handle>) {
    forall g, h :: g in hs && h in hs && Matches(g, h.key, h.hash) ==> g == h
  }

  ghost predicate NoRepeats(s: seq<Handle>) {
    forall i, j :: 0 <= i < j < |s| ==> s[i] != s[j]
  }

  /** The chains hold exactly the handles of `hs`, each in the chain of its hash, once. */
  ghost predicate Chained(chains: seq<seq<Handle>>, hs: set<Handle>) {
    && chains != []
    && (forall i, h :: 0 <= i < |chains| && h in chains[i] ==> h in hs && h.hash % |chains| == i)
    && (forall h :: h in hs ==> h in chains[h.hash % |chains|])
    && forall i :: 0 <= i < |chains| ==> NoRepeats(chains[i])
  }

  /** What a lookup under a key and hash answers. */
  ghost predicate IsMatch(hs: set<Handle>, key: Bytes, hash: nat, r: Handle?) {
    if r == null then forall h :: h in hs ==> !Matches(h, key, hash)
    else r in hs && Matches(r, key, hash)
  }

  class HandleTable {
    var list: array<seq<Handle>>  // its length is a power of two, so a mask of the hash is a remainder
    var elems: nat
    ghost var contents: set<Handle>

    ghost predicate Valid()
      reads this, list
    {
      Chained(list[..], contents) && NoTwins(contents) && elems == |contents|
    }

    constructor ()
      ensures Valid() && contents == {} && fresh(list)
    {
      list := new seq<Handle>[4](_ => []);
      elems := 0;
      contents := {};
    }

    /** FindPointer: the chain, and the place in it of the match, or its end. */
    method FindPointer(key: Bytes, hash: nat) returns (b: nat, p: nat)
      requires Valid()
      ensures b < list.Length && b == hash % list.Length && p <= |list[b]|
      ensures p < |list[b]| ==> list[b][p] in contents && Matches(list[b][p], key, hash)
      ensures p == |list[b]| ==> IsMatch(contents, key, hash, null)
    {
      b := hash % list.Length;
      p := 0;
      ghost var chains := list[..];
      while p < |list[b]| && (list[b][p].hash != hash || list[b][p].key != key)
        invariant p <= |list[b]|
        invariant forall i :: 0 <= i < p ==> !Matches(list[b][i], key, hash)
      {
        p := p + 1;
      }
      assert list[b] == chains[b];
      if p < |list[b]| {
        assert list[b][p] in chains[b];
      } else {
        forall h | h in contents
          ensures !Matches(h, key, hash)
        {
          assert h in chains[h.hash % |chains|];
        }
      }
    }

    method Lookup(key: Bytes, hash: nat) returns (r: Handle?)
      requires Valid()
      ensures IsMatch(contents, key, hash, r)
    {
      var b, p := FindPointer(key, hash);
      r := if p < |list[b]| then list[b][p] else null;
    }

    /** Insert: the new entry takes the place of its match, or goes to the end of the chain. */
    method Insert(h: Handle) returns (prior: Handle?)
      requires Valid() && h !in contents
      modifies this, list
      ensures Valid() && IsMatch(old(contents), h.key, h.hash, prior)
      ensures contents == old(contents) - {prior} + {h} && (list == old(list) || fresh(list))
    {
      hide Chained, NoTwins, NoRepeats;
      ghost var was := contents;
      var b, p := FindPointer(h.key, h.hash);
      if p < |list[b]| {
        prior := Replace(h, b, p);
      } else {
        prior := null;
        Append(h, b);
        assert was - {null} == was;
      }
    }

    /** The new entry takes the place of its match. */
    method Replace(h: Handle, b: nat, p: nat) returns (prior: Handle)
      requires Valid() && h !in contents && b < list.Length && b == h.hash % list.Length && p < |list[b]|
      requires list[b][p] in contents && Matches(list[b][p], h.key, h.hash)
      modifies this, list
      ensures Valid() && prior == old(list[b][p]) && contents == old(contents) - {prior} + {h} && list == old(list)
    {
      ghost var chains, was := list[..], contents;
      hide Chained, NoTwins;
      prior := list[b][p];
      list[b] := list[b][p := h];
      assert list[..] == chains[b := chains[b][p := h]];
      contents := contents - {prior} + {h};
      ChainReplaced(chains, was, b, p, h, list[..]);
      TwinReplaced(was, prior, h);
    }

    /** The new entry goes to the end of its chain, and a table with too many entries for its length grows. */
    method Append(h: Handle, b: nat)
      requires Valid() && h !in contents && b < list.Length && b == h.hash % list.Length
      requires IsMatch(contents, h.key, h.hash, null)
      modifies this, list
      ensures Valid() && contents == old(contents) + {h} && (list == old(list) || fresh(list))
    {
      ghost var chains, was := list[..], contents;
      hide Chained, NoTwins;
      list[b] := list[b] + [h];
      assert list[..] == chains[b := chains[b] + [h]];
      contents := contents + {h};
      ChainExtended(chains, was, b, h, list[..]);
      NoTwinAdded(was, h);
      elems := elems + 1;
      if elems > list.Length {
        Resize();
      }
    }

    method Remove(key: Bytes, hash: nat) returns (r: Handle?)
      requires Valid()
      modifies this, list
      ensures Valid() && IsMatch(old(contents), key, hash, r) && contents == old(contents) - {r} && list == old(list)
    {
      var b, p := FindPointer(key, hash);
      ghost var chains, was := list[..], contents;
      assert list[b] == chains[b];
      if p < |list[b]| {
        r := list[b][p];
        list[b] := list[b][..p] + list[b][p + 1..];
        contents := contents - {r};
        ChainShrunk(chains, was, b, p, list[..]);
        elems := elems - 1;
      } else {
        r := null;
        assert contents == was - {r};
      }
    }

    /** Resize's inner loop: the entries of one chain. */
    static method MoveChain(newList: array<seq<Handle>>, ghost had: set<Handle>, chain: seq<Handle>)
      returns (ghost moved: set<Handle>)
      requires newList.Length > 0 && Chained(newList[..], had) && NoRepeats(chain)
      requires forall h :: h in chain ==> h !in had
      modifies newList
      ensures Chained(newList[..], moved) && moved == had + Members(chain)
    {
      hide Chained, NoRepeats;
      moved := had;
      for j := 0 to |chain|
        invariant Chained(newList[..], moved) && moved == had + Members(chain[..j])
      {
        var h := chain[j];
        NextInChain(chain, j);
        ghost var before := newList[..];
        newList[h.hash % newList.Length] := [h] + newList[h.hash % newList.Length];
        ChainPushed(before, moved, h, newList[..]);
        moved := moved + {h};
      }
      assert chain[..|chain|] == chain;
    }

    /** Resize: every entry moves to the front of its chain in a longer table; the mapping is the same. */
    method Resize()
      requires Valid()
      modifies this
      ensures Valid() && contents == old(contents) && fresh(list) && elems <= list.Length
    {
      var newLength := 4;
      while newLength < elems
        invariant newLength >= 4
      {
        newLength := newLength * 2;
      }
      var newList := new seq<Handle>[newLength](_ => []);
      ghost var chains := list[..];
      ghost var moved: set<Handle> := {};
      assert Chained(newList[..], moved) && Chained(chains, contents) && chains != [];
      hide Chained, NoTwins, NoRepeats;
      for i := 0 to list.Length
        invariant Chained(newList[..], moved)
        invariant forall h :: h in moved <==> h in contents && h.hash % |chains| < i
        modifies newList
      {
        OneChain(chains, contents, i);
        moved := MoveChain(newList, moved, list[i]);
      }
      assert moved == contents;
      list := newList;
    }
  }

  lemma ChainReplaced(chains: seq<seq<Handle>>, hs: set<Handle>, b: nat, p: nat, h: Handle, after: seq<seq<Handle>>)
    requires Chained(chains, hs) && b < |chains| && p < |chains[b]| && h !in hs && h.hash % |chains| == b
    requires after == chains[b := chains[b][p := h]]
    ensures Chained(after, hs - {chains[b][p]} + {h})
  {
    var prior := chains[b][p];
    assert h !in chains[b];
    forall g | g in after[b]
      ensures g == h || (g in chains[b] && g != prior)
    {
      var q :| 0 <= q < |after[b]| && after[b][q] == g;
    }
    forall g | g in chains[b] && g != prior
      ensures g in after[b]
    {
      var q :| 0 <= q < |chains[b]| && chains[b][q] == g;
      assert after[b][q] == g;
    }
    assert after[b][p] == h;
    assert prior in chains[b] && prior in hs && prior.hash % |chains| == b;
  }

  lemma TwinReplaced(hs: set<Handle>, prior: Handle, h: Handle)
    requires NoTwins(hs) && prior in hs && Matches(prior, h.key, h.hash) && h !in hs
    ensures NoTwins(hs - {prior} + {h}) && |hs - {prior} + {h}| == |hs|
  {
  }

  lemma NoTwinAdded(hs: set<Handle>, h: Handle)
    requires NoTwins(hs) && h !in hs && IsMatch(hs, h.key, h.hash, null)
    ensures NoTwins(hs + {h}) && |hs + {h}| == |hs| + 1
  {
  }

  /** What one chain holds. */
  lemma OneChain(chains: seq<seq<Handle>>, hs: set<Handle>, i: nat)
    requires Chained(chains, hs) && i < |chains|
    ensures NoRepeats(chains[i]) && forall h :: h in chains[i] <==> h in hs && h.hash % |chains| == i
  {
  }

  lemma NextInChain(chain: seq<Handle>, j: nat)
    requires NoRepeats(chain) && j < |chain|
    ensures chain[j] in chain && chain[j] !in chain[..j] && chain[..j + 1] == chain[..j] + [chain[j]]
  {
  }

  lemma ChainExtended(chains: seq<seq<Handle>>, hs: set<Handle>, b: nat, h: Handle, after: seq<seq<Handle>>)
    requires Chained(chains, hs) && b < |chains| && h !in hs && h.hash % |chains| == b
    requires after == chains[b := chains[b] + [h]]
    ensures Chained(after, hs + {h})
  {
    assert h !in chains[b];
  }

  lemma ChainPushed(chains: seq<seq<Handle>>, hs: set<Handle>, h: Handle, after: seq<seq<Handle>>)
    requires Chained(chains, hs) && h !in hs
    requires after == chains[h.hash % |chains| := [h] + chains[h.hash % |chains|]]
    ensures Chained(after, hs + {h})
  {
    assert h !in chains[h.hash % |chains|];
  }

  lemma ChainShrunk(chains: seq<seq<Handle>>, hs: set<Handle>, b: nat, p: nat, after: seq<seq<Handle>>)
    requires Chained(chains, hs) && b < |chains| && p < |chains[b]|
    requires after == chains[b := chains[b][..p] + chains[b][p + 1..]]
    ensures Chained(after, hs - {chains[b][p]}) && |hs - {chains[b][p]}| == |hs| - 1
  {
    var prior, c := chains[b][p], chains[b];
    assert c == c[..p] + [prior] + c[p + 1..];
    assert prior in c && prior in hs && prior.hash % |chains| == b;
    forall i, h | 0 <= i < |after| && h in after[i]
      ensures h in hs && h != prior && h.hash % |chains| == i
    {
      if i == b {
        var q :| 0 <= q < |after[b]| && after[b][q] == h;
        assert h == if q < p then c[q] else c[q + 1];
        assert h in c;
      } else {
        assert h in chains[i];
      }
    }
    forall i, j | 0 <= i < j < |after[b]|
      ensures after[b][i] != after[b][j]
    {
      assert after[b][i] == if i < p then c[i] else c[i + 1];
      assert after[b][j] == if j < p then c[j] else c[j + 1];
    }
  }

  // ----- lists -----

  ghost function Charges(s: seq<Handle>): nat {
    if s == [] then 0 else Charges(s[..|s| - 1]) + s[|s| - 1].charge
  }

  ghost function Members(s: seq<Handle>): set<Handle> {
    set h | h in s
  }

  /** The list without a handle. */
  function Without(s: seq<Handle>, e: Handle): (r: seq<Handle>)
    ensures Members(r) == Members(s) - {e}
    ensures NoRepeats(s) ==> NoRepeats(r)
    ensures e !in s ==> r == s
  {
    if s == [] then []
    else
      var init, last := s[..|s| - 1], s[|s| - 1];
      assert s == init + [last];
      assert Members(s) == Members(init) + {last};
      if last == e then Without(init, e)
      else
        assert Members(Without(init, e) + [last]) == Members(Without(init, e)) + {last};
        Without(init, e) + [last]
  }

  lemma {:induction false} ChargesWithout(s: seq<Handle>, e: Handle)
    requires NoRepeats(s) && e in s
    ensures Charges(Without(s, e)) == Charges(s) - e.charge
  {
    var init, last := s[..|s| - 1], s[|s| - 1];
    assert s == init + [last];
    if last == e {
      assert e !in init;
    } else {
      ChargesWithout(init, e);
      assert (Without(init, e) + [last])[..|Without(init, e)|] == Without(init, e);
    }
  }

  lemma ChargesAppend(s: seq<Handle>, e: Handle)
    ensures Charges(s + [e]) == Charges(s) + e.charge
  {
  }

  lemma {:induction false} WithoutFirst(s: seq<Handle>)
    requires NoRepeats(s) && s != []
    ensures Without(s, s[0]) == s[1..]
  {
    if |s| == 1 {
      assert s[..0] == [];
    } else {
      var init := s[..|s| - 1];
      WithoutFirst(init);
      assert init[1..] + [s[|s| - 1]] == s[1..];
    }
  }

  // ----- the cache -----

  /** A handle's references are the cache's, the clients' and the owed one; it is in the cache when it is in the table
      or just out of it; in the idle list with the cache's reference alone, in the other list with more; and deleted
      once, with none left. */
  ghost predicate Books(refs: nat, inCache: bool, held: nat, owed: bool, inTable: bool, gone: bool, idle: bool,
          inUse: bool, deleted: nat)
  {
    && refs == (if inCache then 1 else 0) + held + (if owed then 1 else 0)
    && (inCache <==> inTable || gone)
    && (idle <==> inCache && refs == 1)
    && (inUse <==> inCache && refs >= 2)
    && deleted == if refs == 0 then 1 else 0
  }

  class LRUCache {
    var capacity: nat
    var usage: int
    var lru: seq<Handle>    // in the cache and held by no client, oldest first
    var inUse: seq<Handle>  // in the cache and held by clients
    const table: HandleTable
    ghost var all: set<Handle>           // every handle ever made
    ghost var held: multiset<Handle>     // what clients were given and have not released
    ghost var deleted: multiset<Handle>  // every call of a deleter

    /** The books of one handle. Between steps of an operation one reference may be `owed`, about to be dropped, and
        one cached handle may be `gone` from the table. */
    ghost predicate HandleOk(h: Handle, owed: Handle?, gone: Handle?)
      reads this, table, h
    {
      Books(h.refs, h.inCache, held[h], h == owed, h in table.contents, h == gone, h in Members(lru),
        h in Members(inUse), deleted[h])
    }

    /** The books of a handle, written out. */
    lemma WrittenOut(h: Handle, owed: Handle?, gone: Handle?)
      ensures HandleOk(h, owed, gone) <==>
        && h.refs == (if h.inCache then 1 else 0) + held[h] + (if h == owed then 1 else 0)
        && (h.inCache <==> h in table.contents || h == gone)
        && (h in Members(lru) <==> h.inCache && h.refs == 1)
        && (h in Members(inUse) <==> h.inCache && h.refs >= 2)
        && deleted[h] == if h.refs == 0 then 1 else 0
    {
    }

    ghost predicate ListsOk()
      reads this, table
    {
      && NoRepeats(lru) && NoRepeats(inUse) && usage == Charges(lru) + Charges(inUse)
      && table.contents <= all
      && Members(lru) <= all && Members(inUse) <= all
      && (forall h :: h in held ==> h in all) && forall h :: h in deleted ==> h in all
    }

    ghost predicate Ok(owed: Handle?, gone: Handle?)
      reads this, table, table.list, all
    {
      table.Valid() && ListsOk() && forall h :: h in all ==> HandleOk(h, owed, gone)
    }

    ghost predicate Valid()
      reads this, table, table.list, all
    {
      Ok(null, null)
    }

    /** What holds of every handle ever made, between operations. */
    lemma BooksOf(h: Handle)
      requires Valid() && h in all
      ensures h.refs == (if h.inCache then 1 else 0) + held[h]
      ensures h.inCache <==> h in table.contents
      ensures h in lru <==> h.inCache && held[h] == 0
      ensures h in inUse <==> h.inCache && held[h] > 0
      ensures deleted[h] == if h.inCache || held[h] > 0 then 0 else 1
    {
      hide HandleTable.Valid, ListsOk, Books;
      assert HandleOk(h, null, null);
      WrittenOut(h, null, null);
    }

    constructor (capacity: nat)
      ensures Valid() && table.contents == {} && held == multiset{} && deleted == multiset{}
      ensures this.capacity == capacity
      ensures fresh(table) && fresh(table.list) && all == {}
    {
      this.capacity := capacity;
      usage := 0;
      lru := [];
      inUse := [];
      table := new HandleTable();
      all := {};
      held := multiset{};
      deleted := multiset{};
    }

    /** LRU_Remove */
    method LruRemove(e: Handle)
      modifies this`lru, this`inUse
      ensures if e in old(lru) then lru == Without(old(lru), e) && inUse == old(inUse)
              else lru == old(lru) && inUse == Without(old(inUse), e)
    {
      if e in lru {
        lru := Without(lru, e);
      } else {
        inUse := Without(inUse, e);
      }
    }

    /** LRU_Remove and LRU_Append to the other list. */
    method MoveToInUse(e: Handle)
      requires NoRepeats(lru) && NoRepeats(inUse) && e in Members(lru) && e !in Members(inUse)
      modifies this`lru, this`inUse
      ensures NoRepeats(lru) && NoRepeats(inUse) && lru == Without(old(lru), e)
      ensures Charges(lru) + Charges(inUse) == old(Charges(lru) + Charges(inUse))
      ensures Members(lru) == old(Members(lru)) - {e} && Members(inUse) == old(Members(inUse)) + {e}
    {
      ChargesWithout(lru, e);
      ChargesAppend(inUse, e);
      LruRemove(e);
      inUse := inUse + [e];
    }

    method MoveToLru(e: Handle)
      requires NoRepeats(lru) && NoRepeats(inUse) && e in Members(inUse) && e !in Members(lru)
      modifies this`lru, this`inUse
      ensures NoRepeats(lru) && NoRepeats(inUse) && lru == old(lru) + [e]
      ensures Charges(lru) + Charges(inUse) == old(Charges(lru) + Charges(inUse))
      ensures Members(inUse) == old(Members(inUse)) - {e} && Members(lru) == old(Members(lru)) + {e}
    {
      ChargesWithout(inUse, e);
      ChargesAppend(lru, e);
      LruRemove(e);
      lru := lru + [e];
    }

    /** Ref: a client takes hold of a cached handle. */
    method Ref(e: Handle)
      requires Valid() && e in table.contents
      modifies this`lru, this`inUse, this`held, e
      ensures Valid() && held == old(held) + multiset{e} && e.inCache
      ensures lru == Without(old(lru), e)
    {
      hide HandleTable.Valid, Charges, NoRepeats, Without, Members, Books;
      assert e in all && HandleOk(e, null, null);
      WrittenOut(e, null, null);
      if e.refs == 1 && e.inCache {
        MoveToInUse(e);
      } else {
        WithoutAbsent(lru, e);
      }
      e.refs := e.refs + 1;
      held := held + multiset{e};
      WrittenOut(e, null, null);
      forall h | h in all
        ensures HandleOk(h, null, null)
      {
        assert old(HandleOk(h, null, null));
      }
    }

    /** Unref: the owed reference is dropped; the last one runs the deleter, the last client's one moves the handle to
        the newest end of the idle list. */
    method Unref(e: Handle)
      requires Ok(e, null) && e in all
      modifies this`lru, this`inUse, this`deleted, e
      ensures Valid() && e.inCache == old(e.inCache)
      ensures deleted == if held[e] == 0 && !e.inCache then old(deleted) + multiset{e} else old(deleted)
      ensures lru == if held[e] == 0 && e.inCache then old(lru) + [e] else old(lru)
    {
      hide HandleTable.Valid, Charges, NoRepeats, Without, Members, Books;
      assert HandleOk(e, e, null);
      WrittenOut(e, e, null);
      e.refs := e.refs - 1;
      if e.refs == 0 {
        deleted := deleted + multiset{e};
      } else if e.inCache && e.refs == 1 {
        MoveToLru(e);
      }
      WrittenOut(e, null, null);
      forall h | h in all
        ensures HandleOk(h, null, null)
      {
        assert old(HandleOk(h, e, null));
      }
    }

    /** FinishErase: a handle just taken out of the table loses its list, its charge and the cache's reference. */
    method FinishErase(e: Handle?) returns (erased: bool)
      requires Ok(null, e) && (e != null ==> e in all && e.inCache && e !in table.contents)
      modifies this`lru, this`inUse, this`usage, this`deleted, e
      ensures Valid() && (erased <==> e != null)
      ensures e == null ==> lru == old(lru) && usage == old(usage) && deleted == old(deleted)
      ensures e != null ==> lru == Without(old(lru), e) && usage == old(usage) - e.charge
      ensures e != null ==> deleted == if held[e] == 0 then old(deleted) + multiset{e} else old(deleted)
    {
      if e != null {
        hide Ok, HandleOk, Without;
        Uncache(e);
        Unref(e);
      }
      erased := e != null;
    }

    /** The first half of FinishErase: the cache's reference is owed. */
    method Uncache(e: Handle)
      requires Ok(null, e) && e in all && e.inCache && e !in table.contents
      modifies this`lru, this`inUse, this`usage, e
      ensures Ok(e, null) && !e.inCache && lru == Without(old(lru), e) && usage == old(usage) - e.charge
    {
      hide HandleTable.Valid, Charges, NoRepeats, Without, Members, Books;
      assert HandleOk(e, null, e);
      WrittenOut(e, null, e);
      Unlist(e);
      e.inCache := false;
      usage := usage - e.charge;
      WrittenOut(e, e, null);
      forall h | h in all
        ensures HandleOk(h, e, null)
      {
        assert old(HandleOk(h, null, e));
      }
    }

    /** LRU_Remove, for a handle in one of the lists. */
    method Unlist(e: Handle)
      requires NoRepeats(lru) && NoRepeats(inUse) && (e in Members(lru) || e in Members(inUse))
      requires !(e in Members(lru) && e in Members(inUse))
      modifies this`lru, this`inUse
      ensures NoRepeats(lru) && NoRepeats(inUse) && lru == Without(old(lru), e)
      ensures Charges(lru) + Charges(inUse) == old(Charges(lru) + Charges(inUse)) - e.charge
      ensures Members(lru) == old(Members(lru)) - {e} && Members(inUse) == old(Members(inUse)) - {e}
    {
      if e in lru {
        ChargesWithout(lru, e);
      } else {
        ChargesWithout(inUse, e);
      }
      LruRemove(e);
    }

    /** Lookup: the match, held by one more client. */
    method Lookup(key: Bytes, hash: nat) returns (e: Handle?)
      requires Valid()
      modifies this`lru, this`inUse, this`held, table.contents
      ensures Valid() && IsMatch(table.contents, key, hash, e)
      ensures held == if e == null then old(held) else old(held) + multiset{e}
      ensures lru == if e == null then old(lru) else Without(old(lru), e)
    {
      e := table.Lookup(key, hash);
      if e != null {
        Ref(e);
      }
    }

    /** Release: a client lets go of a handle it was given. */
    method Release(e: Handle)
      requires Valid() && held[e] > 0
      modifies this`lru, this`inUse, this`held, this`deleted, e
      ensures Valid() && held == old(held) - multiset{e}
      ensures deleted == if held[e] == 0 && !e.inCache then old(deleted) + multiset{e} else old(deleted)
      ensures lru == if held[e] == 0 && e.inCache then old(lru) + [e] else old(lru)
    {
      hide HandleTable.Valid, Charges, NoRepeats, Without, Members, Books;
      WrittenOut(e, null, null);
      held := held - multiset{e};
      WrittenOut(e, e, null);
      forall h | h in all
        ensures HandleOk(h, e, null)
      {
        assert old(HandleOk(h, null, null));
      }
      Unref(e);
    }

    /** Erase: the match leaves the cache; while clients hold it, its deleter waits. */
    method Erase(key: Bytes, hash: nat) returns (ghost gone: Handle?)
      requires Valid()
      modifies this`lru, this`inUse, this`usage, this`deleted, table, table.list, table.contents
      ensures Valid() && held == old(held)
      ensures IsMatch(old(table.contents), key, hash, gone) && table.contents == old(table.contents) - {gone}
      ensures deleted == if gone != null && held[gone] == 0 then old(deleted) + multiset{gone} else old(deleted)
    {
      hide HandleTable.Valid, ListsOk, HandleOk, Members, Without;
      var e := TakeOut(key, hash);
      gone := e;
      var erased := FinishErase(e);
    }

    /** The table lets the match go; it is gone from the table, and in the cache still. */
    method TakeOut(key: Bytes, hash: nat) returns (e: Handle?)
      requires Valid()
      modifies table, table.list
      ensures Ok(null, e) && (e != null ==> e in all && e.inCache && e !in table.contents)
      ensures table.list == old(table.list)
      ensures IsMatch(old(table.contents), key, hash, e) && table.contents == old(table.contents) - {e}
    {
      hide Chained, NoTwins, Charges, NoRepeats, Members, Books;
      e := table.Remove(key, hash);
      if e != null {
        assert old(HandleOk(e, null, null));
        OutOfTable(e.refs, e.inCache, held[e], e in Members(lru), e in Members(inUse), deleted[e]);
      }
      forall h | h in all
        ensures HandleOk(h, null, e)
      {
        assert old(HandleOk(h, null, null));
      }
    }

    /** The oldest idle entry is dropped. */
    method EvictOldest()
      requires Valid() && lru != []
      modifies this`lru, this`inUse, this`usage, this`deleted, table, table.list, table.contents
      ensures Valid() && lru == old(lru)[1..] && table.list == old(table.list) && held == old(held)
      ensures table.contents == old(table.contents) - {old(lru)[0]} && usage == old(usage) - old(lru)[0].charge
      ensures deleted == old(deleted) + multiset{old(lru)[0]}
    {
      hide Chained, Charges, HandleOk, Without;
      var e := lru[0];
      assert e in Members(lru) && HandleOk(e, null, null);
      WrittenOut(e, null, null);
      WithoutFirst(lru);
      assert NoTwins(table.contents);
      var r := TakeOut(e.key, e.hash);
      assert r == e;
      var erased := FinishErase(r);
      assert erased;
    }

    /** A new handle, the caller's alone. */
    method NewHandle(key: Bytes, hash: nat, charge: nat) returns (e: Handle)
      requires Valid()
      modifies this`all, this`held
      ensures fresh(e) && Matches(e, key, hash) && e.charge == charge && all == old(all) + {e}
      ensures held == old(held) + multiset{e}
      ensures Valid() && e !in table.contents && !e.inCache
    {
      hide HandleTable.Valid, Charges, NoRepeats, Members, Books;
      e := new Handle(key, hash, charge);
      assert e !in Members(lru) && e !in Members(inUse) && e !in held && e !in deleted;
      all := all + {e};
      held := held + multiset{e};
      WrittenOut(e, null, null);
      forall h | h in all && h != e
        ensures HandleOk(h, null, null)
      {
        assert old(HandleOk(h, null, null));
      }
    }

    /** The new handle is the cache's too: charged for, in use, and on its way into the table. */
    method MakeCached(e: Handle)
      requires Valid() && e in all && e !in table.contents && !e.inCache && held[e] > 0
      modifies this`inUse, this`usage, e
      ensures Ok(null, e) && e.inCache && usage == old(usage) + e.charge
    {
      hide HandleTable.Valid, Charges, NoRepeats, Members, Books;
      assert HandleOk(e, null, null);
      WrittenOut(e, null, null);
      e.refs := e.refs + 1;
      e.inCache := true;
      ChargesAppend(inUse, e);
      AppendNew(inUse, e);
      inUse := inUse + [e];
      usage := usage + e.charge;
      WrittenOut(e, null, e);
      forall h | h in all
        ensures HandleOk(h, null, e)
      {
        assert old(HandleOk(h, null, null));
      }
    }

    /** The deleter calls when a handle leaves the cache: one, unless clients hold it. */
    static ghost function Dropped(prior: Handle?, held: multiset<Handle>): multiset<Handle> {
      if prior != null && held[prior] == 0 then multiset{prior} else multiset{}
    }

    /** Insert: a handle for the new entry, which takes the place of its match; then the oldest idle entries go, until
        the charges fit or none is left idle. `base` is the idle list before that, `n` how many of it went. */
    method Insert(key: Bytes, hash: nat, charge: nat)
      returns (e: Handle, ghost prior: Handle?, ghost base: seq<Handle>, ghost n: nat)
      requires Valid()
      modifies this`lru, this`inUse, this`usage, this`held, this`deleted, this`all, table, table.list, table.contents
      ensures Valid() && fresh(e) && Matches(e, key, hash) && e.charge == charge && held == old(held) + multiset{e}
      ensures if capacity > 0 then IsMatch(old(table.contents), key, hash, prior) else prior == null
      ensures base == (if prior == null then old(lru) else Without(old(lru), prior)) && n <= |base| && lru == base[n..]
      ensures table.contents ==
        old(table.contents) - {prior} + (if capacity > 0 then {e} else {}) - Members(base[..n])
      ensures usage <= capacity || lru == []
      ensures n > 0 ==> usage + base[n - 1].charge > capacity
      ensures all == old(all) + {e}
      ensures deleted == old(deleted) + Dropped(prior, held) + multiset(base[..n])
    {
      hide Ok, Members, Without, IsMatch, Dropped;
      e, prior := Admit(key, hash, charge);
      ghost var calls := deleted;
      base, n := EvictToFit();
      assert deleted == calls + multiset(base[..n]);
    }

    /** Drop the oldest idle entries until the charges fit or none is left idle. */
    method EvictToFit() returns (ghost base: seq<Handle>, ghost n: nat)
      requires Valid()
      modifies this`lru, this`inUse, this`usage, this`deleted, table, table.list, table.contents
      ensures Valid() && base == old(lru) && n <= |base| && lru == base[n..] && held == old(held)
      ensures table.contents == old(table.contents) - Members(base[..n])
      ensures usage <= capacity || lru == []
      ensures n > 0 ==> usage + base[n - 1].charge > capacity
      ensures deleted == old(deleted) + multiset(base[..n])
    {
      hide Ok, Members;
      base, n := lru, 0;
      NoneYet(base);
      while usage > capacity && lru != []
        invariant Valid() && n <= |base| && lru == base[n..] && held == old(held) && table.list == old(table.list)
        invariant table.contents <= old(table.contents)
        invariant table.contents == old(table.contents) - Members(base[..n])
        invariant n > 0 ==> usage + base[n - 1].charge > capacity
        invariant deleted == old(deleted) + multiset(base[..n])
        decreases |lru|
      {
        OneMore(base, n);
        EvictOldest();
        n := n + 1;
      }
    }

    /** The new handle goes into the table, and its match out of the cache. */
    method Admit(key: Bytes, hash: nat, charge: nat) returns (e: Handle, ghost prior: Handle?)
      requires Valid()
      modifies this`lru, this`inUse, this`usage, this`held, this`deleted, this`all, table, table.list, table.contents
      ensures Valid() && fresh(e) && Matches(e, key, hash) && e.charge == charge && held == old(held) + multiset{e}
      ensures if capacity > 0 then IsMatch(old(table.contents), key, hash, prior) else prior == null
      ensures lru == if prior == null then old(lru) else Without(old(lru), prior)
      ensures table.contents == old(table.contents) - {prior} + (if capacity > 0 then {e} else {})
      ensures table.list == old(table.list) || fresh(table.list)
      ensures all == old(all) + {e} && deleted == old(deleted) + Dropped(prior, held)
    {
      hide HandleTable.Valid, ListsOk, HandleOk, Members, Without;
      e := NewHandle(key, hash, charge);
      prior := null;
      if capacity > 0 {
        MakeCached(e);
        var replaced := PutIn(e);
        prior := replaced;
        var erased := FinishErase(replaced);
      }
    }

    /** The table takes the new handle in and gives its match out. */
    method PutIn(e: Handle) returns (prior: Handle?)
      requires Ok(null, e) && e in all && e.inCache && e !in table.contents
      modifies table, table.list
      ensures Ok(null, prior) && (prior != null ==> prior in all && prior.inCache && prior !in table.contents)
      ensures IsMatch(old(table.contents), e.key, e.hash, prior)
      ensures table.contents == old(table.contents) - {prior} + {e}
      ensures table.list == old(table.list) || fresh(table.list)
    {
      hide HandleTable.Valid, Charges, NoRepeats, Members, Books;
      assert HandleOk(e, null, e);
      WrittenOut(e, null, e);
      prior := table.Insert(e);
      WrittenOut(e, null, prior);
      if prior != null {
        assert old(HandleOk(prior, null, e));
        OutOfTable(prior.refs, prior.inCache, held[prior], prior in Members(lru), prior in Members(inUse),
          deleted[prior]);
      }
      forall h | h in all
        ensures HandleOk(h, null, prior)
      {
        assert old(HandleOk(h, null, e));
      }
    }

    /** Prune: every idle entry goes. */
    method Prune()
      requires Valid()
      modifies this`lru, this`inUse, this`usage, this`deleted, table, table.list, table.contents
      ensures Valid() && lru == [] && held == old(held) && table.contents == old(table.contents) - old(Members(lru))
      ensures deleted == old(deleted) + multiset(old(lru))
    {
      hide Ok, Members;
      ghost var base, n, start := lru, 0, table.contents;
      NoneYet(base);
      while lru != []
        invariant Valid() && n <= |base| && lru == base[n..] && held == old(held) && table.contents <= start
        invariant table.contents == start - Members(base[..n]) && table.list == old(table.list)
        invariant deleted == old(deleted) + multiset(base[..n])
        decreases |lru|
      {
        OneMore(base, n);
        EvictOldest();
        n := n + 1;
      }
    }

    /** The destructor, once no client holds a handle: every deleter has run exactly once. */
    method Destroy()
      requires Valid() && held == multiset{}
      modifies this`deleted, lru
      ensures forall h :: h in all ==> deleted[h] == 1
    {
      hide HandleTable.Valid, Charges;
      assert forall h :: h in all ==> (h in lru <==> h.refs == 1) && h.refs <= 1 && (h in lru ==> h.inCache) by {
        forall h | h in all
          ensures (h in lru <==> h.refs == 1) && h.refs <= 1 && (h in lru ==> h.inCache)
        {
          assert HandleOk(h, null, null);
        }
      }
      assert forall h :: h in all ==> deleted[h] == 1 - h.refs by {
        forall h | h in all
          ensures deleted[h] == 1 - h.refs
        {
          assert HandleOk(h, null, null);
        }
      }
      for i := 0 to |lru|
        invariant forall h :: h in all ==> deleted[h] == 1 - h.refs
        invariant forall h :: h in all ==> (h in lru[i..] <==> h.refs == 1) && h.refs <= 1
      {
        var e := lru[i];
        assert e in Members(lru);
        assert lru[i..] == [e] + lru[i + 1..];
        e.inCache := false;
        e.refs := e.refs - 1;
        deleted := deleted + multiset{e};
      }
    }
  }

  /** Out of the table, still in the cache. */
  lemma OutOfTable(refs: nat, inCache: bool, held: nat, idle: bool, inUse: bool, deleted: nat)
    requires Books(refs, inCache, held, false, true, false, idle, inUse, deleted)
    ensures inCache && Books(refs, inCache, held, false, false, true, idle, inUse, deleted)
  {
  }

  lemma NoneYet(s: seq<Handle>)
    ensures Members(s[..0]) == {} && s[0..] == s && s[..|s|] == s
  {
  }

  lemma OneMore(s: seq<Handle>, n: nat)
    requires n < |s|
    ensures s[n..][0] == s[n] && s[n..][1..] == s[n + 1..] && Members(s[..n + 1]) == Members(s[..n]) + {s[n]}
    ensures multiset(s[..n + 1]) == multiset(s[..n]) + multiset{s[n]}
  {
    assert s[..n + 1] == s[..n] + [s[n]];
  }

  lemma AppendNew(s: seq<Handle>, e: Handle)
    requires NoRepeats(s) && e !in Members(s)
    ensures NoRepeats(s + [e]) && Members(s + [e]) == Members(s) + {e}
  {
  }

  lemma WithoutAbsent(s: seq<Handle>, e: Handle)
    requires e !in Members(s)
    ensures Without(s, e) == s
  {
  }
}
