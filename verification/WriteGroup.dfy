/** Write batches: how queued writers are grouped, how a group is stamped with sequence numbers,
    and what that does to the map a reader sees. */
module WriteGroup {
  import opened Keys

  datatype Op = Put(key: UserKey, value: Bytes) | Delete(key: UserKey)

  /** What a queued writer wants: a batch written, or only the memtable flushed. */
  datatype Request = FlushRequest | WriteRequest(ops: seq<Op>, size: nat)

  datatype Writer = Writer(request: Request, sync: bool)

  // ----- grouping -----

  const SMALL_BATCH := 131072     // 128 << 10
  const GROUP_LIMIT := 1048576    // 1 << 20

  /** What one writer asks for; nothing if it only wants a flush. */
  function OwnOps(w: Writer): seq<Op> {
    if w.request.WriteRequest? then w.request.ops else []
  }

  function OwnSize(w: Writer): nat {
    if w.request.WriteRequest? then w.request.size else 0
  }

  /** What some writers ask for, the first one's operations first. */
  function OpsOf(ws: seq<Writer>): seq<Op> {
    if ws == [] then [] else OwnOps(ws[0]) + OpsOf(ws[1..])
  }

  function SizeOf(ws: seq<Writer>): nat {
    if ws == [] then 0 else OwnSize(ws[0]) + SizeOf(ws[1..])
  }

  lemma {:induction false} JoinedQueues(a: seq<Writer>, b: seq<Writer>)
    ensures OpsOf(a + b) == OpsOf(a) + OpsOf(b) && SizeOf(a + b) == SizeOf(a) + SizeOf(b)
  {
    if a == [] {
      assert a + b == b;
    } else {
      assert (a + b)[1..] == a[1..] + b;
      JoinedQueues(a[1..], b);
    }
  }

  lemma OneMore(ws: seq<Writer>, i: nat)
    requires i < |ws|
    ensures OpsOf(ws[..i + 1]) == OpsOf(ws[..i]) + OwnOps(ws[i])
    ensures SizeOf(ws[..i + 1]) == SizeOf(ws[..i]) + OwnSize(ws[i])
  {
    assert ws[..i + 1] == ws[..i] + [ws[i]];
    assert [ws[i]][1..] == [];
    JoinedQueues(ws[..i], [ws[i]]);
  }

  function MaxGroup(first: nat): nat {
    if first <= SMALL_BATCH then first + SMALL_BATCH else GROUP_LIMIT
  }

  /** Writer `i` may join a group that the first writer leads and all before it have joined. */
  predicate Joins(ws: seq<Writer>, i: nat)
    requires i < |ws| && ws[0].request.WriteRequest?
  {
    && (ws[i].sync ==> ws[0].sync)
    && (ws[i].request.WriteRequest? ==> SizeOf(ws[..i + 1]) <= MaxGroup(ws[0].request.size))
  }

  /** The group is the longest run of writers from the front in which each may join. */
  ghost predicate IsGroup(ws: seq<Writer>, count: nat) {
    && 1 <= count <= |ws| && ws[0].request.WriteRequest?
    && (forall i :: 1 <= i < count ==> Joins(ws, i))
    && (count < |ws| ==> !Joins(ws, count))
  }

  /** BuildBatchGroup: `ops` does to any map what the first `count` writers ask for, one writer after another from the
      front. A sync write is led by one, the batch stays within its limit, and the writer after the group, if any,
      would break one or the other. */
  method BuildBatchGroup(ws: seq<Writer>) returns (ops: seq<Op>, count: nat)
    requires ws != [] && ws[0].request.WriteRequest?
    ensures IsGroup(ws, count) && ops == OpsOf(ws[..count])
    ensures forall m: map<UserKey, Bytes> :: ApplyAll(m, ops) == ApplyWriters(m, ws[..count])
    ensures forall i :: 0 <= i < count && ws[i].sync ==> ws[0].sync
    ensures var first := ws[0].request.size; var limit := if first <= 131072 then first + 131072 else 1048576;
      && (SizeOf(ws[..count]) <= limit || SizeOf(ws[..count]) == first)
      && (count < |ws| ==>
        || (ws[count].sync && !ws[0].sync)
        || (ws[count].request.WriteRequest? && SizeOf(ws[..count]) + ws[count].request.size > limit))
  {
    OneMore(ws, 0);
    ops := ws[0].request.ops;
    var size := ws[0].request.size;
    var maxSize := GROUP_LIMIT;
    if size <= SMALL_BATCH {
      maxSize := size + SMALL_BATCH;
    }
    count := 1;
    while count < |ws|
      invariant 1 <= count <= |ws|
      invariant ops == OpsOf(ws[..count]) && size == SizeOf(ws[..count])
      invariant size <= maxSize || size == ws[0].request.size
      invariant forall i :: 1 <= i < count ==> Joins(ws, i)
      invariant forall i :: 0 <= i < count && ws[i].sync ==> ws[0].sync
    {
      var w := ws[count];
      OneMore(ws, count);
      if w.sync && !ws[0].sync {
        break;
      }
      if w.request.WriteRequest? {
        size := size + w.request.size;
        if size > maxSize {
          break;
        }
        ops := ops + w.request.ops;
      }
      count := count + 1;
    }
    forall m: map<UserKey, Bytes>
      ensures ApplyAll(m, ops) == ApplyWriters(m, ws[..count])
    {
      WriterByWriter(m, ws[..count]);
    }
  }

  // ----- sequence numbers -----

  function Stamped(op: Op, sn: nat): Entry {
    match op
    case Put(k, v) => Entry(InternalKey(k, sn, Value), v)
    case Delete(k) => Entry(InternalKey(k, sn, Deletion), [])
  }

  /** The entries a batch becomes when its sequence number is `base`. */
  function Stamp(ops: seq<Op>, base: nat): (r: seq<Entry>)
    ensures |r| == |ops| && forall i :: 0 <= i < |r| ==> r[i] == Stamped(ops[i], base + i)
  {
    seq(|ops|, i requires 0 <= i < |ops| => Stamped(ops[i], base + i))
  }

  /** InsertInto: each operation goes into the memtable under the next sequence number. */
  method InsertInto(ops: seq<Op>, base: nat, mem: set<Entry>) returns (r: set<Entry>)
    ensures r == mem + SetOf(Stamp(ops, base))
  {
    r := mem;
    var sequence := base;
    ghost var all := Stamp(ops, base);
    for i := 0 to |ops|
      invariant sequence == base + i
      invariant r == mem + SetOf(all[..i])
    {
      assert all[..i + 1] == all[..i] + [all[i]];
      match ops[i] {
        case Put(k, v) => r := r + {Entry(InternalKey(k, sequence, Value), v)};
        case Delete(k) => r := r + {Entry(InternalKey(k, sequence, Deletion), [])};
      }
      sequence := sequence + 1;
    }
    assert all[..|ops|] == all;
  }

  // ----- what a write means -----

  /** A map after one operation, and after several in order. */
  function ApplyOne(m: map<UserKey, Bytes>, op: Op): map<UserKey, Bytes> {
    match op
    case Put(k, v) => m[k := v]
    case Delete(k) => m - {k}
  }

  function ApplyAll(m: map<UserKey, Bytes>, ops: seq<Op>): map<UserKey, Bytes> {
    if ops == [] then m else ApplyOne(ApplyAll(m, ops[..|ops| - 1]), ops[|ops| - 1])
  }

  /** A map after the writes of some writers, each batch applied by itself, from the front of the queue. */
  function ApplyWriters(m: map<UserKey, Bytes>, ws: seq<Writer>): map<UserKey, Bytes>
    decreases |ws|
  {
    if ws == [] then m
    else
      match ws[0].request
      case WriteRequest(ops, _) => ApplyWriters(ApplyAll(m, ops), ws[1..])
      case FlushRequest => ApplyWriters(m, ws[1..])
  }

  /** All sequence numbers of the entries are at most `n`. */
  ghost predicate UpTo(es: set<Entry>, n: nat) {
    forall e :: e in es ==> e.key.sn <= n
  }

  /** An entry newer than all others decides its own user key and nothing else. */
  lemma NewestDecides(es: set<Entry>, e: Entry, s: nat, k: UserKey, v: Bytes)
    requires Unique(es) && e.key.sn > 0 && UpTo(es, e.key.sn - 1) && e.key.sn <= s
    ensures Unique(es + {e})
    ensures Shows(es + {e}, s, k, v) <==>
      if k == e.key.user then e.key.kind == Value && v == e.value else Shows(es, s, k, v)
  {
    var all := es + {e};
    assert Newest(all, s, e);
    if Shows(all, s, k, v) {
      var o :| Newest(all, s, o) && o.key.user == k && o.key.kind == Value && o.value == v;
      if k == e.key.user {
        SameTag(o.key, e.key);
      } else {
        assert Newest(es, s, o);
      }
    }
    if Shows(es, s, k, v) && k != e.key.user {
      var o :| Newest(es, s, o) && o.key.user == k && o.key.kind == Value && o.value == v;
      assert Newest(all, s, o);
    }
  }

  ghost predicate MapsTo(m: map<UserKey, Bytes>, k: UserKey, v: Bytes) {
    k in m && m[k] == v
  }

  lemma SameMaps(m: map<UserKey, Bytes>, n: map<UserKey, Bytes>)
    requires forall k, v :: MapsTo(m, k, v) <==> MapsTo(n, k, v)
    ensures m == n
  {
    forall k
      ensures k in m <==> k in n
      ensures k in m && k in n ==> m[k] == n[k]
    {
      if k in m {
        assert MapsTo(m, k, m[k]);
      }
      if k in n {
        assert MapsTo(n, k, n[k]);
      }
    }
    assert m.Keys == n.Keys;
  }

  /** `MapsTo` on the visible map is `Shows`. */
  lemma ViewMapsTo(es: set<Entry>, s: nat, k: UserKey, v: Bytes)
    requires Unique(es)
    ensures MapsTo(View(es, s), k, v) <==> Shows(es, s, k, v)
  {
    ViewShows(es, s, k, v);
  }

  lemma ApplyOneMapsTo(m: map<UserKey, Bytes>, op: Op, k: UserKey, v: Bytes)
    ensures MapsTo(ApplyOne(m, op), k, v) <==> if k == op.key then op.Put? && v == op.value else MapsTo(m, k, v)
  {
  }

  lemma WriteOneAt(es: set<Entry>, op: Op, sn: nat, s: nat, k: UserKey, v: Bytes)
    requires Unique(es) && 0 < sn <= s && UpTo(es, sn - 1)
    ensures Unique(es + {Stamped(op, sn)})
    ensures MapsTo(View(es + {Stamped(op, sn)}, s), k, v) <==> MapsTo(ApplyOne(View(es, s), op), k, v)
  {
    var e := Stamped(op, sn);
    assert e.key.sn == sn && e.key.user == op.key;
    NewestDecides(es, e, s, k, v);
    ViewMapsTo(es, s, k, v);
    ViewMapsTo(es + {e}, s, k, v);
    ApplyOneMapsTo(View(es, s), op, k, v);
  }

  lemma WriteOne(es: set<Entry>, op: Op, sn: nat, s: nat)
    requires Unique(es) && 0 < sn <= s && UpTo(es, sn - 1)
    ensures Unique(es + {Stamped(op, sn)})
    ensures View(es + {Stamped(op, sn)}, s) == ApplyOne(View(es, s), op)
  {
    WriteOneAt(es, op, sn, s, 0.0, []);
    forall k, v
      ensures MapsTo(View(es + {Stamped(op, sn)}, s), k, v) <==> MapsTo(ApplyOne(View(es, s), op), k, v)
    {
      WriteOneAt(es, op, sn, s, k, v);
    }
    SameMaps(View(es + {Stamped(op, sn)}, s), ApplyOne(View(es, s), op));
  }

  lemma StampSplits(es: set<Entry>, ops: seq<Op>, base: nat)
    requires ops != [] && base > 0 && UpTo(es, base - 1)
    ensures UpTo(es + SetOf(Stamp(ops[..|ops| - 1], base)), base + |ops| - 2)
    ensures es + SetOf(Stamp(ops, base))
      == es + SetOf(Stamp(ops[..|ops| - 1], base)) + {Stamped(ops[|ops| - 1], base + |ops| - 1)}
  {
    assert Stamp(ops, base) == Stamp(ops[..|ops| - 1], base) + [Stamped(ops[|ops| - 1], base + |ops| - 1)];
  }

  /** A stamped batch changes the visible map as its operations do, one after another. */
  lemma {:induction false} WritesApply(es: set<Entry>, ops: seq<Op>, base: nat, s: nat)
    requires Unique(es) && base > 0 && UpTo(es, base - 1) && base + |ops| <= s + 1
    ensures Unique(es + SetOf(Stamp(ops, base)))
    ensures View(es + SetOf(Stamp(ops, base)), s) == ApplyAll(View(es, s), ops)
  {
    hide Unique, View, UpTo, Stamp, Stamped, ApplyOne, ApplyAll, SetOf;
    if ops == [] {
      NothingStamped(es, base);
      NothingApplied(View(es, s));
    } else {
      var n := |ops| - 1;
      var before := es + SetOf(Stamp(ops[..n], base));
      WritesApply(es, ops[..n], base, s);
      StampSplits(es, ops, base);
      assert base + |ops| - 1 == base + n;
      WriteOne(before, ops[n], base + n, s);
      LastApplied(View(es, s), ops);
    }
  }

  lemma LastApplied(m: map<UserKey, Bytes>, ops: seq<Op>)
    requires ops != []
    ensures ApplyAll(m, ops) == ApplyOne(ApplyAll(m, ops[..|ops| - 1]), ops[|ops| - 1])
  {
  }

  lemma NothingApplied(m: map<UserKey, Bytes>)
    ensures ApplyAll(m, []) == m
  {
  }

  lemma NothingStamped(es: set<Entry>, base: nat)
    ensures es + SetOf(Stamp([], base)) == es
  {
  }

  /** Grouping is invisible: what a group asks for does to a map what its writers would have done one by one, in queue
      order. */
  lemma {:induction false} WriterByWriter(m: map<UserKey, Bytes>, ws: seq<Writer>)
    ensures ApplyAll(m, OpsOf(ws)) == ApplyWriters(m, ws)
    decreases |ws|
  {
    if ws != [] {
      GroupIsQueueOrder(m, OwnOps(ws[0]), OpsOf(ws[1..]));
      WriterByWriter(ApplyAll(m, OwnOps(ws[0])), ws[1..]);
    }
  }

  /** One batch of two parts does what the parts would have done one after the other. */
  lemma {:induction false} GroupIsQueueOrder(m: map<UserKey, Bytes>, a: seq<Op>, b: seq<Op>)
    ensures ApplyAll(m, a + b) == ApplyAll(ApplyAll(m, a), b)
    decreases |b|
  {
    if b == [] {
      assert a + b == a;
    } else {
      assert (a + b)[..|a + b| - 1] == a + b[..|b| - 1];
      GroupIsQueueOrder(m, a, b[..|b| - 1]);
    }
  }
}
