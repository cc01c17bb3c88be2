/**
 Lua tables (ltable.c): an array part, whose size may be hidden behind a hint, and a hash part. Together they
 behave like a finite map.
 */
module Tables {
  import opened TableSizes
  import opened TableNodes
  import opened TableCounts

  /** Where the value of a key is. */
  datatype Slot = Absent | Cell(i: nat) | InNode(x: nat)

  datatype Error = NoError | IndexIsNil | IndexIsNaN

  const NULL := -1

  /** Storing nil removes a key. */
  function Store(m: map<TValue, TValue>, k: TValue, v: TValue): map<TValue, TValue> {
    if v.Nil? then m - {k} else m[k := v]
  }

  function Lookup(m: map<TValue, TValue>, k: TValue): TValue { if k in m then m[k] else Nil }

  /** What `luaH_set` does to a finite map. */
  function Assigned(m: map<TValue, TValue>, k: TValue, v: TValue): (map<TValue, TValue>, Error) {
    if k.Nil? then (m, IndexIsNil)
    else if k.NaN? then (m, IndexIsNaN)
    else (Store(m, Normal(k), v), NoError)
  }

  /** A number as a 64-bit unsigned one. */
  function Wrapped(i: int): nat { i % 0x1_0000_0000_0000_0000 }

  ghost predicate InHash(ns: Nodes, k: TValue) {
    exists x :: 0 <= x < |ns| && ns[x].key == Live(k)
  }

  /** The entries of the two parts, the array part being `size` long, are those of the map. */
  ghost predicate Agrees(arr: seq<TValue>, size: nat, ns: Nodes, m: map<TValue, TValue>)
    requires size <= |arr|
  {
    && (forall k :: k in m ==> IsKey(k) && !m[k].Nil? && Has(arr, size, ns, k, m[k]))
    && (forall i :: 0 <= i < size && !arr[i].Nil? ==> IntKey(i + 1) in m && m[IntKey(i + 1)] == arr[i])
    && (forall x :: 0 <= x < |ns| && !ns[x].val.Nil? ==> IsEntry(ns[x], m))
    && (forall x :: 0 <= x < |ns| && ns[x].key.Live? ==> !InRange(ns[x].key.k, size))
  }

  predicate IsEntry(n: Node, m: map<TValue, TValue>) { n.key.Live? && n.key.k in m && m[n.key.k] == n.val }

  ghost predicate Has(arr: seq<TValue>, size: nat, ns: Nodes, k: TValue, v: TValue)
    requires size <= |arr|
  {
    if InRange(k, size) then arr[k.i - 1] == v
    else exists x :: 0 <= x < |ns| && ns[x].key == Live(k) && ns[x].val == v
  }

  /** The hash part, with the pointer that free positions are below of. */
  ghost predicate HashPart(ns: Nodes, rank: seq<nat>, lastfree: int, h: Hash) {
    && HashOk(ns, rank, h) && (exists l: nat :: |ns| == Pow(l))
    && if lastfree < 0 then |ns| == 1 && ns[0].key.NoKey?
       else lastfree <= |ns| && forall x :: lastfree <= x < |ns| ==> !ns[x].key.NoKey?
  }

  // ----- storing, in the two parts -----

  lemma StoredInCell(arr: seq<TValue>, size: nat, ns: Nodes, m: map<TValue, TValue>, i: nat, v: TValue)
    requires size <= |arr| <= MAXASIZE && Agrees(arr, size, ns, m) && i < size
    ensures Agrees(arr[i := v], size, ns, Store(m, IntKey(i + 1), v))
  {
    var m' := Store(m, IntKey(i + 1), v);
    forall k | k in m' ensures IsKey(k) && !m'[k].Nil? && Has(arr[i := v], size, ns, k, m'[k]) {
      if k != IntKey(i + 1) { assert Has(arr, size, ns, k, m[k]); }
    }
  }

  /** Another value for the key of a node. */
  function Changed(ns: Nodes, x: nat, v: TValue): Nodes
    requires x < |ns|
  {
    ns[x := Node(ns[x].key, v, ns[x].next)]
  }

  lemma ChangedOk(ns: Nodes, rank: seq<nat>, h: Hash, x: nat, v: TValue)
    requires HashOk(ns, rank, h) && x < |ns| && ns[x].key.Live?
    ensures HashOk(Changed(ns, x, v), rank, h) && Used(Changed(ns, x, v)) == Used(ns)
  {
    var ns' := Changed(ns, x, v);
    UsedUpdate(ns, x, Node(ns[x].key, v, ns[x].next));
    ChainsSame(ns, ns', rank);
    hide Chains, Reaches;
    forall y | 0 <= y < |ns'| ensures NodeOk(ns', rank, h, y) {
      assert NodeOk(ns, rank, h, y);
      if !ns[y].key.NoKey? { ReachesSame(ns, ns', rank, MainPosition(h, ns[y].key.k, |ns|), y); }
    }
  }

  lemma StoredInNode(arr: seq<TValue>, size: nat, ns: Nodes, m: map<TValue, TValue>, x: nat, v: TValue)
    requires size <= |arr| && Agrees(arr, size, ns, m) && x < |ns| && ns[x].key.Live? && IsKey(ns[x].key.k)
    requires forall x, y :: 0 <= x < y < |ns| && ns[x].key.Live? ==> ns[x].key != ns[y].key
    ensures Agrees(arr, size, Changed(ns, x, v), Store(m, ns[x].key.k, v))
  {
    var ns', m' := Changed(ns, x, v), Store(m, ns[x].key.k, v);
    forall k | k in m' ensures IsKey(k) && !m'[k].Nil? && Has(arr, size, ns', k, m'[k]) {
      if k == ns[x].key.k {
        assert ns'[x].key == Live(k);
      } else {
        assert Has(arr, size, ns, k, m[k]);
        if !InRange(k, size) {
          var y :| 0 <= y < |ns| && ns[y].key == Live(k) && ns[y].val == m[k];
          assert ns'[y] == ns[y];
        }
      }
    }
    forall y | 0 <= y < |ns'| && !ns'[y].val.Nil?
      ensures ns'[y].key.Live? && ns'[y].key.k in m' && m'[ns'[y].key.k] == ns'[y].val
    {
      if y != x { assert ns[y].key.k != ns[x].key.k; }
    }
  }

  ghost predicate HasNode(ns: Nodes, n: Node) {
    exists x :: 0 <= x < |ns| && ns[x].key == n.key && ns[x].val == n.val
  }

  /** Node `x` of the old hash part is node `at[x]` of the new one; the new key is in node `n`. */
  ghost predicate Extended(ns: Nodes, ns': Nodes, at: seq<nat>, n: nat, k: TValue, v: TValue) {
    && |ns'| == |ns| == |at| && n < |ns| && ns'[n].key == Live(k) && ns'[n].val == v
    && (forall x :: 0 <= x < |ns| && !ns[x].val.Nil? ==>
          at[x] < |ns| && ns'[at[x]].key == ns[x].key && ns'[at[x]].val == ns[x].val)
    && (forall y :: 0 <= y < |ns| && y != n ==> HasNode(ns, ns'[y]))
  }

  lemma ExtendedAgrees(arr: seq<TValue>, size: nat, ns: Nodes, m: map<TValue, TValue>, ns': Nodes, at: seq<nat>, n: nat,
                       k: TValue, v: TValue)
    requires size <= |arr| && Agrees(arr, size, ns, m) && Extended(ns, ns', at, n, k, v)
    requires IsKey(k) && !v.Nil? && !InRange(k, size) && !InHash(ns, k)
    ensures Agrees(arr, size, ns', Store(m, k, v))
  {
    var m' := Store(m, k, v);
    forall k' | k' in m' ensures IsKey(k') && !m'[k'].Nil? && Has(arr, size, ns', k', m'[k']) {
      if k' == k {
        assert ns'[n].key == Live(k);
      } else {
        assert Has(arr, size, ns, k', m[k']);
        if !InRange(k', size) {
          var x :| 0 <= x < |ns| && ns[x].key == Live(k') && ns[x].val == m[k'];
          assert ns'[at[x]].key == Live(k');
        }
      }
    }
    forall y | 0 <= y < |ns'| && ns'[y].key.Live? ensures !InRange(ns'[y].key.k, size) {
      if y != n {
        var x :| 0 <= x < |ns| && ns[x].key == ns'[y].key && ns[x].val == ns'[y].val;
      }
    }
    forall y | 0 <= y < |ns'| && !ns'[y].val.Nil?
      ensures ns'[y].key.Live? && ns'[y].key.k in m' && m'[ns'[y].key.k] == ns'[y].val
    {
      if y != n {
        var x :| 0 <= x < |ns| && ns[x].key == ns'[y].key && ns[x].val == ns'[y].val;
        assert ns[x].key == Live(ns[x].key.k);
      }
    }
    forall i | 0 <= i < size && !arr[i].Nil? ensures IntKey(i + 1) in m' && m'[IntKey(i + 1)] == arr[i] { }
  }

  function Identity(n: nat): (s: seq<nat>)
    ensures |s| == n && forall i :: 0 <= i < n ==> s[i] == i
  {
    seq(n, i requires 0 <= i < n => i)
  }

  /** Where the nodes are after a new key was put into its main position, free before. */
  lemma PlacedExtends(ns: Nodes, k: TValue, v: TValue, mp: nat)
    requires mp < |ns| && ns[mp].val.Nil?
    ensures Extended(ns, ns[mp := Node(Live(k), v, ns[mp].next)], Identity(|ns|), mp, k, v)
    ensures Used(ns[mp := Node(Live(k), v, ns[mp].next)]) <= Used(ns) + 1
  {
    UsedUpdate(ns, mp, Node(Live(k), v, ns[mp].next));
    var ns' := ns[mp := Node(Live(k), v, ns[mp].next)];
    forall y | 0 <= y < |ns| && y != mp ensures HasNode(ns, ns'[y]) {
      assert ns[y].key == ns'[y].key && ns[y].val == ns'[y].val;
    }
  }

  lemma InsertedExtends(ns: Nodes, k: TValue, v: TValue, mp: nat, f: nat)
    requires mp < |ns| && f < |ns| && ns[f].key.NoKey? && !ns[mp].key.NoKey? && ns[f].val.Nil?
    ensures Extended(ns, Inserted(ns, k, v, mp, f), Identity(|ns|), f, k, v)
    ensures Used(Inserted(ns, k, v, mp, f)) == Used(ns) + 1
  {
    hide Used;
    var ns' := Inserted(ns, k, v, mp, f);
    var next := if ns[mp].next == 0 then ns[f].next else mp + ns[mp].next - f;
    UsedUpdate(ns, f, Node(Live(k), v, next));
    UsedUpdate(ns[f := Node(Live(k), v, next)], mp, Node(ns[mp].key, ns[mp].val, f - mp));
    forall y | 0 <= y < |ns| && y != f ensures HasNode(ns, ns'[y]) {
      assert ns[y].key == ns'[y].key && ns[y].val == ns'[y].val;
    }
  }

  lemma MovedExtends(ns: Nodes, k: TValue, v: TValue, mp: nat, f: nat, prev: nat)
    requires mp < |ns| && f < |ns| && prev < |ns| && prev != mp && prev != f
    requires ns[f].key.NoKey? && ns[f].val.Nil? && !ns[mp].key.NoKey? && !ns[prev].key.NoKey?
    ensures Extended(ns, Moved(ns, k, v, mp, f, prev), Identity(|ns|)[mp := f], mp, k, v)
  {
    var ns' := Moved(ns, k, v, mp, f, prev);
    forall y | 0 <= y < |ns| && y != mp ensures HasNode(ns, ns'[y]) {
      var x := if y == f then mp else y;
      assert ns[x].key == ns'[y].key && ns[x].val == ns'[y].val;
    }
  }

  lemma MovedUses(ns: Nodes, k: TValue, v: TValue, mp: nat, f: nat, prev: nat)
    requires mp < |ns| && f < |ns| && prev < |ns| && prev != mp && prev != f
    requires ns[f].key.NoKey? && !ns[mp].key.NoKey? && !ns[prev].key.NoKey?
    ensures Used(Moved(ns, k, v, mp, f, prev)) == Used(ns) + 1
  {
    hide Used;
    var next := if ns[mp].next == 0 then 0 else ns[mp].next + (mp - f);
    var n1, n2, n3 := Node(ns[prev].key, ns[prev].val, f - prev), Node(ns[mp].key, ns[mp].val, next),
      Node(Live(k), v, 0);
    UsedUpdate(ns, prev, n1);
    UsedUpdate(ns[prev := n1], f, n2);
    UsedUpdate(ns[prev := n1][f := n2], mp, n3);
  }

  /** The nodes in use are no more than the keys outside of the array part, after one more store. */
  lemma UsedStays(used: nat, used': nat, m: map<TValue, TValue>, k: TValue, v: TValue, size: nat, had: bool)
    requires used <= |Outside(m.Keys, size)| && used' <= used + (if had then 0 else 1)
    requires (k in m ==> had) && (InRange(k, size) ==> had) && !v.Nil?
    ensures used' <= |Outside(Store(m, k, v).Keys, size)|
  {
    assert Store(m, k, v).Keys == m.Keys + {k};
    if k in m { assert m.Keys + {k} == m.Keys; } else { OutsideMore(m.Keys, k, size); }
  }

  lemma InsertedAgrees(arr: seq<TValue>, size: nat, ns: Nodes, rank: seq<nat>, h: Hash, m: map<TValue, TValue>,
                       k: TValue, v: TValue, mp: nat, f: nat)
    requires HashOk(ns, rank, h) && size <= |arr| && Agrees(arr, size, ns, m) && IsKey(k) && !v.Nil?
    requires !InRange(k, size) && !InHash(ns, k)
    requires mp < |ns| && f < |ns| && ns[f].key.NoKey? && !ns[mp].key.NoKey?
    requires MainPosition(h, k, |ns|) == mp == MainPosition(h, ns[mp].key.k, |ns|)
    ensures |rank| == |ns| && HashOk(Inserted(ns, k, v, mp, f), InsertedRank(rank, mp, f), h)
    ensures var ns' := Inserted(ns, k, v, mp, f);
      && Agrees(arr, size, ns', Store(m, k, v)) && Used(ns') == Used(ns) + 1 && !ns'[f].key.NoKey?
      && forall x :: 0 <= x < |ns| && !ns[x].key.NoKey? ==> !ns'[x].key.NoKey?
  {
    hide Agrees, Used, MainPosition, Extended, Reaches;
    assert NodeOk(ns, rank, h, f);
    InsertedOk(ns, rank, h, k, v, mp, f);
    InsertedExtends(ns, k, v, mp, f);
    ExtendedAgrees(arr, size, ns, m, Inserted(ns, k, v, mp, f), Identity(|ns|), f, k, v);
  }

  lemma MovedAgrees(arr: seq<TValue>, size: nat, ns: Nodes, rank: seq<nat>, h: Hash, m: map<TValue, TValue>,
                    k: TValue, v: TValue, mp: nat, f: nat, prev: nat)
    requires HashOk(ns, rank, h) && size <= |arr| && Agrees(arr, size, ns, m) && IsKey(k) && !v.Nil?
    requires !InRange(k, size) && !InHash(ns, k)
    requires mp < |ns| && f < |ns| && ns[f].key.NoKey? && !ns[mp].key.NoKey? && Precedes(ns, prev, mp)
    requires MainPosition(h, k, |ns|) == mp != MainPosition(h, ns[mp].key.k, |ns|)
    ensures prev != mp && prev != f
    ensures var ns' := Moved(ns, k, v, mp, f, prev);
      && HashOk(ns', MovedRank(rank, mp, f), h) && Agrees(arr, size, ns', Store(m, k, v))
      && Used(ns') == Used(ns) + 1 && !ns'[f].key.NoKey?
      && forall x :: 0 <= x < |ns| && !ns[x].key.NoKey? ==> !ns'[x].key.NoKey?
  {
    hide Agrees, Used, MainPosition, Extended, Reaches;
    assert LinkOk(ns, rank, prev) && NodeOk(ns, rank, h, f);
    MovedChains(ns, rank, k, v, mp, f, prev);
    MovedOk(ns, rank, h, k, v, mp, f, prev);
    MovedExtends(ns, k, v, mp, f, prev);
    MovedUses(ns, k, v, mp, f, prev);
    ExtendedAgrees(arr, size, ns, m, Moved(ns, k, v, mp, f, prev), Identity(|ns|)[mp := f], mp, k, v);
  }

  function Nils(n: nat): seq<TValue> { seq(n, _ => Nil) }

  /** The entries with keys up to `n`. */
  function Ints(m: map<TValue, TValue>, n: int): map<TValue, TValue> { map k | k in m && InRange(k, n) :: m[k] }

  lemma IntsMore(m: map<TValue, TValue>, arr: seq<TValue>, size: nat, ns: Nodes, i: nat)
    requires i < size <= |arr| <= MAXASIZE && Agrees(arr, size, ns, m)
    ensures Ints(m, i + 1) == if arr[i].Nil? then Ints(m, i) else Store(Ints(m, i), IntKey(i + 1), arr[i])
  {
    var k := IntKey(i + 1);
    if k in m { assert Has(arr, size, ns, k, m[k]); }
  }

  /** A fresh hash part goes with the entries of the array. */
  lemma FreshAgrees(arr: seq<TValue>, size: nat, ns: Nodes, m: map<TValue, TValue>,
                    arr': seq<TValue>, size': nat, n: nat, ns': Nodes)
    requires size <= |arr| && Agrees(arr, size, ns, m) && n <= size && n <= size' <= |arr'| && size <= MAXASIZE
    requires forall i :: 0 <= i < size' ==> arr'[i] == if i < n then arr[i] else Nil
    requires forall x :: 0 <= x < |ns'| ==> ns'[x].key.NoKey? && ns'[x].val.Nil?
    ensures Agrees(arr', size', ns', Ints(m, n))
  {
    var m' := Ints(m, n);
    forall k | k in m' ensures IsKey(k) && !m'[k].Nil? && Has(arr', size', ns', k, m'[k]) {
      assert Has(arr, size, ns, k, m[k]);
    }
  }

  lemma TrimmedAgrees(arr: seq<TValue>, size: nat, ns: Nodes, m: map<TValue, TValue>)
    requires size <= |arr| && Agrees(arr, size, ns, m)
    ensures Agrees(arr[..size], size, ns, m)
  {
    forall k | k in m ensures Has(arr[..size], size, ns, k, m[k]) { assert Has(arr, size, ns, k, m[k]); }
  }

  /** What is left to be reinserted. */
  lemma OldEntries(arr: seq<TValue>, size: nat, ns: Nodes, m: map<TValue, TValue>)
    requires size <= |arr| && Agrees(arr, size, ns, m)
    ensures forall k :: k in m ==>
      && IsKey(k) && !m[k].Nil?
      && (k in Ints(m, size) || exists x :: 0 <= x < |ns| && ns[x].key == Live(k) && ns[x].val == m[k])
    ensures forall x :: 0 <= x < |ns| && !ns[x].val.Nil? ==>
      ns[x].key.Live? && ns[x].key.k in m && m[ns[x].key.k] == ns[x].val
  {
    forall k | k in m
      ensures k in Ints(m, size) || exists x :: 0 <= x < |ns| && ns[x].key == Live(k) && ns[x].val == m[k]
    {
      assert Has(arr, size, ns, k, m[k]);
    }
  }

  /** The keys of the table are those of its two parts. */
  lemma EntriesAre(arr: seq<TValue>, ns: Nodes, m: map<TValue, TValue>)
    requires |arr| <= MAXASIZE && Agrees(arr, |arr|, ns, m)
    ensures m.Keys == ArrayKeys(arr, |arr|) + NodeKeys(ns, 0) && ArrayKeys(arr, |arr|) !! NodeKeys(ns, 0)
    ensures Within(ArrayKeys(arr, |arr|), MAXASIZE) == ArrayKeys(arr, |arr|)
  {
    forall k | k in m ensures k in ArrayKeys(arr, |arr|) + NodeKeys(ns, 0) {
      assert Has(arr, |arr|, ns, k, m[k]);
      if InRange(k, |arr|) { assert k == IntKey((k.i - 1) + 1) && !arr[k.i - 1].Nil?; }
    }
  }

  lemma KeysInArray(arr: seq<TValue>, ns: Nodes, m: map<TValue, TValue>)
    requires |arr| <= MAXASIZE && Agrees(arr, |arr|, ns, m)
    ensures |Within(m.Keys, MAXASIZE)| == |ArrayKeys(arr, |arr|)| + |Within(NodeKeys(ns, 0), MAXASIZE)|
    ensures |m.Keys| == |ArrayKeys(arr, |arr|)| + |NodeKeys(ns, 0)|
  {
    EntriesAre(arr, ns, m);
    var a, b := ArrayKeys(arr, |arr|), NodeKeys(ns, 0);
    assert Within(m.Keys, MAXASIZE) == a + Within(b, MAXASIZE);
  }

  /** Nodes got keys, those from the pointer on if there was none. */
  lemma PartStays(ns: Nodes, rank: seq<nat>, lastfree: int, ns': Nodes, rank': seq<nat>, lastfree': int, h: Hash)
    requires HashPart(ns, rank, lastfree, h) && HashOk(ns', rank', h) && |ns'| == |ns| && 0 <= lastfree' <= |ns'|
    requires lastfree >= 0
    requires forall x :: 0 <= x < |ns| && !ns[x].key.NoKey? ==> !ns'[x].key.NoKey?
    requires forall x :: lastfree' <= x < |ns| ==> !ns'[x].key.NoKey?
    ensures HashPart(ns', rank', lastfree', h)
  {
  }

  lemma KilledOk(ns: Nodes, rank: seq<nat>, h: Hash, x: nat)
    requires HashOk(ns, rank, h) && x < |ns| && ns[x].val.Nil? && !ns[x].key.NoKey?
    ensures HashOk(ns[x := Node(Dead(ns[x].key.k), ns[x].val, ns[x].next)], rank, h)
    ensures Used(ns[x := Node(Dead(ns[x].key.k), ns[x].val, ns[x].next)]) == Used(ns)
  {
    var n := Node(Dead(ns[x].key.k), ns[x].val, ns[x].next);
    var ns' := ns[x := n];
    UsedUpdate(ns, x, n);
    ChainsSame(ns, ns', rank);
    hide Chains, Reaches;
    forall y | 0 <= y < |ns'| ensures NodeOk(ns', rank, h, y) {
      assert NodeOk(ns, rank, h, y);
      if !ns[y].key.NoKey? { ReachesSame(ns, ns', rank, MainPosition(h, ns[y].key.k, |ns|), y); }
    }
  }

  lemma KilledAgrees(arr: seq<TValue>, size: nat, ns: Nodes, m: map<TValue, TValue>, x: nat)
    requires size <= |arr| && Agrees(arr, size, ns, m) && x < |ns| && ns[x].val.Nil? && !ns[x].key.NoKey?
    ensures Agrees(arr, size, ns[x := Node(Dead(ns[x].key.k), ns[x].val, ns[x].next)], m)
  {
    var ns' := ns[x := Node(Dead(ns[x].key.k), ns[x].val, ns[x].next)];
    forall k | k in m ensures Has(arr, size, ns', k, m[k]) {
      assert Has(arr, size, ns, k, m[k]);
      if !InRange(k, size) {
        var y :| 0 <= y < |ns| && ns[y].key == Live(k) && ns[y].val == m[k];
        assert ns'[y] == ns[y];
      }
    }
  }

  class Table {
    const hash: Hash
    var arr: seq<TValue>
    var alimit: nat
    var isreal: bool
    var node: Nodes
    var lastfree: int
    ghost var rank: seq<nat>
    ghost var contents: map<TValue, TValue>

    // ----- the size of the array part -----

    predicate LimitEqualsSize()
      reads `alimit, `isreal
    {
      isreal || IsPow2(alimit)
    }

    /** `luaH_realasize` */
    function RealSize(): (size: nat)
      reads `alimit, `isreal
    {
      if LimitEqualsSize() then alimit else NextPow2(alimit)
    }

    predicate IsPow2RealSize()
      reads `alimit, `isreal
    {
      !isreal || IsPow2(alimit)
    }

    predicate IsDummy()
      reads `lastfree
    {
      lastfree < 0
    }

    // ----- the invariant -----

    ghost predicate SizesOk()
      reads `arr, `alimit, `isreal
    {
      alimit <= MAXASIZE && RealSize() <= |arr| <= MAXASIZE
    }

    ghost predicate Valid()
      reads this
    {
      && SizesOk() && HashPart(node, rank, lastfree, hash)
      && Agrees(arr, RealSize(), node, contents)
    }

    /** The array is as large as it seems; not so while it is about to shrink. */
    predicate Whole()
      reads `arr, `alimit, `isreal
    {
      RealSize() == |arr|
    }

    /** There is a free node. */
    predicate Room()
      reads `node, `lastfree
    {
      !IsDummy() && Used(node) < |node|
    }

    /** The slot of a key. */
    ghost predicate IsSlot(k: TValue, s: Slot)
      reads `alimit, `isreal, `node
    {
      match s
      case Absent => !InRange(k, RealSize()) && !InHash(node, k)
      case Cell(i) => i < RealSize() && k == IntKey(i + 1)
      case InNode(x) => !InRange(k, RealSize()) && x < |node| && node[x].key == Live(k)
    }

    ghost predicate HasSlot(k: TValue)
      reads `alimit, `isreal, `node
    {
      InRange(k, RealSize()) || InHash(node, k)
    }

    /** No rehash is needed to store something under this key. */
    ghost function Depth(k: TValue): (d: nat)
      reads `alimit, `isreal, `node, `lastfree
    {
      if Room() || HasSlot(k) then 0 else 1
    }

    /** The value in a slot. */
    function ValueAt(s: Slot): TValue
      reads `arr, `node
      requires match s case Absent => true case Cell(i) => i < |arr| case InNode(x) => x < |node|
    {
      match s
      case Absent => Nil
      case Cell(i) => arr[i]
      case InNode(x) => node[x].val
    }

    /** The value of a slot is that of the key. */
    lemma SlotValue(k: TValue, s: Slot)
      requires Valid() && IsSlot(k, s) && (s.Cell? ==> s.i < MAXASIZE)
      ensures match s case Absent => true case Cell(i) => i < |arr| case InNode(x) => x < |node|
      ensures ValueAt(s) == Lookup(contents, k)
    {
      if k in contents { assert Has(arr, RealSize(), node, k, contents[k]); }
    }

    // ----- reading -----

    /** `getgeneric` and the search for short strings and integers: follows the chain of the key. */
    method GetGeneric(k: TValue) returns (s: Slot)
      requires Valid() && !InRange(k, RealSize())
      ensures IsSlot(k, s) && !s.Cell?
    {
      var n := MainPosition(hash, k, |node|);
      ghost var m := n;
      forall x | 0 <= x < |node| && node[x].key == Live(k) ensures Reaches(node, rank, n, x) {
        assert NodeOk(node, rank, hash, x);
      }
      while true
        invariant 0 <= n < |node| == |rank|
        invariant forall x :: 0 <= x < |node| && node[x].key == Live(k) ==> Reaches(node, rank, n, x)
        decreases rank[n]
      {
        if node[n].key == Live(k) { return InNode(n); }
        assert LinkOk(node, rank, n);
        if node[n].next == 0 { return Absent; }
        n := n + node[n].next;
      }
    }

    /** `luaH_getint`: a key beyond the hint may be in the array, and moves the hint. */
    method GetInt(key: Integer) returns (s: Slot)
      requires Valid()
      modifies `alimit
      ensures Valid() && RealSize() == old(RealSize()) && IsSlot(Int(key), s) && (isreal ==> alimit == old(alimit))
    {
      hide AndNot, NextPow2, IsPow2, IsCeiling, Agrees, HashPart, Pow;
      var k := Wrapped(key - 1);
      LimitFits();
      InArray(key);
      if k < alimit {
        return Cell(k);
      } else if !isreal && AndNot(k, Wrapped(alimit - 1)) < alimit {
        MoveLimit(key);
        alimit := key;
        return Cell(k);
      } else {
        s := GetGeneric(Int(key));
      }
    }

    /** The two tests of `luaH_getint` together are exact. */
    lemma InArray(key: Integer)
      requires SizesOk()
      ensures Wrapped(key - 1) < alimit ==> InRange(Int(key), RealSize())
      ensures Wrapped(key - 1) >= alimit ==>
        (!isreal && AndNot(Wrapped(key - 1), Wrapped(alimit - 1)) < alimit <==> InRange(Int(key), RealSize()))
      ensures InRange(Int(key), RealSize()) ==> Wrapped(key - 1) == key - 1
      ensures !isreal && InRange(Int(key), RealSize()) && Wrapped(key - 1) >= alimit ==>
        RealSize() / 2 < key && alimit > 0
    {
      hide AndNot, NextPow2, IsPow2, Pow;
      LimitFits();
      if !isreal && alimit > 0 { MaskIsExact(Wrapped(key - 1), alimit, RealSize()); }
    }

    /** The hint is between half of the size and the size. */
    lemma LimitFits()
      requires alimit <= MAXASIZE
      ensures alimit <= RealSize() && (!isreal ==> IsCeiling(alimit, RealSize()))
    {
      MaxSize();
      if !isreal && alimit > 0 {
        if IsPow2(alimit) { Pow2IsPow(alimit); } else { NextIsCeiling(alimit); }
      }
    }

    /** Any number in the upper half can be the hint. */
    lemma MoveLimit(limit: nat)
      requires alimit <= MAXASIZE && !isreal && RealSize() / 2 < limit <= RealSize() && alimit > 0
      ensures (if IsPow2(limit) then limit else NextPow2(limit)) == RealSize()
    {
      LimitFits();
      MaxSize();
      CeilingSame(alimit, limit, RealSize());
      if IsPow2(limit) {
        Pow2IsPow(limit);
        CeilingUnique(limit, limit, RealSize());
      } else {
        NextIsCeiling(limit);
        CeilingUnique(limit, NextPow2(limit), RealSize());
      }
    }

    /** `luaH_get` */
    method Get(k: TValue) returns (s: Slot)
      requires Valid()
      modifies `alimit
      ensures Valid() && RealSize() == old(RealSize()) && IsSlot(Normal(k), s) && (isreal ==> alimit == old(alimit))
    {
      match k {
        case Nil =>
          forall x | 0 <= x < |node| ensures node[x].key != Live(k) { assert NodeOk(node, rank, hash, x); }
          return Absent;
        case Int(i) =>
          s := GetInt(i);
          return;
        case Flt(r) =>
          if FitsInteger(r) {
            s := GetInt(r.Floor);
            return;
          }
        case _ =>
      }
      s := GetGeneric(k);
    }

    /** The value of a key is that of the map. */
    method GetValue(k: TValue) returns (v: TValue)
      requires Valid()
      modifies `alimit
      ensures Valid() && RealSize() == old(RealSize()) && v == Lookup(contents, Normal(k))
    {
      var s := Get(k);
      SlotValue(Normal(k), s);
      v := ValueAt(s);
    }

    // ----- writing -----

    /** What a store does when no rehash is needed. */
    twostate predicate Quiet(k: TValue)
      reads this
    {
      old(Depth(k)) == 0 ==>
        && |arr| == old(|arr|) && RealSize() == old(RealSize()) && isreal == old(isreal) && |node| == old(|node|)
        && (IsDummy() <==> old(IsDummy()))
        && Used(node) <= old(Used(node)) + (if old(HasSlot(k)) then 0 else 1)
        && (!InRange(k, RealSize()) ==> arr == old(arr))
    }

    /** `luaH_set` */
    method Set(k: TValue, v: TValue) returns (err: Error)
      requires Valid() && (Depth(Normal(k)) == 0 || Whole())
      modifies this
      ensures Valid() && (contents, err) == Assigned(old(contents), k, v) && Quiet(Normal(k))
      ensures (old(Whole()) ==> Whole())
      decreases Depth(Normal(k)), 7
    {
      hide NextPow2, IsPow2, HashPart, Agrees;
      var s := Get(k);
      err := FinishSet(k, s, v);
    }

    /** `luaH_setint` */
    method SetInt(i: Integer, v: TValue)
      requires Valid() && (Depth(Int(i)) == 0 || Whole())
      modifies this
      ensures Valid() && contents == Store(old(contents), Int(i), v) && Quiet(Int(i)) && (old(Whole()) ==> Whole())
      decreases Depth(Int(i)), 7
    {
      hide NextPow2, IsPow2, HashPart, Agrees;
      var s := GetInt(i);
      var _ := FinishSet(Int(i), s, v);
    }

    /** `luaH_finishset` */
    method FinishSet(k: TValue, s: Slot, v: TValue) returns (err: Error)
      requires Valid() && IsSlot(Normal(k), s) && (Depth(Normal(k)) == 0 || Whole())
      modifies this
      ensures Valid() && (contents, err) == Assigned(old(contents), k, v) && Quiet(Normal(k))
      ensures (old(Whole()) ==> Whole())
      decreases Depth(Normal(k)), 6
    {
      hide NextPow2, IsPow2, Used, Agrees, MainPosition, Reaches, Pow;
      match s {
        case Absent =>
          err := NewKey(k, v);
        case Cell(i) =>
          StoredInCell(arr, RealSize(), node, contents, i, v);
          arr := arr[i := v];
          contents := Store(contents, IntKey(i + 1), v);
          err := NoError;
        case InNode(x) =>
          assert NodeOk(node, rank, hash, x);
          StoredInNode(arr, RealSize(), node, contents, x, v);
          ChangedOk(node, rank, hash, x, v);
          node := node[x := Node(node[x].key, v, node[x].next)];
          contents := Store(contents, Normal(k), v);
          err := NoError;
      }
    }

    /** `getfreepos`: the pointer goes down to a node that never had a key. */
    method GetFreePos() returns (f: int)
      requires Valid()
      modifies `lastfree
      ensures f == NULL ==> Valid() && !Room() && (IsDummy() <==> old(IsDummy()))
      ensures f != NULL ==> 0 <= f == lastfree < |node| && node[f].key.NoKey? && !old(IsDummy())
      ensures f != NULL ==> forall x :: f < x < |node| ==> !node[x].key.NoKey?
    {
      if !IsDummy() {
        while lastfree > 0
          invariant 0 <= lastfree <= |node| && forall x :: lastfree <= x < |node| ==> !node[x].key.NoKey?
        {
          lastfree := lastfree - 1;
          if node[lastfree].key.NoKey? {
            return lastfree;
          }
        }
        UsedAll(node);
      }
      return NULL;
    }

    /** The node before a colliding one that is out of its main position. */
    method PreviousOf(mp: nat) returns (othern: nat)
      requires HashOk(node, rank, hash) && mp < |node| && node[mp].key.Live?
      requires mp != MainPosition(hash, node[mp].key.k, |node|)
      ensures Precedes(node, othern, mp) && |rank| == |node|
    {
      hide MainPosition;
      assert NodeOk(node, rank, hash, mp);
      othern := MainPosition(hash, node[mp].key.k, |node|);
      while othern + node[othern].next != mp
        invariant 0 <= othern < |node| == |rank| && othern != mp && Reaches(node, rank, othern, mp)
        decreases rank[othern]
      {
        othern := othern + node[othern].next;
      }
    }

    /** The colliding node goes to `f`, and the new key takes its place. */
    method MoveAway(k: TValue, v: TValue, mp: nat, f: nat)
      requires HashOk(node, rank, hash) && SizesOk() && Agrees(arr, RealSize(), node, contents)
      requires IsKey(k) && !v.Nil? && !HasSlot(k) && mp < |node| && mp == MainPosition(hash, k, |node|)
      requires node[mp].key.Live?
      requires f < |node| && node[f].key.NoKey? && mp != MainPosition(hash, node[mp].key.k, |node|)
      modifies `node, `rank, `contents
      ensures HashOk(node, rank, hash) && |node| == old(|node|) && Agrees(arr, RealSize(), node, contents)
      ensures contents == Store(old(contents), k, v) && Used(node) == old(Used(node)) + 1
      ensures !node[f].key.NoKey? && forall x :: 0 <= x < |node| && !old(node)[x].key.NoKey? ==> !node[x].key.NoKey?
    {
      hide NextPow2, IsPow2, Agrees, Used, MainPosition, Normal, Pow, HashOk, Chains, Extended, NodeOk, LinkOk, Reaches;
      ghost var ns := node;
      var othern := PreviousOf(mp);
      MovedAgrees(arr, RealSize(), node, rank, hash, contents, k, v, mp, f, othern);
      var colliding := node[mp];
      node := node[othern := Node(node[othern].key, node[othern].val, f - othern)];
      node := node[f := colliding];
      if colliding.next != 0 {
        node := node[f := Node(colliding.key, colliding.val, colliding.next + (mp - f))];
      }
      node := node[mp := Node(Live(k), v, 0)];
      assert node == Moved(ns, k, v, mp, f, othern);
      rank := MovedRank(rank, mp, f);
      contents := Store(contents, k, v);
    }

    /** A place for a key whose main position is taken: the colliding node goes to `f` if it does not belong there. */
    method MakePlace(k: TValue, v: TValue, mp: nat, f: nat)
      requires HashOk(node, rank, hash) && SizesOk() && Agrees(arr, RealSize(), node, contents)
      requires IsKey(k) && !v.Nil? && !HasSlot(k) && mp < |node| && mp == MainPosition(hash, k, |node|)
      requires node[mp].key.Live?
      requires f < |node| && node[f].key.NoKey?
      modifies `node, `rank, `contents
      ensures HashOk(node, rank, hash) && |node| == old(|node|) && Agrees(arr, RealSize(), node, contents)
      ensures contents == Store(old(contents), k, v) && Used(node) == old(Used(node)) + 1
      ensures !node[f].key.NoKey? && forall x :: 0 <= x < |node| && !old(node)[x].key.NoKey? ==> !node[x].key.NoKey?
    {
      hide NextPow2, IsPow2, Agrees, Used, MainPosition, HashOk, IsKey, Normal, Pow;
      if MainPosition(hash, node[mp].key.k, |node|) != mp {
        MoveAway(k, v, mp, f);
      } else {
        InsertedAgrees(arr, RealSize(), node, rank, hash, contents, k, v, mp, f);
        var next := if node[mp].next != 0 then mp + node[mp].next - f else node[f].next;
        node := node[f := Node(Live(k), v, next)];
        node := node[mp := Node(node[mp].key, node[mp].val, f - mp)];
        rank := InsertedRank(rank, mp, f);
        contents := Store(contents, k, v);
      }
    }

    /** `luaH_newkey` */
    method NewKey(k0: TValue, v: TValue) returns (err: Error)
      requires Valid() && !HasSlot(Normal(k0)) && (Depth(Normal(k0)) == 0 || Whole())
      modifies this
      ensures Valid() && (contents, err) == Assigned(old(contents), k0, v) && Quiet(Normal(k0))
      ensures (old(Whole()) ==> Whole())
      decreases Depth(Normal(k0)), 5
    {
      hide NextPow2, IsPow2, Used, Agrees, HashPart;
      var k := k0;
      match k0 {
        case Nil =>
          return IndexIsNil;
        case Flt(r) =>
          if FitsInteger(r) {
            k := Int(r.Floor);
          }
        case NaN =>
          return IndexIsNaN;
        case _ =>
      }
      EntryHasSlot(k);
      if v.Nil? {
        assert contents - {k} == contents;
        return NoError;
      }
      AddKey(k, v);
      err := NoError;
    }

    lemma LiveValue(x: nat)
      requires Valid() && x < |node| && !node[x].val.Nil?
      ensures node[x].key.Live?
    {
    }

    /** The main position of the key has no value. */
    method TakePlace(k: TValue, v: TValue, mp: nat)
      requires HashOk(node, rank, hash) && SizesOk() && Agrees(arr, RealSize(), node, contents)
      requires IsKey(k) && !v.Nil? && !HasSlot(k) && mp < |node| && mp == MainPosition(hash, k, |node|)
      requires node[mp].val.Nil?
      modifies `node, `contents
      ensures HashOk(node, rank, hash) && |node| == old(|node|) && Agrees(arr, RealSize(), node, contents)
      ensures contents == Store(old(contents), k, v) && Used(node) <= old(Used(node)) + 1
      ensures forall x :: 0 <= x < |node| && !old(node)[x].key.NoKey? ==> !node[x].key.NoKey?
    {
      hide NextPow2, IsPow2, Used, Agrees, MainPosition, Chains, Reaches;
      PlacedHere(node, rank, hash, k, v, mp);
      PlacedExtends(node, k, v, mp);
      ExtendedAgrees(arr, RealSize(), node, contents, node[mp := Node(Live(k), v, node[mp].next)], Identity(|node|), mp,
        k, v);
      node := node[mp := Node(Live(k), v, node[mp].next)];
      contents := Store(contents, k, v);
    }

    /** The part of `luaH_newkey` that finds a node. */
    method AddKey(k: TValue, v: TValue)
      requires Valid() && IsKey(k) && !v.Nil? && !HasSlot(k) && (Depth(k) == 0 || Whole())
      modifies this
      ensures Valid() && contents == Store(old(contents), k, v) && Quiet(k) && (old(Whole()) ==> Whole())
      decreases Depth(k), 4
    {
      hide HashPart, Used, Agrees, InHash, Store;
      var added := UseNode(k, v);
      if !added {
        Rehash(k);
        var _ := Set(k, v);
      }
    }

    /** Puts the key into a node, if there is one for it. */
    method UseNode(k: TValue, v: TValue) returns (added: bool)
      requires Valid() && IsKey(k) && !v.Nil? && !HasSlot(k)
      modifies `node, `rank, `contents, `lastfree
      ensures Valid() && (IsDummy() <==> old(IsDummy())) && |node| == old(|node|)
      ensures if added then contents == Store(old(contents), k, v) && Used(node) <= old(Used(node)) + 1
              else !old(Room()) && !Room() && node == old(node) && contents == old(contents)
    {
      hide Used, Agrees, MainPosition, HashOk, IsKey, Normal, Store;
      PartSizes();
      ghost var ns, rk, lf := node, rank, lastfree;
      var mp := MainPosition(hash, k, |node|);
      if !node[mp].val.Nil? || IsDummy() {
        if !node[mp].val.Nil? { LiveValue(mp); }
        var f := GetFreePos();
        if f == NULL { return false; }
        MakePlace(k, v, mp, f);
      } else {
        TakePlace(k, v, mp);
      }
      PartStays(ns, rk, lf, node, rank, lastfree, hash);
      return true;
    }

    lemma PartSizes()
      requires Valid()
      ensures |rank| == |node| > 0
    {
    }

    lemma EntryHasSlot(k: TValue)
      requires Valid()
      ensures k in contents ==> HasSlot(k)
    {
      if k in contents { assert Has(arr, RealSize(), node, k, contents[k]); }
    }

    // ----- new sizes -----

    method SetLimitToSize() returns (size: nat)
      requires Valid()
      modifies `alimit, `isreal
      ensures Valid() && size == alimit == RealSize() == old(RealSize()) && isreal
    {
      alimit := RealSize();
      isreal := true;
      size := alimit;
    }

    /** `setnodevector` */
    method SetNodeVector(size: nat) returns (ns: Nodes, lf: int, ghost rk: seq<nat>)
      ensures HashPart(ns, rk, lf, hash) && Used(ns) == 0 && |ns| >= size && (lf < 0 <==> size == 0)
      ensures forall x :: 0 <= x < |ns| ==> ns[x] == Node(NoKey, Nil, 0)
    {
      if size == 0 {
        ns, lf, rk := [Node(NoKey, Nil, 0)], NULL, [0];
        assert |ns| == Pow(0);
      } else {
        var lsize := CeilLog2(size);
        ns := seq(Pow(lsize), _ => Node(NoKey, Nil, 0));
        rk := seq(Pow(lsize), _ => 0);
        lf := |ns|;
        assert |ns| == Pow(lsize);
      }
      UsedNone(ns);
      assert Chains(ns, rk);
    }

    /** A key of `C` that is not in the table yet can be stored at once. */
    lemma RoomFor(C: map<TValue, TValue>, k: TValue, nhsize: nat)
      requires Valid() && k in C && contents.Keys <= C.Keys && |Outside(C.Keys, RealSize())| <= nhsize <= |node|
      requires Used(node) <= |Outside(contents.Keys, RealSize())| && (IsDummy() ==> nhsize == 0)
      ensures Depth(k) == 0
    {
      if !HasSlot(k) {
        EntryHasSlot(k);
        OutsideMore(contents.Keys, k, RealSize());
        OutsideFewer(contents.Keys + {k}, C.Keys, RealSize());
      }
    }

    /** `reinsert` */
    method Reinsert(ot: Nodes, nhsize: nat, ghost C: map<TValue, TValue>)
      requires Valid() && Whole() && isreal && contents.Keys <= C.Keys
      requires (forall k :: k in contents ==> contents[k] == C[k])
      requires forall x :: 0 <= x < |ot| && !ot[x].val.Nil? ==>
        ot[x].key.Live? && ot[x].key.k in C && C[ot[x].key.k] == ot[x].val
      requires forall k :: k in C ==>
        IsKey(k) && (k in contents || exists x :: 0 <= x < |ot| && ot[x].key == Live(k) && ot[x].val == C[k])
      requires |Outside(C.Keys, RealSize())| <= nhsize <= |node| && (IsDummy() ==> nhsize == 0)
      requires Used(node) <= |Outside(contents.Keys, RealSize())| && forall k :: k in C ==> !C[k].Nil?
      modifies this
      ensures Valid() && contents == C && RealSize() == old(RealSize()) == |arr| && isreal && |node| == old(|node|)
      ensures Used(node) <= |Outside(contents.Keys, RealSize())| && (IsDummy() <==> old(IsDummy()))
      decreases 1, 0
    {
      hide NextPow2, IsPow2, HashPart, Agrees, Used, Outside;
      for j := 0 to |ot|
        invariant Valid() && Whole() && isreal && RealSize() == old(RealSize()) && |node| == old(|node|)
        invariant (IsDummy() <==> old(IsDummy()))
        invariant contents.Keys <= C.Keys && (forall k :: k in contents ==> contents[k] == C[k])
        invariant forall k :: k in old(contents) ==> k in contents
        invariant forall x :: 0 <= x < j && !ot[x].val.Nil? ==> ot[x].key.k in contents
        invariant Used(node) <= |Outside(contents.Keys, RealSize())|
      {
        var n := ot[j];
        if !n.val.Nil? {
          RoomFor(C, n.key.k, nhsize);
          EntryHasSlot(n.key.k);
          ghost var used, m, had := Used(node), contents, HasSlot(n.key.k);
          var _ := Set(n.key.k, n.val);
          UsedStays(used, Used(node), m, n.key.k, n.val, RealSize(), had);
        }
      }
      assert contents == C;
    }
    /** The part of `luaH_resize` that moves the vanishing slice of the array to the new hash part. */
    method Vanish(oldasize: nat, nhsize: nat, ghost C: map<TValue, TValue>, ghost ot: Nodes)
      requires Valid() && isreal && alimit <= oldasize == |arr| && contents == Ints(C, alimit)
      requires Agrees(arr, oldasize, ot, C) && |Outside(C.Keys, alimit)| <= nhsize <= |node|
      requires (IsDummy() ==> nhsize == 0)
      requires Used(node) == 0
      modifies this
      ensures Valid() && isreal && alimit == old(alimit) && contents == Ints(C, oldasize) && arr == old(arr)
      ensures |node| == old(|node|) && (IsDummy() <==> old(IsDummy())) && Used(node) <= |Outside(contents.Keys, alimit)|
      decreases 1, 0
    {
      hide NextPow2, IsPow2, HashPart, Used, Outside, Has;
      for i := alimit to oldasize
        invariant Valid() && isreal && alimit == old(alimit) && arr == old(arr) && contents == Ints(C, i)
        invariant |node| == old(|node|) && (IsDummy() <==> old(IsDummy()))
        invariant Used(node) <= |Outside(contents.Keys, alimit)|
      {
        if !arr[i].Nil? {
          var k := IntKey(i + 1);
          RoomFor(C, k, nhsize);
          EntryHasSlot(k);
          ghost var used, m, had := Used(node), contents, HasSlot(k);
          SetInt(i + 1, arr[i]);
          UsedStays(used, Used(node), m, k, arr[i], alimit, had);
        }
        IntsMore(C, arr, oldasize, ot, i);
      }
    }

    /** The new hash part takes over the entries from the end of the array that is to go; the old one stays for now. */
    method FillShrunk(newasize: nat, newnode: Nodes, newfree: int, ghost newrank: seq<nat>, nhsize: nat)
      returns (ns: Nodes, lf: int, ghost rk: seq<nat>)
      requires Valid() && Whole() && isreal && newasize < alimit && |Outside(contents.Keys, newasize)| <= nhsize
      requires HashPart(newnode, newrank, newfree, hash) && Used(newnode) == 0 && |newnode| >= nhsize
      requires forall x :: 0 <= x < |newnode| ==> newnode[x] == Node(NoKey, Nil, 0)
      requires newfree < 0 ==> nhsize == 0
      modifies this
      ensures arr == old(arr) && isreal && contents == Ints(old(contents), old(alimit))
      ensures HashPart(ns, rk, lf, hash) && |ns| == |newnode| && (lf < 0 <==> newfree < 0)
      ensures Agrees(arr[..newasize], newasize, ns, contents) && Used(ns) <= |Outside(contents.Keys, newasize)|
      decreases 1, 1
    {
      hide NextPow2, IsPow2, HashPart, Used, Outside, Has, Agrees;
      var oldasize, oldnode, oldfree := alimit, node, lastfree;
      ghost var C, oldrank := contents, rank;
      FreshAgrees(arr, oldasize, node, C, arr, newasize, newasize, newnode);
      alimit := newasize;
      node, lastfree, rank := newnode, newfree, newrank;
      contents := Ints(C, newasize);
      Vanish(oldasize, nhsize, C, oldnode);
      ns, lf, rk := node, lastfree, rank;
      alimit := oldasize;
      node, lastfree, rank := oldnode, oldfree, oldrank;
      TrimmedAgrees(arr, newasize, ns, contents);
    }

    /** `luaH_resize`; the hash part is asked to be large enough for the keys that do not go to the array. */
    method Resize(newasize: nat, nhsize: nat)
      requires Valid() && Whole() && newasize <= MAXASIZE && |Outside(contents.Keys, newasize)| <= nhsize
      modifies this
      ensures Valid() && Whole() && contents == old(contents) && RealSize() == newasize && isreal
      ensures Used(node) <= |Outside(contents.Keys, newasize)| && |node| >= nhsize && (IsDummy() <==> nhsize == 0)
      decreases 1, 2
    {
      hide NextPow2, IsPow2, HashPart, Used, Outside, Has, Agrees;
      var oldasize := SetLimitToSize();
      ghost var C, oldarr := contents, arr;
      var newnode, newfree;
      ghost var newrank;
      newnode, newfree, newrank := SetNodeVector(nhsize);
      var oldnode := node;
      if newasize < oldasize {
        newnode, newfree, newrank := FillShrunk(newasize, newnode, newfree, newrank, nhsize);
      } else {
        contents := Ints(C, oldasize);
        FreshAgrees(arr, oldasize, node, C, arr + Nils(newasize - oldasize), newasize, oldasize, newnode);
      }
      arr := if newasize < oldasize then arr[..newasize] else arr + Nils(newasize - oldasize);
      node, lastfree, rank := newnode, newfree, newrank;
      alimit := newasize;
      OldEntries(oldarr, oldasize, oldnode, C);
      Reinsert(oldnode, nhsize, C);
    }

    /** `rehash`: the array part gets its best size, and there is room for the new key. */
    method Rehash(k: TValue)
      requires Valid() && Whole() && !HasSlot(k) && IsKey(k)
      modifies this
      ensures Valid() && Whole() && contents == old(contents) && Depth(k) == 0
      ensures isreal && Optimal(contents.Keys + {k}, RealSize())
      ensures |node| >= |Outside(contents.Keys + {k}, RealSize())|
      decreases 1, 3
    {
      hide NextPow2, IsPow2, Used, Outside, Within, Has, CountsOk, Optimal;
      var nums := seq(MAXABITS + 1, _ => 0);
      NoCounts(nums);
      var _ := SetLimitToSize();
      EntryHasSlot(k);
      EntriesAre(arr, node, contents);
      var na, totaluse, more;
      na, nums := NumUseArray(arr, nums);
      totaluse := na;
      more, nums, na := NumUseHash(node, nums, na, ArrayKeys(arr, |arr|));
      totaluse := totaluse + more;
      ghost var K := contents.Keys + {k};
      OutsideMore(contents.Keys, k, MAXASIZE);
      KeysInArray(arr, node, contents);
      if k.Int? {
        var c;
        c, nums := CountInt(k.i, nums, contents.Keys);
        na := na + c;
      } else {
        CountMore(nums, contents.Keys, k, 0);
      }
      totaluse := totaluse + 1;
      var asize;
      asize, na := ComputeSizes(nums, na, K);
      Parts(K, asize);
      OutsideFewer(contents.Keys, K, asize);
      Resize(asize, totaluse - na);
      OutsideMore(contents.Keys, k, asize);
    }

    // ----- borders -----

    /** Integer keys up to the size are in the array, and nowhere else. */
    lemma ArrayEntries()
      requires Valid()
      ensures forall i :: 0 <= i < RealSize() ==> (IntKey(i + 1) in contents <==> !arr[i].Nil?)
    {
      forall i | 0 <= i < RealSize() ensures IntKey(i + 1) in contents <==> !arr[i].Nil? {
        if IntKey(i + 1) in contents { assert Has(arr, RealSize(), node, IntKey(i + 1), contents[IntKey(i + 1)]); }
      }
    }

    /** A number in the upper half can be the hint if the size is a power of two. */
    lemma HintFits(limit: nat)
      requires SizesOk() && alimit > 0 && IsPow2RealSize() && RealSize() / 2 < limit <= RealSize()
      ensures (if IsPow2(limit) then limit else NextPow2(limit)) == RealSize()
    {
      MaxSize();
      LimitFits();
      if isreal { Pow2IsPow(alimit); }
      CeilingSame(alimit, limit, RealSize());
      if IsPow2(limit) {
        Pow2IsPow(limit);
        CeilingUnique(limit, limit, RealSize());
      } else {
        NextIsCeiling(limit);
        CeilingUnique(limit, NextPow2(limit), RealSize());
      }
    }

    /** The number before the hint is in the upper half, too, unless it is a power of two. */
    lemma BeforeLimit()
      requires SizesOk() && alimit > 1 && IsPow2RealSize() && !IsPow2(alimit - 1)
      ensures RealSize() / 2 < alimit - 1
    {
      LimitFits();
      if isreal { Pow2IsPow(alimit); }
      var n: nat :| RealSize() == Pow(n);
      assert n > 0 ==> RealSize() == 2 * Pow(n - 1);
      Pow2IsPow(alimit - 1);
      assert alimit - 1 != Pow(n - 1);
    }

    /** `luaH_getn` */
    method GetN() returns (n: nat)
      requires Valid()
      modifies `alimit, `isreal
      ensures Valid() && RealSize() == old(RealSize()) && IsBorder(contents, n)
    {
      hide NextPow2, IsPow2, HashPart, Agrees;
      ArrayEntries();
      LimitFits();
      var limit := alimit;
      if limit > 0 && arr[limit - 1].Nil? {
        if limit >= 2 && !arr[limit - 2].Nil? {
          if IsPow2RealSize() && !IsPow2(limit - 1) {
            BeforeLimit();
            HintFits(limit - 1);
            alimit := limit - 1;
            isreal := false;
          }
          return limit - 1;
        } else {
          var boundary := BinSearch(arr, 0, limit);
          if IsPow2RealSize() && boundary > RealSize() / 2 {
            HintFits(boundary);
            alimit := boundary;
            isreal := false;
          }
          return boundary;
        }
      }
      if !LimitEqualsSize() {
        NotYet();
        if arr[limit].Nil? { return limit; }
        limit := RealSize();
        if arr[limit - 1].Nil? {
          var boundary := BinSearch(arr, alimit, limit);
          HintFits(boundary);
          alimit := boundary;
          return boundary;
        }
      }
      if IsDummy() {
        NoNodes(limit);
        return limit;
      }
      var s := GetInt(limit + 1);
      SlotValue(Int(limit + 1), s);
      PresentValue(Int(limit + 1));
      if ValueAt(s).Nil? { return limit; }
      n := HashSearch(limit);
    }

    lemma NotYet()
      requires SizesOk() && !LimitEqualsSize()
      ensures 0 < alimit < RealSize() && RealSize() / 2 < alimit
    {
      assert alimit > 0 && !isreal;
      hide NextPow2, IsPow2;
      LimitFits();
      Pow2IsPow(alimit);
      var size := RealSize();
      var n: nat :| size == Pow(n);
      assert !IsPow2(alimit);
      assert size == alimit ==> exists m: nat :: alimit == Pow(m);
      assert size != alimit;
    }

    lemma NoNodes(limit: nat)
      requires Valid() && IsDummy() && RealSize() <= limit
      ensures IntKey(limit + 1) !in contents
    {
      var k := IntKey(limit + 1);
      EntryHasSlot(k);
    }

    lemma PresentValue(k: TValue)
      requires Valid()
      ensures Lookup(contents, k).Nil? <==> k !in contents
    {
    }

    /** `binsearch` */
    method BinSearch(a: seq<TValue>, lo: nat, hi: nat) returns (i: nat)
      requires lo < hi <= |a| && (lo > 0 ==> !a[lo - 1].Nil?) && a[hi - 1].Nil?
      ensures lo <= i < hi && (i > 0 ==> !a[i - 1].Nil?) && a[i].Nil?
    {
      var j := hi;
      i := lo;
      while j - i > 1
        invariant lo <= i < j <= hi && (i > 0 ==> !a[i - 1].Nil?) && a[j - 1].Nil?
      {
        var m := (i + j) / 2;
        if a[m - 1].Nil? { j := m; } else { i := m; }
      }
    }

    /** Is the integer absent? */
    method IsEmptyInt(i: Integer) returns (b: bool)
      requires Valid()
      modifies `alimit
      ensures Valid() && RealSize() == old(RealSize()) && (b <==> Int(i) !in contents)
    {
      var s := GetInt(i);
      SlotValue(Int(i), s);
      PresentValue(Int(i));
      b := ValueAt(s).Nil?;
    }

    /** `hash_search` */
    method HashSearch(start: nat) returns (n: nat)
      requires Valid() && start < MAXINTEGER && (start == 0 || Int(start) in contents) && Int(start + 1) in contents
      modifies `alimit
      ensures Valid() && RealSize() == old(RealSize()) && IsBorder(contents, n)
    {
      hide NextPow2, IsPow2, HashPart, Agrees;
      var j := if start == 0 then 1 else start;
      var i := j;
      var absent := false;
      while !absent
        invariant Valid() && RealSize() == old(RealSize()) && 0 < i <= j <= MAXINTEGER && Int(i) in contents
        invariant if absent then Int(j) !in contents else i == j
        decreases !absent, MAXINTEGER - j
      {
        i := j;
        if j <= MAXINTEGER / 2 {
          j := j * 2;
          absent := IsEmptyInt(j);
          if !absent { i := j; }
        } else {
          j := MAXINTEGER;
          absent := IsEmptyInt(j);
          if !absent { return j; }
        }
      }
      while j - i > 1
        invariant Valid() && RealSize() == old(RealSize()) && 0 < i < j <= MAXINTEGER && Int(i) in contents
        invariant Int(j) !in contents
      {
        var m := (i + j) / 2;
        var empty := IsEmptyInt(m);
        if empty { j := m; } else { i := m; }
      }
      return i;
    }

    // ----- dead keys -----

    /** `clearkey` (lgc.c): the key of an entry without value may be collected. */
    method ClearKey(x: nat)
      requires Valid() && x < |node| && node[x].val.Nil? && !node[x].key.NoKey?
      modifies `node
      ensures Valid() && |node| == old(|node|) && Used(node) == old(Used(node))
    {
      hide NextPow2, IsPow2;
      var n := node[x];
      if n.key.k.Object? || n.key.k.Str? {
        KilledOk(node, rank, hash, x);
        KilledAgrees(arr, RealSize(), node, contents, x);
        node := node[x := Node(Dead(n.key.k), n.val, n.next)];
      }
    }

    /** The collector goes through the nodes and clears those without values. */
    method ClearKeys(dead: set<TValue>)
      requires Valid()
      modifies `node
      ensures Valid()
    {
      hide NextPow2, IsPow2, HashPart, Agrees, Used;
      for x := 0 to |node|
        invariant Valid() && |node| == old(|node|)
      {
        if node[x].val.Nil? && !node[x].key.NoKey? && node[x].key.k in dead { ClearKey(x); }
      }
    }

    // ----- runs -----

    /** `luaH_new` */
    constructor (hash: Hash)
      ensures Valid() && Whole() && contents == map[]
    {
      this.hash := hash;
      arr, alimit, isreal := [], 0, true;
      node, lastfree, rank := [Node(NoKey, Nil, 0)], NULL, [0];
      contents := map[];
      assert |[Node(NoKey, Nil, 0)]| == Pow(0);
    }

    /** One operation gives the answer of a finite map. */
    method Step(op: Op) returns (a: Answer)
      requires Valid() && Whole()
      modifies this
      ensures Valid() && Whole() && contents == Next(old(contents), op) && Answers(old(contents), op, a)
    {
      hide NextPow2, IsPow2, HashPart, Agrees;
      match op {
        case Put(k, v) =>
          var err := Set(k, v);
          a := Stored(err);
        case Fetch(k) =>
          var v := GetValue(k);
          a := Got(v);
        case Length =>
          var b := GetN();
          a := Border(b);
        case Collect(dead) =>
          ClearKeys(dead);
          a := Done;
      }
    }

    /** Any sequence of operations gives the answers of a finite map. */
    method Run(ops: seq<Op>) returns (answers: seq<Answer>)
      requires Valid() && Whole()
      modifies this
      ensures Valid() && Whole() && contents == After(old(contents), ops)
      ensures |answers| == |ops|
      ensures forall i :: 0 <= i < |ops| ==> Answers(After(old(contents), ops[..i]), ops[i], answers[i])
      ensures old(contents) == map[] ==> forall i :: 0 <= i < |ops| ==> Right(ops[..i], ops[i], answers[i])
    {
      hide NextPow2, IsPow2, HashPart, Agrees, Answers, Next, Right;
      answers := [];
      for n := 0 to |ops|
        invariant Valid() && Whole() && contents == After(old(contents), ops[..n]) && |answers| == n
        invariant forall i :: 0 <= i < n ==> Answers(After(old(contents), ops[..i]), ops[i], answers[i])
      {
        assert ops[..n + 1][..n] == ops[..n];
        var a := Step(ops[n]);
        answers := answers + [a];
      }
      assert ops[..|ops|] == ops;
      if old(contents) == map[] {
        forall i | 0 <= i < |ops| ensures Right(ops[..i], ops[i], answers[i]) {
          AnswersAreRight(ops[..i], ops[i], answers[i]);
        }
      }
    }
  }

  datatype Op = Put(k: TValue, v: TValue) | Fetch(k: TValue) | Length | Collect(dead: set<TValue>)

  datatype Answer = Stored(err: Error) | Got(v: TValue) | Border(n: nat) | Done

  /** The map after some operations. */
  function After(m: map<TValue, TValue>, ops: seq<Op>): map<TValue, TValue> {
    if ops == [] then m else Next(After(m, ops[..|ops| - 1]), ops[|ops| - 1])
  }

  function Next(m: map<TValue, TValue>, op: Op): map<TValue, TValue> {
    match op
    case Put(k, v) => Assigned(m, k, v).0
    case _ => m
  }

  ghost predicate Answers(m: map<TValue, TValue>, op: Op, a: Answer) {
    match op
    case Put(k, v) => a == Stored(Assigned(m, k, v).1)
    case Fetch(k) => a == Got(Lookup(m, Normal(k)))
    case Length => a.Border? && IsBorder(m, a.n)
    case Collect(_) => a.Done?
  }

  // ----- what a table does, without a map -----

  /** Raw equality (`lua_rawequal`): an integer equals a float with the same value, and NaN equals nothing. */
  predicate RawEqual(k: TValue, k': TValue) {
    match (k, k')
    case (NaN, _) => false
    case (Int(i), Flt(r)) => r == i as real
    case (Flt(r), Int(i)) => r == i as real
    case (_, _) => k == k'
  }

  /** Keys are the same after normalization if and only if they are raw equal. */
  lemma SameKeys(k: TValue, k': TValue)
    requires !k.NaN? && !k'.NaN?
    ensures Normal(k) == Normal(k') <==> RawEqual(k, k')
  {
    if k.Flt? && k'.Int? { assert FitsInteger(k.r) ==> k.r.Floor as real == k.r; }
    if k.Int? && k'.Flt? { assert FitsInteger(k'.r) ==> k'.r.Floor as real == k'.r; }
  }

  /** The value of the last assignment to an equal key that was no error, or nil. */
  function LastPut(ops: seq<Op>, k: TValue): TValue {
    if ops == [] then Nil
    else
      match ops[|ops| - 1]
      case Put(k', v) => if !k'.Nil? && RawEqual(k', k) then v else LastPut(ops[..|ops| - 1], k)
      case _ => LastPut(ops[..|ops| - 1], k)
  }

  /** The right answer to an operation after others on an empty table. */
  predicate Right(ops: seq<Op>, op: Op, a: Answer) {
    match op
    case Put(k, v) => a == Stored(if k.Nil? then IndexIsNil else if k.NaN? then IndexIsNaN else NoError)
    case Fetch(k) => a == Got(LastPut(ops, k))
    case Length =>
      && a.Border?
      && (a.n == 0 || (a.n <= MAXINTEGER && !LastPut(ops, Int(a.n)).Nil?))
      && (a.n >= MAXINTEGER || LastPut(ops, Int(a.n + 1)).Nil?)
    case Collect(_) => a.Done?
  }

  /** The map has the last assignments. */
  lemma {:induction false} MapHasLastPut(ops: seq<Op>, k: TValue)
    ensures Lookup(After(map[], ops), Normal(k)) == LastPut(ops, k)
    ensures forall x :: x in After(map[], ops) ==> !x.Nil? && !x.NaN? && !After(map[], ops)[x].Nil?
  {
    if ops != [] {
      var before, op := ops[..|ops| - 1], ops[|ops| - 1];
      MapHasLastPut(before, k);
      if op.Put? && !op.k.Nil? && !op.k.NaN? && !k.NaN? { SameKeys(op.k, k); }
    }
  }

  lemma AnswersAreRight(ops: seq<Op>, op: Op, a: Answer)
    requires Answers(After(map[], ops), op, a)
    ensures Right(ops, op, a)
  {
    match op {
      case Fetch(k) => MapHasLastPut(ops, k);
      case Length =>
        if a.n > 0 { MapHasLastPut(ops, Int(a.n)); }
        if a.n < MAXINTEGER { MapHasLastPut(ops, Int(a.n + 1)); }
      case _ =>
    }
  }

  /** A border, in the sense of section 3.4.7 of the Lua 5.4 Reference Manual. */
  ghost predicate IsBorder(m: map<TValue, TValue>, n: nat) {
    && n <= MAXINTEGER && (n > 0 ==> IntKey(n) in m)
    && (n < MAXINTEGER ==> IntKey(n + 1) !in m)
  }
}
