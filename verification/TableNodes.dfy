/**
 The hash part of a table (ltable.c): a chained scatter table with Brent's variation. Nodes are linked by
 offsets; a chain may be shared by keys with different main positions.
 */
module TableNodes {
  import opened TableSizes

  const MAXINTEGER := 0x7FFF_FFFF_FFFF_FFFF
  const MININTEGER := -0x8000_0000_0000_0000

  type Integer = i: int | MININTEGER <= i <= MAXINTEGER

  /** Values that can be keys. Infinities are left out; objects are told apart by their addresses. */
  datatype TValue =
    | Nil | Boolean(b: bool) | Int(i: Integer) | Flt(r: real) | NaN | Str(s: string) | Object(addr: nat)

  /** Keys as they are stored: floats with integral values have become integers. */
  predicate IsKey(k: TValue) { !k.Nil? && !k.NaN? && Normal(k) == k }

  predicate FitsInteger(r: real) { r.Floor as real == r && MININTEGER <= r.Floor <= MAXINTEGER }

  function Normal(k: TValue): TValue {
    match k
    case Flt(r) => if FitsInteger(r) then Int(r.Floor) else k
    case _ => k
  }

  datatype NodeKey = NoKey | Live(k: TValue) | Dead(k: TValue)

  datatype Node = Node(key: NodeKey, val: TValue, next: int)

  type Nodes = seq<Node>

  /** Hashes of floats, strings and pointers. */
  type Hash = TValue -> nat

  /** `(size - 1) | 1` for a power of two */
  function OddSize(size: nat): (r: nat)
    requires size > 0
    ensures 0 < r <= size
  {
    if size == 1 then 1 else size - 1
  }

  /** `mainpositionTV` */
  function MainPosition(h: Hash, k: TValue, size: nat): (m: nat)
    requires size > 0
    ensures m < size
  {
    match k
    case Int(i) => (i % 0x1_0000_0000_0000_0000) % OddSize(size)
    case Boolean(b) => (if b then 1 else 0) % size
    case Str(_) => h(k) % size
    case Flt(_) => h(k) % OddSize(size)
    case Object(_) => h(k) % OddSize(size)
    case _ => 0
  }

  // ----- chains -----

  /** Links stay inside and never meet; `rank` decreases along them. */
  ghost predicate Chains(ns: Nodes, rank: seq<nat>) {
    && |rank| == |ns|
    && (forall i :: 0 <= i < |ns| ==> LinkOk(ns, rank, i))
    && forall i, j :: 0 <= i < |ns| && 0 <= j < |ns| && i != j ==> Apart(ns, i, j)
  }

  predicate Apart(ns: Nodes, i: nat, j: nat)
    requires i < |ns| && j < |ns|
  {
    ns[i].next != 0 && ns[j].next != 0 ==> i + ns[i].next != j + ns[j].next
  }

  ghost predicate LinkOk(ns: Nodes, rank: seq<nat>, i: nat)
    requires i < |ns| == |rank|
  {
    ns[i].next != 0 ==>
      && 0 <= i + ns[i].next < |ns| && rank[i + ns[i].next] < rank[i]
      && !ns[i].key.NoKey? && !ns[i + ns[i].next].key.NoKey?
  }

  /** Node `x` is on the chain from `i` on. */
  ghost predicate Reaches(ns: Nodes, rank: seq<nat>, i: nat, x: nat)
    requires i < |ns| == |rank|
    decreases rank[i]
  {
    i == x || (ns[i].next != 0 && LinkOk(ns, rank, i) && Reaches(ns, rank, i + ns[i].next, x))
  }

  /** The key of node `x` is found from its main position, where there is a key that belongs there. */
  ghost predicate Found(ns: Nodes, rank: seq<nat>, h: Hash, x: nat)
    requires x < |ns| == |rank| && !ns[x].key.NoKey?
  {
    var m := MainPosition(h, ns[x].key.k, |ns|);
    && Reaches(ns, rank, m, x)
    && !ns[m].key.NoKey? && MainPosition(h, ns[m].key.k, |ns|) == m
  }

  ghost predicate NodeOk(ns: Nodes, rank: seq<nat>, h: Hash, x: nat)
    requires x < |ns| == |rank|
  {
    && (!ns[x].key.Live? ==> ns[x].val.Nil?)
    && (!ns[x].key.NoKey? ==> IsKey(ns[x].key.k) && Found(ns, rank, h, x))
  }

  /** The invariants of the hash part. */
  ghost predicate HashOk(ns: Nodes, rank: seq<nat>, h: Hash) {
    && Chains(ns, rank)
    && (forall x :: 0 <= x < |ns| ==> NodeOk(ns, rank, h, x))
    && forall x, y :: 0 <= x < y < |ns| && ns[x].key.Live? ==> ns[x].key != ns[y].key
  }

  // ----- a new key in its main position -----

  /** Only values and keys differ, and where there was a key there is one. */
  ghost predicate SameLinks(ns: Nodes, ns': Nodes) {
    |ns'| == |ns| && forall j :: 0 <= j < |ns| ==> ns'[j].next == ns[j].next && (ns'[j].key.NoKey? ==> ns[j].key.NoKey?)
  }

  lemma {:induction false} ReachesSame(ns: Nodes, ns': Nodes, rank: seq<nat>, i: nat, x: nat)
    requires SameLinks(ns, ns') && i < |ns| == |rank| && Reaches(ns, rank, i, x)
    ensures Reaches(ns', rank, i, x)
    decreases rank[i]
  {
    if i != x {
      ReachesSame(ns, ns', rank, i + ns[i].next, x);
      assert LinkOk(ns', rank, i);
    }
  }

  lemma ChainsSame(ns: Nodes, ns': Nodes, rank: seq<nat>)
    requires Chains(ns, rank) && SameLinks(ns, ns')
    ensures Chains(ns', rank)
  {
    forall i | 0 <= i < |ns'| ensures LinkOk(ns', rank, i) { assert LinkOk(ns, rank, i); }
    forall i, j | 0 <= i < |ns'| && 0 <= j < |ns'| && i != j ensures Apart(ns', i, j) { assert Apart(ns, i, j); }
  }

  /** The new key replaces what is in its main position, which has no value. */
  lemma PlacedHere(ns: Nodes, rank: seq<nat>, h: Hash, k: TValue, v: TValue, mp: nat)
    requires HashOk(ns, rank, h) && IsKey(k) && mp < |ns| && MainPosition(h, k, |ns|) == mp
    requires forall x :: 0 <= x < |ns| ==> ns[x].key != Live(k)
    ensures HashOk(ns[mp := Node(Live(k), v, ns[mp].next)], rank, h)
  {
    var ns' := ns[mp := Node(Live(k), v, ns[mp].next)];
    ChainsSame(ns, ns', rank);
    hide Chains;
    forall x | 0 <= x < |ns'| ensures NodeOk(ns', rank, h, x) {
      assert NodeOk(ns, rank, h, x);
      if x != mp && !ns[x].key.NoKey? { ReachesSame(ns, ns', rank, MainPosition(h, ns[x].key.k, |ns|), x); }
    }
  }

  // ----- a new node behind the main position -----

  function Doubled(rank: seq<nat>): (r: seq<nat>)
    ensures |r| == |rank| && forall i :: 0 <= i < |rank| ==> r[i] == 2 * rank[i] + 1
  {
    seq(|rank|, i requires 0 <= i < |rank| => 2 * rank[i] + 1)
  }

  /** Node `f` is linked between `mp` and what followed. */
  function Inserted(ns: Nodes, k: TValue, v: TValue, mp: nat, f: nat): Nodes
    requires mp < |ns| && f < |ns|
  {
    var next := if ns[mp].next == 0 then ns[f].next else mp + ns[mp].next - f;
    ns[f := Node(Live(k), v, next)][mp := Node(ns[mp].key, ns[mp].val, f - mp)]
  }

  function InsertedRank(rank: seq<nat>, mp: nat, f: nat): seq<nat>
    requires mp < |rank| && f < |rank|
  {
    Doubled(rank)[f := 2 * rank[mp]]
  }

  lemma FreeUnlinked(ns: Nodes, rank: seq<nat>, f: nat)
    requires Chains(ns, rank) && f < |ns| && ns[f].key.NoKey?
    ensures ns[f].next == 0 && forall i :: 0 <= i < |ns| && ns[i].next != 0 ==> i + ns[i].next != f
  {
    assert LinkOk(ns, rank, f);
    forall i | 0 <= i < |ns| && ns[i].next != 0 ensures i + ns[i].next != f { assert LinkOk(ns, rank, i); }
  }

  lemma InsertedLink(ns: Nodes, rank: seq<nat>, k: TValue, v: TValue, mp: nat, f: nat, i: nat)
    requires Chains(ns, rank) && mp < |ns| && f < |ns| && ns[f].key.NoKey? && !ns[mp].key.NoKey? && i < |ns|
    ensures LinkOk(Inserted(ns, k, v, mp, f), InsertedRank(rank, mp, f), i)
  {
    FreeUnlinked(ns, rank, f);
    if i == mp || i == f {
      assert LinkOk(ns, rank, mp);
    } else {
      assert LinkOk(ns, rank, i);
    }
  }

  lemma InsertedApart(ns: Nodes, rank: seq<nat>, k: TValue, v: TValue, mp: nat, f: nat, i: nat, j: nat)
    requires Chains(ns, rank) && mp < |ns| && f < |ns| && ns[f].key.NoKey? && !ns[mp].key.NoKey?
    requires i < |ns| && j < |ns| && i != j
    ensures Apart(Inserted(ns, k, v, mp, f), i, j)
  {
    FreeUnlinked(ns, rank, f);
    assert Apart(ns, i, j);
    if i == f { assert j != mp ==> Apart(ns, mp, j); }
    if j == f { assert i != mp ==> Apart(ns, mp, i); }
  }

  lemma InsertedChains(ns: Nodes, rank: seq<nat>, k: TValue, v: TValue, mp: nat, f: nat)
    requires Chains(ns, rank) && mp < |ns| && f < |ns| && ns[f].key.NoKey? && !ns[mp].key.NoKey?
    ensures Chains(Inserted(ns, k, v, mp, f), InsertedRank(rank, mp, f))
  {
    var ns', rank' := Inserted(ns, k, v, mp, f), InsertedRank(rank, mp, f);
    forall i | 0 <= i < |ns'| ensures LinkOk(ns', rank', i) { InsertedLink(ns, rank, k, v, mp, f, i); }
    forall i, j | 0 <= i < |ns'| && 0 <= j < |ns'| && i != j ensures Apart(ns', i, j) {
      InsertedApart(ns, rank, k, v, mp, f, i, j);
    }
  }

  lemma {:induction false} InsertedReaches(ns: Nodes, rank: seq<nat>, k: TValue, v: TValue, mp: nat, f: nat, i: nat,
    x: nat)
    requires mp < |ns| == |rank| && f < |ns| && ns[f].key.NoKey? && ns[f].next == 0 && !ns[mp].key.NoKey?
    requires i < |ns| && Reaches(ns, rank, i, x)
    ensures Reaches(Inserted(ns, k, v, mp, f), InsertedRank(rank, mp, f), i, x)
    decreases rank[i]
  {
    var ns', rank' := Inserted(ns, k, v, mp, f), InsertedRank(rank, mp, f);
    if i != x {
      var n := i + ns[i].next;
      InsertedReaches(ns, rank, k, v, mp, f, n, x);
      if i == mp {
        assert LinkOk(ns', rank', f) && f + ns'[f].next == n;
        assert Reaches(ns', rank', f, x);
      }
      assert LinkOk(ns', rank', i);
    }
  }

  lemma InsertedNode(ns: Nodes, rank: seq<nat>, h: Hash, k: TValue, v: TValue, mp: nat, f: nat, x: nat)
    requires |rank| == |ns| && IsKey(k) && mp < |ns| && f < |ns| && ns[f].key.NoKey? && ns[f].next == 0
    requires !ns[mp].key.NoKey?
    requires MainPosition(h, k, |ns|) == mp == MainPosition(h, ns[mp].key.k, |ns|)
    requires x < |ns| && NodeOk(ns, rank, h, x)
    requires LinkOk(Inserted(ns, k, v, mp, f), InsertedRank(rank, mp, f), mp)
    ensures NodeOk(Inserted(ns, k, v, mp, f), InsertedRank(rank, mp, f), h, x)
  {
    var ns', rank' := Inserted(ns, k, v, mp, f), InsertedRank(rank, mp, f);
    if x == f {
      assert Reaches(ns', rank', f, f);
      assert Reaches(ns', rank', mp, f);
    } else if !ns[x].key.NoKey? {
      hide LinkOk, Reaches, MainPosition;
      InsertedReaches(ns, rank, k, v, mp, f, MainPosition(h, ns[x].key.k, |ns|), x);
    }
  }

  lemma InsertedOk(ns: Nodes, rank: seq<nat>, h: Hash, k: TValue, v: TValue, mp: nat, f: nat)
    requires HashOk(ns, rank, h) && IsKey(k) && mp < |ns| && f < |ns| && ns[f].key.NoKey? && !ns[mp].key.NoKey?
    requires MainPosition(h, k, |ns|) == mp == MainPosition(h, ns[mp].key.k, |ns|)
    requires forall x :: 0 <= x < |ns| ==> ns[x].key != Live(k)
    ensures HashOk(Inserted(ns, k, v, mp, f), InsertedRank(rank, mp, f), h)
  {
    var ns', rank' := Inserted(ns, k, v, mp, f), InsertedRank(rank, mp, f);
    InsertedChains(ns, rank, k, v, mp, f);
    FreeUnlinked(ns, rank, f);
    assert LinkOk(ns', rank', mp);
    hide Chains, LinkOk, Reaches, NodeOk, MainPosition;
    forall x | 0 <= x < |ns'| ensures NodeOk(ns', rank', h, x) {
      assert NodeOk(ns, rank, h, x);
      InsertedNode(ns, rank, h, k, v, mp, f, x);
    }
  }

  // ----- a colliding node out of its main position -----

  /** Node `mp` is moved to `f`, and the link from `prev` follows it; the new key takes its place. */
  function Moved(ns: Nodes, k: TValue, v: TValue, mp: nat, f: nat, prev: nat): Nodes
    requires mp < |ns| && f < |ns| && prev < |ns|
  {
    var next := if ns[mp].next == 0 then 0 else ns[mp].next + (mp - f);
    ns[prev := Node(ns[prev].key, ns[prev].val, f - prev)]
      [f := Node(ns[mp].key, ns[mp].val, next)]
      [mp := Node(Live(k), v, 0)]
  }

  function MovedRank(rank: seq<nat>, mp: nat, f: nat): seq<nat>
    requires mp < |rank| && f < |rank|
  {
    rank[f := rank[mp]]
  }

  ghost predicate Precedes(ns: Nodes, prev: nat, mp: nat) {
    prev < |ns| && ns[prev].next != 0 && prev + ns[prev].next == mp
  }

  lemma MovedLink(ns: Nodes, rank: seq<nat>, k: TValue, v: TValue, mp: nat, f: nat, prev: nat, i: nat)
    requires Chains(ns, rank) && mp < |ns| && f < |ns| && ns[f].key.NoKey? && !ns[mp].key.NoKey?
    requires Precedes(ns, prev, mp) && i < |ns|
    ensures LinkOk(Moved(ns, k, v, mp, f, prev), MovedRank(rank, mp, f), i)
  {
    FreeUnlinked(ns, rank, f);
    assert LinkOk(ns, rank, if i == f then mp else i);
  }

  lemma MovedApart(ns: Nodes, rank: seq<nat>, k: TValue, v: TValue, mp: nat, f: nat, prev: nat, i: nat, j: nat)
    requires Chains(ns, rank) && mp < |ns| && f < |ns| && ns[f].key.NoKey? && !ns[mp].key.NoKey?
    requires Precedes(ns, prev, mp) && i < |ns| && j < |ns| && i != j
    ensures Apart(Moved(ns, k, v, mp, f, prev), i, j)
  {
    FreeUnlinked(ns, rank, f);
    assert LinkOk(ns, rank, prev);
    assert Apart(ns, i, j);
    if i == f { assert j != mp ==> Apart(ns, mp, j); }
    if j == f { assert i != mp ==> Apart(ns, mp, i); }
  }

  lemma MovedChains(ns: Nodes, rank: seq<nat>, k: TValue, v: TValue, mp: nat, f: nat, prev: nat)
    requires Chains(ns, rank) && mp < |ns| && f < |ns| && ns[f].key.NoKey? && !ns[mp].key.NoKey?
    requires Precedes(ns, prev, mp)
    ensures prev != mp && prev != f && Chains(Moved(ns, k, v, mp, f, prev), MovedRank(rank, mp, f))
  {
    var ns', rank' := Moved(ns, k, v, mp, f, prev), MovedRank(rank, mp, f);
    assert LinkOk(ns, rank, prev);
    FreeUnlinked(ns, rank, f);
    forall i | 0 <= i < |ns'| ensures LinkOk(ns', rank', i) { MovedLink(ns, rank, k, v, mp, f, prev, i); }
    forall i, j | 0 <= i < |ns'| && 0 <= j < |ns'| && i != j ensures Apart(ns', i, j) {
      MovedApart(ns, rank, k, v, mp, f, prev, i, j);
    }
  }

  /** Nodes are still found, the moved one in its new place. */
  lemma {:induction false} MovedReaches(ns: Nodes, rank: seq<nat>, k: TValue, v: TValue, mp: nat, f: nat, prev: nat,
                                        i: nat, x: nat)
    requires |rank| == |ns| && mp < |ns| && f < |ns| && ns[f].key.NoKey? && ns[f].next == 0 && !ns[mp].key.NoKey?
    requires Precedes(ns, prev, mp) && prev != mp && forall j :: 0 <= j < |ns| && j != prev ==> !Precedes(ns, j, mp)
    requires i < |ns| && Reaches(ns, rank, i, x) && i != f
    ensures Reaches(Moved(ns, k, v, mp, f, prev), MovedRank(rank, mp, f), if i == mp then f else i,
      if x == mp then f else x)
    decreases rank[i]
  {
    var ns', rank' := Moved(ns, k, v, mp, f, prev), MovedRank(rank, mp, f);
    if i != x {
      var n := i + ns[i].next;
      assert n != f;
      MovedReaches(ns, rank, k, v, mp, f, prev, n, x);
      assert n == mp <==> Precedes(ns, i, mp);
      var i' := if i == mp then f else i;
      assert i' + ns'[i'].next == if n == mp then f else n;
      assert LinkOk(ns', rank', i');
    }
  }

  lemma MovedNode(ns: Nodes, rank: seq<nat>, h: Hash, k: TValue, v: TValue, mp: nat, f: nat, prev: nat, x: nat)
    requires |rank| == |ns| && IsKey(k) && mp < |ns| && f < |ns| && ns[f].key.NoKey? && ns[f].next == 0
    requires !ns[mp].key.NoKey?
    requires Precedes(ns, prev, mp) && prev != mp && prev != f
    requires forall j :: 0 <= j < |ns| && j != prev ==> !Precedes(ns, j, mp)
    requires MainPosition(h, k, |ns|) == mp != MainPosition(h, ns[mp].key.k, |ns|)
    requires x < |ns| && NodeOk(ns, rank, h, if x == f then mp else x)
    ensures NodeOk(Moved(ns, k, v, mp, f, prev), MovedRank(rank, mp, f), h, x)
  {
    hide LinkOk, MainPosition;
    var ns', rank' := Moved(ns, k, v, mp, f, prev), MovedRank(rank, mp, f);
    if x == mp {
      assert Reaches(ns', rank', mp, mp);
    } else if !ns'[x].key.NoKey? {
      hide Reaches;
      var x0 := if x == f then mp else x;
      var m := MainPosition(h, ns[x0].key.k, |ns|);
      assert m != mp && m != f && ns'[m].key == ns[m].key;
      MovedReaches(ns, rank, k, v, mp, f, prev, m, x0);
    }
  }

  lemma MovedOk(ns: Nodes, rank: seq<nat>, h: Hash, k: TValue, v: TValue, mp: nat, f: nat, prev: nat)
    requires HashOk(ns, rank, h) && IsKey(k) && mp < |ns| && f < |ns| && ns[f].key.NoKey? && !ns[mp].key.NoKey?
    requires Precedes(ns, prev, mp)
    requires MainPosition(h, k, |ns|) == mp != MainPosition(h, ns[mp].key.k, |ns|)
    requires forall x :: 0 <= x < |ns| ==> ns[x].key != Live(k)
    ensures HashOk(Moved(ns, k, v, mp, f, prev), MovedRank(rank, mp, f), h)
  {
    var ns', rank' := Moved(ns, k, v, mp, f, prev), MovedRank(rank, mp, f);
    MovedChains(ns, rank, k, v, mp, f, prev);
    FreeUnlinked(ns, rank, f);
    forall j | 0 <= j < |ns| && j != prev ensures !Precedes(ns, j, mp) { assert Apart(ns, j, prev); }
    hide Chains, LinkOk, Reaches, NodeOk, MainPosition, Precedes;
    forall x | 0 <= x < |ns'| ensures NodeOk(ns', rank', h, x) {
      assert NodeOk(ns, rank, h, if x == f then mp else x);
      MovedNode(ns, rank, h, k, v, mp, f, prev, x);
    }
  }

  // ----- how many nodes have keys -----

  function Used(ns: Nodes): (n: nat)
    ensures n <= |ns|
  {
    if ns == [] then 0 else Used(ns[..|ns| - 1]) + if ns[|ns| - 1].key.NoKey? then 0 else 1
  }

  lemma {:induction false} UsedUpdate(ns: Nodes, i: nat, n: Node)
    requires i < |ns|
    ensures Used(ns[i := n]) == Used(ns) + (if n.key.NoKey? then 0 else 1) - if ns[i].key.NoKey? then 0 else 1
  {
    var m := |ns| - 1;
    if i < m {
      UsedUpdate(ns[..m], i, n);
      assert ns[i := n][..m] == ns[..m][i := n];
    } else {
      assert ns[i := n][..m] == ns[..m];
    }
  }

  /** There is a free node unless all are used. */
  lemma {:induction false} UsedAll(ns: Nodes)
    requires forall x :: 0 <= x < |ns| ==> !ns[x].key.NoKey?
    ensures Used(ns) == |ns|
  {
    if ns != [] { UsedAll(ns[..|ns| - 1]); }
  }

  lemma {:induction false} UsedNone(ns: Nodes)
    requires forall x :: 0 <= x < |ns| ==> ns[x].key.NoKey?
    ensures Used(ns) == 0
  {
    if ns != [] { UsedNone(ns[..|ns| - 1]); }
  }
}
