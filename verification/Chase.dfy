/**
 The pointer-chase builder of bench/src/bench.c. The buffer is an array of 64-bit words;
 a pointer into it is the index of the word it points at.
 */
module Chases {
  import opened Shuffles

  /** The range of uint32_t, which is what the builder keeps its node numbers in. */
  const UINT32_RANGE: nat := 0x1_0000_0000

  // ----- following links -----

  /** Where k dependent loads from p end up. */
  function Hops(mem: seq<nat>, p: nat, k: nat): nat
    decreases k
  {
    if k == 0 || p >= |mem| then p else Hops(mem, mem[p], k - 1)
  }

  lemma {:induction false} HopsAdd(mem: seq<nat>, p: nat, a: nat, b: nat)
    ensures Hops(mem, Hops(mem, p, a), b) == Hops(mem, p, a + b)
    decreases a
  {
    if a == 0 {
    } else if p >= |mem| {
    } else {
      HopsAdd(mem, mem[p], a - 1, b);
    }
  }

  /** How a buffer is cut into chases: `ways` of them, node i of way w being node
      i * ways + w, and nodes `words` words apart. */
  datatype Layout = Layout(words: nat, ways: nat, perWay: nat) {
    predicate Valid() { words > 0 && ways > 0 && perWay >= 2 }

    function Node(w: nat, i: nat): nat { i * ways + w }

    function Address(node: nat): nat { node * words }

    predicate Fits(mem: seq<nat>) { perWay * ways * words <= |mem| }
  }

  /** The word that holds the link of node i of way w. */
  function Spot(l: Layout, w: nat, i: nat): nat {
    l.Address(l.Node(w, i))
  }

  ghost predicate OnWay(l: Layout, w: nat, a: nat) {
    exists i: nat :: i < l.perWay && a == Spot(l, w, i)
  }

  ghost predicate Visited(mem: seq<nat>, head: nat, n: nat, a: nat) {
    exists k: nat :: k < n && Hops(mem, head, k) == a
  }

  /** From `head` the links of way w form one single cycle through exactly its nodes. */
  ghost predicate FullCycle(mem: seq<nat>, l: Layout, w: nat, head: nat) {
    && Hops(mem, head, l.perWay) == head
    && (forall j, k :: 0 <= j < k < l.perWay ==> Hops(mem, head, j) != Hops(mem, head, k))
    && (forall k :: 0 <= k < l.perWay ==> OnWay(l, w, Hops(mem, head, k)))
    && (forall i :: 0 <= i < l.perWay ==> Visited(mem, head, l.perWay, Spot(l, w, i)))
  }

  // ----- the order a way is linked in -----

  /** perm and pos are inverse permutations of 0..n. */
  ghost predicate Inverses(perm: seq<nat>, pos: seq<nat>) {
    && |perm| == |pos|
    && (forall i :: 0 <= i < |perm| ==> perm[i] < |perm| && pos[perm[i]] == i)
    && (forall v :: 0 <= v < |pos| ==> pos[v] < |pos| && perm[pos[v]] == v)
  }

  lemma SwapInverses(perm: seq<nat>, pos: seq<nat>, i: nat, j: nat)
    requires Inverses(perm, pos) && i < |perm| && j < |perm|
    ensures Inverses(Swap(perm, i, j), Swap(pos, perm[i], perm[j]))
  {
  }

  function Next(i: nat, n: nat): nat {
    if i + 1 == n then 0 else i + 1
  }

  /** Each of these addresses links to the next, the last to the first. */
  ghost predicate Linked(mem: seq<nat>, at: seq<nat>) {
    forall i :: 0 <= i < |at| ==> at[i] < |mem| && mem[at[i]] == at[Next(i, |at|)]
  }

  /** One lap. */
  lemma {:induction false} LinkedHops(mem: seq<nat>, at: seq<nat>, i: nat, k: nat)
    requires Linked(mem, at) && i < |at| && i + k <= |at|
    ensures Hops(mem, at[i], k) == at[if i + k == |at| && k > 0 then 0 else i + k]
    decreases k
  {
    if k > 0 && i + 1 < |at| {
      LinkedHops(mem, at, i + 1, k - 1);
    }
  }

  /** The addresses of an order's nodes. */
  function Spots(l: Layout, order: seq<nat>): (at: seq<nat>)
    ensures |at| == |order|
  {
    seq(|order|, i requires 0 <= i < |order| => l.Address(order[i]))
  }

  lemma AddressInjective(l: Layout, a: nat, b: nat)
    requires l.words > 0 && a < b
    ensures l.Address(a) < l.Address(b)
  {
    assert (b - a) * l.words > 0;
  }

  lemma NodeInjective(l: Layout, w: nat, i: nat, j: nat)
    requires l.ways > 0 && i < j
    ensures l.Node(w, i) < l.Node(w, j)
  {
    assert (j - i) * l.ways > 0;
  }

  /** The order is some permutation of the nodes of way w. */
  ghost predicate Orders(order: seq<nat>, l: Layout, w: nat, perm: seq<nat>, pos: seq<nat>) {
    && Inverses(perm, pos) && |order| == |perm| == l.perWay
    && forall i :: 0 <= i < |order| ==> order[i] == l.Node(w, perm[i])
  }

  lemma OrderDistinct(order: seq<nat>, l: Layout, w: nat, perm: seq<nat>, pos: seq<nat>, i: nat, j: nat)
    requires Orders(order, l, w, perm, pos) && l.Valid() && i < j < |order|
    ensures l.Address(order[i]) != l.Address(order[j])
  {
    var a, b := perm[i], perm[j];
    assert pos[a] == i && pos[b] == j;
    if a < b {
      NodeInjective(l, w, a, b);
      AddressInjective(l, order[i], order[j]);
    } else {
      NodeInjective(l, w, b, a);
      AddressInjective(l, order[j], order[i]);
    }
  }

  lemma OrdersIsDistinct(order: seq<nat>, l: Layout, w: nat, perm: seq<nat>, pos: seq<nat>)
    requires l.Valid() && Orders(order, l, w, perm, pos)
    ensures Distinct(Spots(l, order))
  {
    forall i, j | 0 <= i < j < |order| ensures Spots(l, order)[i] != Spots(l, order)[j] {
      OrderDistinct(order, l, w, perm, pos, i, j);
    }
  }

  /** The k-th hop from the first address. */
  lemma LapHops(mem: seq<nat>, at: seq<nat>)
    requires Linked(mem, at) && |at| > 0
    ensures Hops(mem, at[0], |at|) == at[0]
    ensures forall k :: 0 <= k < |at| ==> Hops(mem, at[0], k) == at[k]
  {
    forall k | 0 <= k < |at| ensures Hops(mem, at[0], k) == at[k] {
      LinkedHops(mem, at, 0, k);
    }
    LinkedHops(mem, at, 0, |at|);
  }

  lemma LinkedIsFullCycle(mem: seq<nat>, l: Layout, w: nat, order: seq<nat>, perm: seq<nat>, pos: seq<nat>, head: nat)
    requires l.Valid() && Orders(order, l, w, perm, pos) && Linked(mem, Spots(l, order)) && head == l.Address(order[0])
    ensures FullCycle(mem, l, w, head)
  {
    LapHops(mem, Spots(l, order));
    OrdersIsDistinct(order, l, w, perm, pos);
    forall k | 0 <= k < l.perWay ensures OnWay(l, w, Hops(mem, head, k)) {
      assert Hops(mem, head, k) == Spot(l, w, perm[k]);
    }
    forall i | 0 <= i < l.perWay ensures Visited(mem, head, l.perWay, Spot(l, w, i)) {
      assert Hops(mem, head, pos[i]) == Spot(l, w, i);
    }
  }

  // ----- the builder -----

  /** order[i] := (uint32_t)(i * ways + w). */
  method FillOrder(order: array<nat>, l: Layout, w: nat)
    requires order.Length == l.perWay
    modifies order
    ensures forall i :: 0 <= i < order.Length ==> order[i] == l.Node(w, i) % UINT32_RANGE
  {
    for i := 0 to order.Length
      invariant forall k :: 0 <= k < i ==> order[k] == l.Node(w, k) % UINT32_RANGE
    {
      order[i] := (i * l.ways + w) % UINT32_RANGE;
    }
  }

  /** What is left to draw does to `order` what all the draws do to `start`. */
  ghost predicate Shuffling(order: seq<nat>, s: bv64, i: nat, start: seq<nat>, seed: bv64) {
    && i < |order| == |start|
    && Shuffled(order, Drawn(s, i)) == Shuffled(start, Drawn(seed, |start| - 1))
    && StateAfter(s, i) == StateAfter(seed, |start| - 1)
  }

  lemma ShuffleStep(order: seq<nat>, s: bv64, i: nat, start: seq<nat>, seed: bv64, j: nat)
    requires Shuffling(order, s, i, start, seed) && i > 0 && j == Draw(s, i)
    ensures Shuffling(Swap(order, i, j), Xs64State(s), i - 1, start, seed)
  {
    hide Xs64State, Draw, Swap;
    assert Drawn(s, i)[0] == j && Drawn(s, i)[1..] == Drawn(Xs64State(s), i - 1);
  }

  lemma ShufflingEnds(order: seq<nat>, s: bv64, start: seq<nat>, seed: bv64)
    requires Shuffling(order, s, 0, start, seed)
    ensures order == Shuffled(start, Drawn(seed, |start| - 1)) && s == StateAfter(seed, |start| - 1)
  {
  }

  /** order is start, permuted. */
  ghost predicate Permuted(order: seq<nat>, start: seq<nat>, perm: seq<nat>, pos: seq<nat>) {
    && |order| == |start| == |perm| && Inverses(perm, pos)
    && forall k :: 0 <= k < |order| ==> order[k] == start[perm[k]]
  }

  lemma PermuteStep(order: seq<nat>, start: seq<nat>, perm: seq<nat>, pos: seq<nat>, i: nat, j: nat)
    returns (perm': seq<nat>, pos': seq<nat>)
    requires Permuted(order, start, perm, pos) && i < |order| && j < |order|
    ensures Permuted(Swap(order, i, j), start, perm', pos')
  {
    SwapInverses(perm, pos, i, j);
    perm', pos' := Swap(perm, i, j), Swap(pos, perm[i], perm[j]);
  }

  /** The in-place shuffle: the permutation its draws decide. */
  method Shuffle(order: array<nat>, seed: bv64) returns (s: bv64, ghost perm: seq<nat>, ghost pos: seq<nat>)
    requires order.Length > 0
    modifies order
    ensures order[..] == Shuffled(old(order[..]), Drawn(seed, order.Length - 1))
    ensures s == StateAfter(seed, order.Length - 1)
    ensures Permuted(order[..], old(order[..]), perm, pos)
  {
    hide *;
    s := seed;
    perm, pos := seq(order.Length, i => i), seq(order.Length, i => i);
    NotYet(order[..], seed, perm);
    var i := order.Length - 1;
    while i > 0
      invariant 0 <= i < order.Length
      invariant Shuffling(order[..], s, i, old(order[..]), seed)
      invariant Permuted(order[..], old(order[..]), perm, pos)
    {
      var j := Draw(s, i);
      ghost var was := order[..];
      SwapArray(order, i, j);
      ShuffleStep(was, s, i, old(order[..]), seed, j);
      perm, pos := PermuteStep(was, old(order[..]), perm, pos, i, j);
      s := Xs64State(s);
      i := i - 1;
    }
    ShufflingEnds(order[..], s, old(order[..]), seed);
  }

  lemma NotYet(start: seq<nat>, seed: bv64, perm: seq<nat>)
    requires start != [] && perm == seq(|start|, i => i)
    ensures Permuted(start, start, perm, perm) && Shuffling(start, seed, |start| - 1, start, seed)
  {
  }

  method SwapArray(order: array<nat>, i: nat, j: nat)
    requires i < order.Length && j < order.Length
    modifies order
    ensures order[..] == Swap(old(order[..]), i, j)
  {
    order[i], order[j] := order[j], order[i];
  }

  /** Addresses whose links stay among them. */
  ghost predicate Closed(mem: seq<nat>, s: set<nat>) {
    forall a :: a in s ==> a < |mem| && mem[a] in s
  }

  ghost function Elements(at: seq<nat>): set<nat> {
    set a | a in at
  }

  /** Node order[i] is made to point at the node after it. */
  method LinkOne(buf: array<nat>, order: array<nat>, l: Layout, i: nat, ghost at: seq<nat>)
    requires buf != order && i < order.Length && at == Spots(l, order[..])
    requires at[i] < buf.Length
    modifies buf
    ensures buf[..] == old(buf[..])[at[i] := at[Next(i, |at|)]]
  {
    var node, target := l.Address(order[i]), l.Address(order[(i + 1) % order.Length]);
    assert (i + 1) % order.Length == Next(i, |at|);
    assert at[i] == node && at[Next(i, |at|)] == target;
    hide *;
    buf[node] := target;
  }

  /** The first i links are written, and nothing outside `s` is. */
  ghost predicate Linking(start: seq<nat>, mem: seq<nat>, at: seq<nat>, s: set<nat>, i: nat) {
    && |mem| == |start|
    && (forall k :: 0 <= k < |at| ==> at[k] < |mem| && at[k] in s)
    && (Distinct(at) ==> forall k :: 0 <= k < i && k < |at| ==> mem[at[k]] == at[Next(k, |at|)])
    && (forall k :: 0 <= k < i && k < |at| ==> mem[at[k]] in s)
    && (forall a :: 0 <= a < |mem| && a !in s ==> mem[a] == start[a])
  }

  lemma LinkStep(start: seq<nat>, mem: seq<nat>, mem': seq<nat>, at: seq<nat>, s: set<nat>, i: nat)
    requires Linking(start, mem, at, s, i) && i < |at|
    requires mem' == mem[at[i] := at[Next(i, |at|)]]
    ensures Linking(start, mem', at, s, i + 1)
  {
  }

  lemma LinkingEnds(start: seq<nat>, mem: seq<nat>, at: seq<nat>, s: set<nat>)
    requires Linking(start, mem, at, s, |at|) && s == Elements(at)
    ensures Distinct(at) ==> Linked(mem, at)
    ensures Closed(mem, s)
  {
    forall a | a in s ensures a < |mem| && mem[a] in s {
      var k :| 0 <= k < |at| && at[k] == a;
    }
  }

  /** Writes the links of one way. */
  method Link(buf: array<nat>, order: array<nat>, l: Layout)
    requires buf != order && order.Length > 0
    requires forall i :: 0 <= i < order.Length ==> l.Address(order[i]) < buf.Length
    modifies buf
    ensures Distinct(Spots(l, order[..])) ==> Linked(buf[..], Spots(l, order[..]))
    ensures Closed(buf[..], Elements(Spots(l, order[..])))
    ensures forall a :: 0 <= a < buf.Length && a !in Elements(Spots(l, order[..])) ==> buf[a] == old(buf[a])
  {
    ghost var at, start := Spots(l, order[..]), buf[..];
    ghost var s := Elements(at);
    for i := 0 to order.Length
      invariant order[..] == old(order[..])
      invariant Linking(start, buf[..], at, s, i)
    {
      ghost var was := buf[..];
      LinkOne(buf, order, l, i, at);
      LinkStep(start, was, buf[..], at, s, i);
    }
    LinkingEnds(start, buf[..], at, s);
  }

  // ----- all the ways at once -----

  ghost predicate AgreeOnWay(mem: seq<nat>, mem': seq<nat>, l: Layout, w: nat) {
    |mem| == |mem'| && forall a: nat :: a < |mem| && OnWay(l, w, a) ==> mem[a] == mem'[a]
  }

  lemma HopsOneMore(mem: seq<nat>, p: nat, k: nat)
    ensures Hops(mem, p, k + 1) == if Hops(mem, p, k) < |mem| then mem[Hops(mem, p, k)] else Hops(mem, p, k)
  {
    var q := Hops(mem, p, k);
    HopsAdd(mem, p, k, 1);
    assert Hops(mem, q, 1) == if q < |mem| then mem[q] else q;
  }

  lemma {:induction false} SameHops(mem: seq<nat>, mem': seq<nat>, l: Layout, w: nat, head: nat, k: nat)
    requires FullCycle(mem, l, w, head) && AgreeOnWay(mem, mem', l, w) && k <= l.perWay
    ensures Hops(mem', head, k) == Hops(mem, head, k)
  {
    if k > 0 {
      SameHops(mem, mem', l, w, head, k - 1);
      HopsOneMore(mem, head, k - 1);
      HopsOneMore(mem', head, k - 1);
      assert OnWay(l, w, Hops(mem, head, k - 1));
    }
  }

  /** A cycle does not notice writes outside its own nodes. */
  lemma CycleFrame(mem: seq<nat>, mem': seq<nat>, l: Layout, w: nat, head: nat)
    requires FullCycle(mem, l, w, head) && AgreeOnWay(mem, mem', l, w)
    ensures FullCycle(mem', l, w, head)
  {
    forall k: nat | k <= l.perWay ensures Hops(mem', head, k) == Hops(mem, head, k) {
      SameHops(mem, mem', l, w, head, k);
    }
    forall i | 0 <= i < l.perWay ensures Visited(mem', head, l.perWay, Spot(l, w, i)) {
      assert Visited(mem, head, l.perWay, Spot(l, w, i));
      var k: nat :| k < l.perWay && Hops(mem, head, k) == Spot(l, w, i);
      assert Hops(mem', head, k) == Spot(l, w, i);
    }
  }

  /** Whether uint32_t holds every node number. */
  predicate Narrow(l: Layout) {
    l.perWay * l.ways <= UINT32_RANGE
  }

  lemma RowBelow(i: nat, n: nat, w: nat, iw: nat, nw: nat)
    requires i < n && iw == i * w && nw == n * w
    ensures iw + w <= nw
  {
    assert nw - iw == (n - i) * w;
    MulLe(1, n - i, w, w, (n - i) * w);
  }

  lemma MulLe(a: nat, b: nat, c: nat, ac: nat, bc: nat)
    requires a <= b && ac == a * c && bc == b * c
    ensures ac <= bc
  {
  }

  lemma NodeBelow(l: Layout, w: nat, i: nat)
    requires w < l.ways && i < l.perWay
    ensures l.Node(w, i) < l.perWay * l.ways
  {
    RowBelow(i, l.perWay, l.ways, i * l.ways, l.perWay * l.ways);
  }

  lemma AddressBelow(l: Layout, node: nat, n: nat)
    requires node < n
    ensures l.Address(node) + l.words <= n * l.words
  {
    RowBelow(node, n, l.words, node * l.words, n * l.words);
  }

  lemma WaysAreDisjoint(l: Layout, w: nat, i: nat, v: nat, j: nat)
    requires l.words > 0 && w < l.ways && v < l.ways && w != v
    ensures l.Address(l.Node(w, i)) != l.Address(l.Node(v, j))
  {
    NodesDiffer(l.ways, w, i, v, j);
    if l.Node(w, i) < l.Node(v, j) {
      AddressInjective(l, l.Node(w, i), l.Node(v, j));
    } else {
      AddressInjective(l, l.Node(v, j), l.Node(w, i));
    }
  }

  lemma NodesDiffer(ways: nat, w: nat, i: nat, v: nat, j: nat)
    requires w < ways && v < ways && w != v
    ensures i * ways + w != j * ways + v
  {
    if i < j {
      assert j * ways >= (i + 1) * ways == i * ways + ways;
    } else if j < i {
      assert i * ways >= (j + 1) * ways == j * ways + ways;
    }
  }

  lemma {:induction false} ClosedHops(mem: seq<nat>, s: set<nat>, p: nat, k: nat)
    requires Closed(mem, s) && p in s
    ensures Hops(mem, p, k) in s
    decreases k
  {
    if k > 0 { ClosedHops(mem, s, mem[p], k - 1); }
  }

  /** With more nodes than uint32_t can number, the last node is on no cycle. */
  lemma WideMissesItsLastNode(mem: seq<nat>, l: Layout, s: set<nat>, head: nat)
    requires l.Valid() && !Narrow(l) && Closed(mem, s) && head in s
    requires forall a :: a in s ==> a < UINT32_RANGE * l.words
    ensures !FullCycle(mem, l, l.ways - 1, head)
  {
    if FullCycle(mem, l, l.ways - 1, head) {
      LastSpot(l);
      var a := Spot(l, l.ways - 1, l.perWay - 1);
      assert Visited(mem, head, l.perWay, a);
      var k: nat :| k < l.perWay && Hops(mem, head, k) == a;
      ClosedHops(mem, s, head, k);
    }
  }

  lemma LastSpot(l: Layout)
    requires l.Valid() && !Narrow(l)
    ensures Spot(l, l.ways - 1, l.perWay - 1) >= UINT32_RANGE * l.words
  {
    var last := l.perWay * l.ways - 1;
    assert l.Node(l.ways - 1, l.perWay - 1) == last;
    MulLe(UINT32_RANGE, last, l.words, UINT32_RANGE * l.words, last * l.words);
  }

  /** The layout build_chases() works with for a buffer of `size` words. */
  function LayoutOf(size: nat, words: nat, ways: nat): Layout
    requires words > 0 && ways > 0
  {
    Layout(words, ways, (size / words) / ways)
  }

  /** The benchmark's own layout, 8 ways of 8-word nodes: uint32_t suffices up to 256 GiB and
      the 63 words after them, and no further. */
  lemma NarrowBelow256GiB(size: nat)
    ensures Narrow(LayoutOf(size, 8, 8)) <==> size < 0x8_0000_0040
    ensures !Narrow(LayoutOf(0x8_0000_0040, 8, 8)) && LayoutOf(0x8_0000_0040, 8, 8).perWay >= 2
  {
  }

  lemma LayoutFits(size: nat, words: nat, ways: nat)
    requires words > 0 && ways > 0
    ensures LayoutOf(size, words, ways).perWay * ways * words <= size
  {
    var nodes := size / words;
    var used := nodes / ways * ways;
    QuotientFits(size, words, nodes * words);
    QuotientFits(nodes, ways, used);
    MulLe(used, nodes, words, used * words, nodes * words);
  }

  lemma QuotientFits(x: nat, d: nat, qd: nat)
    requires d > 0 && qd == x / d * d
    ensures qd <= x
  {
  }

  lemma OrderEntry(l: Layout, w: nat, i: nat, entry: nat)
    requires l.Valid() && w < l.ways && i < l.perWay && entry == l.Node(w, i) % UINT32_RANGE
    ensures l.Address(entry) < l.perWay * l.ways * l.words
    ensures l.Address(entry) < UINT32_RANGE * l.words
    ensures Narrow(l) ==> entry == l.Node(w, i)
  {
    NodeBelow(l, w, i);
    assert entry <= l.Node(w, i) < l.perWay * l.ways;
    AddressBelow(l, entry, l.perWay * l.ways);
    AddressBelow(l, entry, UINT32_RANGE);
  }

  function WayNodes(l: Layout, w: nat): (nodes: seq<nat>)
    ensures |nodes| == l.perWay && forall i :: 0 <= i < l.perWay ==> nodes[i] == l.Node(w, i) % UINT32_RANGE
  {
    seq(l.perWay, i requires 0 <= i < l.perWay => l.Node(w, i) % UINT32_RANGE)
  }

  /** The nodes of way w in the order they are linked: kept as uint32_t, shuffled from state s. */
  function WayOrder(l: Layout, w: nat, s: bv64): (order: seq<nat>)
    requires l.perWay >= 2
    ensures |order| == l.perWay
  {
    ShuffledFrom(WayNodes(l, w), s)
  }

  /** The generator when the builder comes to way w. */
  function WayState(l: Layout, w: nat, seed: bv64): bv64
    requires l.perWay >= 2
    decreases w
  {
    if w == 0 then seed else StateAfter(WayState(l, w - 1, seed), l.perWay - 1)
  }

  /** Each way draws perWay - 1 numbers, one after the other. */
  lemma {:induction false} WayStateIs(l: Layout, w: nat, seed: bv64)
    requires l.perWay >= 2
    ensures WayState(l, w, seed) == StateAfter(seed, w * (l.perWay - 1))
    decreases w
  {
    if w > 0 {
      hide StateAfter, WayOrder;
      WayStateIs(l, w - 1, seed);
      StatesAdd(seed, (w - 1) * (l.perWay - 1), l.perWay - 1);
      OneWayMore(w, l.perWay - 1);
    }
  }

  lemma OneWayMore(w: nat, k: nat)
    requires w > 0
    ensures w * k == (w - 1) * k + k
  {
  }

  /** The node numbers of one way, in the order they are to be linked. */
  method OrderWay(order: array<nat>, l: Layout, w: nat, seed: bv64)
    returns (s: bv64, ghost perm: seq<nat>, ghost pos: seq<nat>)
    requires order.Length == l.perWay && l.Valid() && w < l.ways
    modifies order
    ensures order[..] == WayOrder(l, w, seed) && s == StateAfter(seed, l.perWay - 1)
    ensures forall i :: 0 <= i < order.Length ==> l.Address(order[i]) < l.perWay * l.ways * l.words
    ensures forall i :: 0 <= i < order.Length ==> l.Address(order[i]) < UINT32_RANGE * l.words
    ensures Narrow(l) ==> Orders(order[..], l, w, perm, pos)
  {
    hide Shuffled, Drawn, StateAfter, Layout.Address;
    FillOrder(order, l, w);
    assert order[..] == WayNodes(l, w);
    s, perm, pos := Shuffle(order, seed);
    forall i | 0 <= i < order.Length
      ensures l.Address(order[i]) < l.perWay * l.ways * l.words
      ensures l.Address(order[i]) < UINT32_RANGE * l.words
      ensures Narrow(l) ==> order[i] == l.Node(w, perm[i])
    {
      OrderEntry(l, w, perm[i], order[i]);
    }
  }

  lemma OrderOnWay(order: seq<nat>, l: Layout, w: nat, perm: seq<nat>, pos: seq<nat>, a: nat)
    requires l.Valid() && Orders(order, l, w, perm, pos) && a in Spots(l, order)
    ensures OnWay(l, w, a)
  {
    var i :| 0 <= i < |order| && a == l.Address(order[i]);
    assert a == Spot(l, w, perm[i]);
  }

  /** One turn of the outer loop. `added` are the words it wrote. */
  method BuildWay(buf: array<nat>, order: array<nat>, l: Layout, w: nat, seed: bv64)
    returns (s: bv64, head: nat, ghost added: set<nat>)
    requires buf != order && order.Length == l.perWay && l.Valid() && w < l.ways
    requires l.perWay * l.ways * l.words <= buf.Length
    modifies buf, order
    ensures s == StateAfter(seed, l.perWay - 1) && WayBuilt(buf[..], l, w, seed, head)
    ensures Narrow(l) ==> forall a :: a in added ==> OnWay(l, w, a)
    ensures head in added && Closed(buf[..], added)
    ensures forall a :: a in added ==> a < UINT32_RANGE * l.words
    ensures forall a :: 0 <= a < buf.Length && a !in added ==> buf[a] == old(buf[a])
  {
    ghost var perm, pos;
    s, perm, pos := OrderWay(order, l, w, seed);
    Link(buf, order, l);
    ghost var all := order[..];
    added := Elements(Spots(l, all));
    head := l.Address(order[0]);
    assert all[0] == order[0] && head == Spots(l, all)[0];
    if Narrow(l) {
      OrdersIsDistinct(all, l, w, perm, pos);
      LinkedIsFullCycle(buf[..], l, w, all, perm, pos, head);
      forall a | a in Spots(l, all) ensures OnWay(l, w, a) {
        OrderOnWay(all, l, w, perm, pos, a);
      }
    }
  }

  /** Writing one way's words leaves another way's cycle alone. */
  lemma OtherWaysKept(mem: seq<nat>, mem': seq<nat>, l: Layout, w: nat, v: nat, head: nat, added: set<nat>)
    requires l.Valid() && w < l.ways && v < l.ways && v != w && |mem| == |mem'|
    requires FullCycle(mem, l, v, head)
    requires forall a :: a in added ==> OnWay(l, w, a)
    requires forall a :: 0 <= a < |mem| && a !in added ==> mem'[a] == mem[a]
    ensures FullCycle(mem', l, v, head)
  {
    forall a: nat | a < |mem| && OnWay(l, v, a) ensures mem[a] == mem'[a] {
      if a in added { OneWayOnly(l, w, v, a); }
    }
    CycleFrame(mem, mem', l, v, head);
  }

  ghost predicate AllCycles(mem: seq<nat>, l: Layout, heads: seq<nat>) {
    forall w :: 0 <= w < |heads| ==> FullCycle(mem, l, w, heads[w])
  }

  /** Way w is linked in its order, and its head is the first of it. */
  ghost predicate WayIsLinked(mem: seq<nat>, l: Layout, w: nat, seed: bv64, head: nat)
    requires l.perWay >= 2
  {
    InOrder(mem, l, w, WayOrder(l, w, WayState(l, w, seed)), head)
  }

  ghost predicate InOrder(mem: seq<nat>, l: Layout, w: nat, order: seq<nat>, head: nat)
    requires order != []
  {
    && Linked(mem, Spots(l, order)) && head == l.Address(order[0])
    && forall a :: a in Spots(l, order) ==> OnWay(l, w, a)
  }

  lemma OtherOrderKept(mem: seq<nat>, mem': seq<nat>, l: Layout, w: nat, v: nat, order: seq<nat>, head: nat, added: set<nat>)
    requires l.words > 0 && w < l.ways && v < l.ways && v != w && |mem| == |mem'| && order != []
    requires InOrder(mem, l, v, order, head)
    requires forall a :: a in added ==> OnWay(l, w, a)
    requires forall a :: 0 <= a < |mem| && a !in added ==> mem'[a] == mem[a]
    ensures InOrder(mem', l, v, order, head)
  {
    hide OnWay, Spots;
    var at := Spots(l, order);
    forall i | 0 <= i < |at| ensures mem'[at[i]] == mem[at[i]] {
      assert at[i] in at;
      if at[i] in added { OneWayOnly(l, w, v, at[i]); }
    }
  }

  lemma OtherLinksKept(mem: seq<nat>, mem': seq<nat>, l: Layout, w: nat, v: nat, seed: bv64, head: nat, added: set<nat>)
    requires l.Valid() && w < l.ways && v < l.ways && v != w && |mem| == |mem'|
    requires WayIsLinked(mem, l, v, seed, head)
    requires forall a :: a in added ==> OnWay(l, w, a)
    requires forall a :: 0 <= a < |mem| && a !in added ==> mem'[a] == mem[a]
    ensures WayIsLinked(mem', l, v, seed, head)
  {
    hide WayOrder, WayState, InOrder, OnWay;
    OtherOrderKept(mem, mem', l, w, v, WayOrder(l, v, WayState(l, v, seed)), head, added);
  }

  lemma OneWayOnly(l: Layout, w: nat, v: nat, a: nat)
    requires l.words > 0 && w < l.ways && v < l.ways && w != v && OnWay(l, w, a)
    ensures !OnWay(l, v, a)
  {
    if OnWay(l, v, a) {
      var i: nat :| i < l.perWay && a == Spot(l, v, i);
      var j: nat :| j < l.perWay && a == Spot(l, w, j);
      WaysAreDisjoint(l, v, i, w, j);
      assert false;
    }
  }

  ghost predicate WayStands(mem: seq<nat>, l: Layout, w: nat, seed: bv64, head: nat)
    requires l.perWay >= 2
  {
    FullCycle(mem, l, w, head) && WayIsLinked(mem, l, w, seed, head)
  }

  /** Every way so far is a full cycle, in its order. */
  ghost predicate Built(mem: seq<nat>, l: Layout, heads: seq<nat>, seed: bv64)
    requires l.perWay >= 2
  {
    Narrow(l) ==> forall v :: 0 <= v < |heads| ==> WayStands(mem, l, v, seed, heads[v])
  }

  /** The outer loop so far: `linked` holds every word it wrote, and no more than node numbers
      of uint32_t can reach. */
  ghost predicate Building(mem: seq<nat>, l: Layout, heads: seq<nat>, seed: bv64, linked: set<nat>)
    requires l.perWay >= 2
  {
    && Built(mem, l, heads, seed) && Closed(mem, linked)
    && (forall a :: a in linked ==> a < UINT32_RANGE * l.words)
    && (forall v :: 0 <= v < |heads| ==> heads[v] in linked)
  }

  lemma NoneBuilt(mem: seq<nat>, l: Layout, seed: bv64)
    requires l.perWay >= 2
    ensures Building(mem, l, [], seed, {})
    ensures WayState(l, 0, seed) == seed
  {
  }

  /** What the loop leaves behind. */
  lemma BuildingEnds(mem: seq<nat>, l: Layout, heads: seq<nat>, seed: bv64, linked: set<nat>)
    requires l.Valid() && |heads| == l.ways && Building(mem, l, heads, seed, linked)
    ensures AllCycles(mem, l, heads) <==> Narrow(l)
    ensures Narrow(l) ==> forall v :: 0 <= v < |heads| ==> WayIsLinked(mem, l, v, seed, heads[v])
    ensures Walkable(mem, heads)
  {
    hide FullCycle, WayIsLinked, Closed;
    ClosedIsWalkable(mem, linked, heads);
    if !Narrow(l) {
      WideMissesItsLastNode(mem, l, linked, heads[l.ways - 1]);
    }
  }

  lemma BuildingMore(mem: seq<nat>, mem': seq<nat>, l: Layout, heads: seq<nat>, seed: bv64, s: bv64, head: nat,
                     linked: set<nat>, added: set<nat>)
    requires l.Valid() && |heads| < l.ways && Building(mem, l, heads, seed, linked) && |mem| == |mem'|
    requires s == WayState(l, |heads|, seed) && WayBuilt(mem', l, |heads|, s, head)
    requires Narrow(l) ==> forall a :: a in added ==> OnWay(l, |heads|, a)
    requires forall a :: 0 <= a < |mem| && a !in added ==> mem'[a] == mem[a]
    requires head in added && Closed(mem', added) && forall a :: a in added ==> a < UINT32_RANGE * l.words
    ensures Building(mem', l, heads + [head], seed, linked + added)
  {
    hide Built, WayBuilt, WayState, OnWay, Narrow;
    BuiltMore(mem, mem', l, heads, seed, s, head, added);
    ClosedMore(mem, mem', linked, added);
  }

  lemma NextState(l: Layout, w: nat, seed: bv64)
    requires l.perWay >= 2
    ensures WayState(l, w + 1, seed) == StateAfter(WayState(l, w, seed), l.perWay - 1)
  {
  }

  lemma ClosedMore(mem: seq<nat>, mem': seq<nat>, s: set<nat>, added: set<nat>)
    requires Closed(mem, s) && Closed(mem', added) && |mem| == |mem'|
    requires forall a :: 0 <= a < |mem| && a !in added ==> mem'[a] == mem[a]
    ensures Closed(mem', s + added)
  {
  }

  /** What one turn of the outer loop adds. */
  ghost predicate WayBuilt(mem: seq<nat>, l: Layout, w: nat, s: bv64, head: nat)
    requires l.perWay >= 2
  {
    Narrow(l) ==> FullCycle(mem, l, w, head) && InOrder(mem, l, w, WayOrder(l, w, s), head)
  }

  lemma BuiltMore(mem: seq<nat>, mem': seq<nat>, l: Layout, heads: seq<nat>, seed: bv64, s: bv64, head: nat, added: set<nat>)
    requires l.Valid() && |heads| < l.ways && Built(mem, l, heads, seed) && |mem| == |mem'|
    requires s == WayState(l, |heads|, seed) && WayBuilt(mem', l, |heads|, s, head)
    requires Narrow(l) ==> forall a :: a in added ==> OnWay(l, |heads|, a)
    requires forall a :: 0 <= a < |mem| && a !in added ==> mem'[a] == mem[a]
    ensures Built(mem', l, heads + [head], seed)
  {
    assert l.perWay >= 2;
    hide *;
    if Narrow(l) {
      OthersKept(mem, mem', l, heads, seed, added);
      LastLinked(mem', l, |heads|, seed, s, head);
      BuiltOneMore(mem', l, heads, head, seed);
    } else {
      BuiltWide(mem', l, heads + [head], seed);
    }
  }

  lemma BuiltOneMore(mem: seq<nat>, l: Layout, heads: seq<nat>, head: nat, seed: bv64)
    requires l.perWay >= 2 && Built(mem, l, heads, seed) && WayStands(mem, l, |heads|, seed, head)
    ensures Built(mem, l, heads + [head], seed)
  {
    hide WayStands, Narrow;
  }

  lemma BuiltWide(mem: seq<nat>, l: Layout, heads: seq<nat>, seed: bv64)
    requires l.perWay >= 2 && !Narrow(l)
    ensures Built(mem, l, heads, seed)
  {
  }

  lemma OthersKept(mem: seq<nat>, mem': seq<nat>, l: Layout, heads: seq<nat>, seed: bv64, added: set<nat>)
    requires l.Valid() && |heads| < l.ways && Narrow(l) && Built(mem, l, heads, seed) && |mem| == |mem'|
    requires forall a :: a in added ==> OnWay(l, |heads|, a)
    requires forall a :: 0 <= a < |mem| && a !in added ==> mem'[a] == mem[a]
    ensures Built(mem', l, heads, seed)
  {
    hide WayIsLinked, FullCycle, OnWay;
    forall v | 0 <= v < |heads| ensures WayStands(mem', l, v, seed, heads[v]) {
      OtherWaysKept(mem, mem', l, |heads|, v, heads[v], added);
      OtherLinksKept(mem, mem', l, |heads|, v, seed, heads[v], added);
    }
  }

  lemma LastLinked(mem: seq<nat>, l: Layout, w: nat, seed: bv64, s: bv64, head: nat)
    requires l.perWay >= 2 && Narrow(l) && s == WayState(l, w, seed) && WayBuilt(mem, l, w, s, head)
    ensures WayStands(mem, l, w, seed, head)
  {
    hide WayOrder, WayState, FullCycle, InOrder;
  }

  /** No number of hops from a head leaves the buffer. */
  ghost predicate Walkable(mem: seq<nat>, heads: seq<nat>) {
    forall w, k: nat :: 0 <= w < |heads| ==> Hops(mem, heads[w], k) < |mem|
  }

  lemma ClosedIsWalkable(mem: seq<nat>, s: set<nat>, heads: seq<nat>)
    requires Closed(mem, s) && forall w :: 0 <= w < |heads| ==> heads[w] in s
    ensures Walkable(mem, heads)
  {
    forall w, k: nat | 0 <= w < |heads| ensures Hops(mem, heads[w], k) < |mem| {
      ClosedHops(mem, s, heads[w], k);
    }
  }

  /** The outer loop. */
  method BuildWays(buf: array<nat>, order: array<nat>, l: Layout, start: bv64, heads: array<nat>)
    returns (ghost linked: set<nat>)
    requires buf != order && buf != heads && order != heads && order.Length == l.perWay
    requires l.Valid() && heads.Length >= l.ways && l.perWay * l.ways * l.words <= buf.Length
    modifies buf, order, heads
    ensures Building(buf[..], l, heads[..l.ways], start, linked)
  {
    hide Building, WayState, StateAfter, WayBuilt, OnWay, Closed, Narrow;
    linked := {};
    var s := start;
    NoneBuilt(buf[..], l, start);
    assert heads[..0] == [];
    for w := 0 to l.ways
      invariant s == WayState(l, w, start)
      invariant Building(buf[..], l, heads[..w], start, linked)
    {
      ghost var was, before, built := buf[..], s, heads[..w];
      var head;
      ghost var added;
      s, head, added := BuildWay(buf, order, l, w, s);
      BuildingMore(was, buf[..], l, built, start, before, head, linked, added);
      NextState(l, w, start);
      heads[w] := head;
      assert heads[..w + 1] == built + [head];
      linked := linked + added;
    }
  }

  /** Every node of the order points at the next one. */
  ghost predicate LinksInTurn(mem: seq<nat>, order: seq<nat>, words: nat) {
    forall i :: 0 <= i < |order| ==>
      order[i] * words < |mem| && mem[order[i] * words] == order[if i + 1 < |order| then i + 1 else 0] * words
  }

  lemma LinkedInTurn(mem: seq<nat>, l: Layout, order: seq<nat>)
    requires Linked(mem, Spots(l, order))
    ensures LinksInTurn(mem, order, l.words)
  {
    var at := Spots(l, order);
    forall i | 0 <= i < |order|
      ensures order[i] * l.words < |mem|
      ensures mem[order[i] * l.words] == order[if i + 1 < |order| then i + 1 else 0] * l.words
    {
      assert at[i] == order[i] * l.words && at[Next(i, |at|)] == order[Next(i, |at|)] * l.words;
    }
  }

  /** Where way w's links are: its nodes, shuffled by the numbers the generator gives after those
      of the ways before it, each pointing at the next. */
  lemma WayLinksAre(mem: seq<nat>, l: Layout, w: nat, seed: bv64, head: nat, nodes: seq<nat>, s: bv64)
    requires |nodes| == l.perWay >= 2 && forall i :: 0 <= i < l.perWay ==> nodes[i] == l.Node(w, i) % 0x1_0000_0000
    requires s == StateAfter(seed, w * (l.perWay - 1))
    requires WayIsLinked(mem, l, w, seed, head)
    ensures head == ShuffledFrom(nodes, s)[0] * l.words && LinksInTurn(mem, ShuffledFrom(nodes, s), l.words)
  {
    WayStateIs(l, w, seed);
    assert nodes == WayNodes(l, w);
    var order := WayOrder(l, w, s);
    assert Linked(mem, Spots(l, order)) && head == l.Address(order[0]);
    hide Linked, Spots, ShuffledFrom, StateAfter, OnWay, LinksInTurn;
    LinkedInTurn(mem, l, order);
  }

  /** build_chases(). It succeeds whenever every way gets two nodes and the scratch array is
      there; walks from the heads then never leave the buffer, and there is one full cycle
      per way exactly when uint32_t can number the nodes. */
  method BuildChases(buf: array<nat>, words: nat, ways: nat, seed: bv64, heads: array<nat>, scratch: bool)
    returns (rc: int)
    requires words > 0 && ways > 0 && heads.Length >= ways && buf != heads
    modifies buf, heads
    ensures rc == 0 <==> LayoutOf(buf.Length, words, ways).perWay >= 2 && scratch
    ensures rc != 0 ==> rc == -1 && buf[..] == old(buf[..]) && heads[..] == old(heads[..])
    ensures rc == 0 ==> (AllCycles(buf[..], LayoutOf(buf.Length, words, ways), heads[..ways])
                         <==> Narrow(LayoutOf(buf.Length, words, ways)))
    ensures rc == 0 ==> Walkable(buf[..], heads[..ways])
    ensures rc == 0 && Narrow(LayoutOf(buf.Length, words, ways)) ==>
      forall w :: 0 <= w < ways ==>
        WayIsLinked(buf[..], LayoutOf(buf.Length, words, ways), w, if seed == 0 then 0x243F6A8885A308D3 else seed, heads[w])
  {
    var nodes := buf.Length / words;
    var perWay := nodes / ways;
    if perWay < 2 { return -1; }
    if !scratch { return -1; }
    var order := new nat[perWay];
    var l := LayoutOf(buf.Length, words, ways);
    LayoutFits(buf.Length, words, ways);

    var s := if seed != 0 then seed else 0x243F6A8885A308D3;
    hide Building, WayIsLinked, AllCycles, Walkable;
    ghost var linked := BuildWays(buf, order, l, s, heads);
    BuildingEnds(buf[..], l, heads[..ways], s, linked);
    rc := 0;
  }
}
