/** The allocator's state and its two requests as functions, with what every request keeps. */
module BuddyHeap {
  import opened BuddyTree

  // Memory has 2^MAX_ORDER bytes, the smallest block 2^MIN_ORDER.
  type MinOrder = n: nat | n >= 1 witness 1
  const MIN_ORDER: MinOrder
  type MaxOrder = n: nat | n > MIN_ORDER witness MIN_ORDER + 1
  const MAX_ORDER: MaxOrder

  /** Free lists by the logarithm of the block size, newest block first. */
  type FreeMap = map<nat, seq<Path>>

  datatype Heap = Heap(tree: Tree, free: FreeMap, running: map<char, Path>)

  predicate IsOrder(o: nat) {
    MIN_ORDER <= o <= MAX_ORDER
  }

  function Order(p: Path): nat
    requires |p| <= MAX_ORDER
  {
    MAX_ORDER - |p|
  }

  function Remove(l: seq<Path>, p: Path): (r: seq<Path>) {
    if l == [] then [] else if l[0] == p then l[1..] else [l[0]] + Remove(l[1..], p)
  }

  // ---------- the operations ----------

  /** The least order from `o` up whose block holds `bytes`. */
  function WantFrom(bytes: int, o: nat): (w: nat)
    requires IsOrder(o) && bytes <= Pow2(MAX_ORDER)
    ensures o <= w <= MAX_ORDER && bytes <= Pow2(w) && (w > o ==> Pow2(w - 1) < bytes)
    decreases MAX_ORDER - o
  {
    if bytes <= Pow2(o) then o else WantFrom(bytes, o + 1)
  }

  function Want(bytes: int): (w: nat)
    requires bytes <= Pow2(MAX_ORDER)
    ensures IsOrder(w) && bytes <= Pow2(w) && (w > MIN_ORDER ==> Pow2(w - 1) < bytes)
  {
    WantFrom(bytes, MIN_ORDER)
  }

  predicate HasLists(free: FreeMap) {
    forall o :: MIN_ORDER <= o <= MAX_ORDER ==> o in free
  }

  /** The least order from `o` up with a free block, or MAX_ORDER + 1. */
  function Available(free: FreeMap, o: nat): (g: nat)
    requires MIN_ORDER <= o <= MAX_ORDER + 1 && HasLists(free)
    ensures o <= g <= MAX_ORDER + 1 && (g <= MAX_ORDER ==> free[g] != [])
    ensures forall k :: o <= k < g ==> free[k] == []
    decreases MAX_ORDER + 1 - o
  {
    if o > MAX_ORDER || free[o] != [] then o else Available(free, o + 1)
  }

  /** `n` splits down the left side with `x` at the bottom. */
  function Spine(n: nat, x: Tree): Tree {
    if n == 0 then x else Split(Spine(n - 1, x), Free)
  }

  function Lefts(n: nat): (p: Path)
    ensures |p| == n
  {
    seq(n, _ => false)
  }

  /** The right halves left over when the block at `p`, of order `g`, is split down to order `w`. */
  function Pushes(free: FreeMap, p: Path, g: nat, w: nat): FreeMap
    requires HasLists(free) && MIN_ORDER <= w <= g <= MAX_ORDER
    decreases g
  {
    if g == w then free
    else Pushes(free[g - 1 := [p + [true]] + free[g - 1]], p + [false], g - 1, w)
  }

  datatype Outcome = Exited | Refused | Granted(path: Path)

  function Alloc(h: Heap, name: char, bytes: int): (Heap, Outcome)
    requires Ready(h)
  {
    if bytes > Pow2(MAX_ORDER) then (h, Exited)
    else
      var w := Want(bytes);
      var g := Available(h.free, w);
      if g > MAX_ORDER then (h, Refused)
      else (Grant(h, name, bytes, w, g), Granted(h.free[g][0] + Lefts(g - w)))
  }

  /** There is a list for every order, and the first block of each is in the tree. */
  predicate Ready(h: Heap) {
    && HasLists(h.free)
    && forall o :: MIN_ORDER <= o <= MAX_ORDER && h.free[o] != [] ==> Sub(h.tree, h.free[o][0]).Some?
  }

  /** What Alloc leaves when it takes the first free block of order `g`. */
  function Grant(h: Heap, name: char, bytes: int, w: nat, g: nat): Heap
    requires HasLists(h.free) && MIN_ORDER <= w <= g <= MAX_ORDER && h.free[g] != [] && Sub(h.tree, h.free[g][0]).Some?
  {
    var p := h.free[g][0];
    Heap(Put(h.tree, p, Spine(g - w, Used(name, bytes))),
         Pushes(h.free[g := h.free[g][1..]], p, g, w), h.running[name := p + Lefts(g - w)])
  }

  /** Where the block at `p` ends up once it has joined every free buddy on the way up. */
  function Top(t: Tree, p: Path): (q: Path)
    ensures q <= p
  {
    if p == [] then p
    else if Sub(t, Buddy(p)) == Some(Free) then Top(t, Parent(p))
    else p
  }

  /** The free lists after that: the buddies leave, and the joined block comes in unless it is the
      whole memory. */
  function Climb(t: Tree, free: FreeMap, p: Path): FreeMap
    requires HasLists(free) && |p| <= MAX_ORDER - MIN_ORDER
    decreases |p|
  {
    if p == [] then free
    else if Sub(t, Buddy(p)) == Some(Free) then
      Climb(t, free[Order(p) := Remove(free[Order(p)], Buddy(p))], Parent(p))
    else
      free[Order(p) := [p] + free[Order(p)]]
  }

  function Release(h: Heap, name: char): Heap
    requires HasLists(h.free) && name in h.running
    requires |h.running[name]| <= MAX_ORDER - MIN_ORDER && Sub(h.tree, h.running[name]).Some?
  {
    var p := h.running[name];
    PrefixExists(h.tree, p, Top(h.tree, p));
    Heap(Put(h.tree, Top(h.tree, p), Free), Climb(h.tree, h.free, p), h.running - {name})
  }

  lemma {:induction false} PrefixExists(t: Tree, p: Path, q: Path)
    requires q <= p && Sub(t, p).Some?
    ensures Sub(t, q).Some? && (q < p ==> Sub(t, q).value.Split?)
  {
    SubSplit(t, q, p[|q|..]);
    assert p == q + p[|q|..];
  }

  // ---------- the invariant ----------

  predicate DistinctPaths(l: seq<Path>) {
    forall i, j :: 0 <= i < j < |l| ==> l[i] != l[j]
  }

  /** Each list holds blocks of its own size, none twice. */
  ghost predicate ListsOk(free: FreeMap) {
    && (forall o :: o in free <==> IsOrder(o))
    && (forall o, q :: o in free && q in free[o] ==> |q| == MAX_ORDER - o)
    && (forall o :: o in free ==> DistinctPaths(free[o]))
  }

  predicate Listed(free: FreeMap, q: Path) {
    |q| <= MAX_ORDER && Order(q) in free && q in free[Order(q)]
  }

  ghost predicate Match(t: Tree, free: FreeMap) {
    forall q :: Listed(free, q) <==> Sub(t, q) == Some(Free)
  }

  /** The lists hold the free blocks outside the block at `c`. */
  ghost predicate MatchBut(t: Tree, free: FreeMap, c: Path) {
    forall q :: Listed(free, q) <==> Sub(t, q) == Some(Free) && !(c <= q)
  }

  /** The name map is a bijection onto the used blocks, each of the least order that fits. */
  ghost predicate NamesOk(t: Tree, running: map<char, Path>) {
    && (forall n :: n in running ==>
          Sub(t, running[n]).Some? && Sub(t, running[n]).value.Used? && Sub(t, running[n]).value.name == n)
    && (forall p, n, b :: Sub(t, p) == Some(Used(n, b)) ==> n in running && running[n] == p)
    && (forall p, n, b :: Sub(t, p) == Some(Used(n, b)) ==>
          b <= Pow2(MAX_ORDER) && |p| <= MAX_ORDER && Want(b) == Order(p))
  }

  /** All of memory is one free block that is on no list. */
  predicate Drained(h: Heap) {
    h.tree == Free && h.running == map[] && forall o :: o in h.free ==> h.free[o] == []
  }

  ghost predicate Inv(h: Heap) {
    && Canonical(h.tree) && Height(h.tree) <= MAX_ORDER - MIN_ORDER
    && ListsOk(h.free) && NamesOk(h.tree, h.running)
    && (Match(h.tree, h.free) || Drained(h))
  }

  // ---------- lists ----------

  lemma {:induction false} RemoveProps(l: seq<Path>, p: Path)
    requires DistinctPaths(l)
    ensures DistinctPaths(Remove(l, p)) && forall q :: q in Remove(l, p) <==> q in l && q != p
  {
    if l != [] {
      assert l == [l[0]] + l[1..];
      assert l[0] !in l[1..];
      if l[0] != p {
        RemoveProps(l[1..], p);
      }
    }
  }

  lemma PushList(free: FreeMap, o: nat, p: Path)
    requires ListsOk(free) && IsOrder(o) && |p| == MAX_ORDER - o && !Listed(free, p)
    ensures ListsOk(free[o := [p] + free[o]])
    ensures forall q :: Listed(free[o := [p] + free[o]], q) <==> q == p || Listed(free, q)
  {
  }

  lemma DropList(free: FreeMap, p: Path)
    requires ListsOk(free) && |p| <= MAX_ORDER - MIN_ORDER
    ensures ListsOk(free[Order(p) := Remove(free[Order(p)], p)])
    ensures forall q :: Listed(free[Order(p) := Remove(free[Order(p)], p)], q) <==> q != p && Listed(free, q)
  {
    RemoveProps(free[Order(p)], p);
  }

  lemma {:induction false} HeightBounds(t: Tree, p: Path)
    requires Sub(t, p).Some?
    ensures |p| + Height(Sub(t, p).value) <= Height(t)
  {
    if p != [] {
      HeightBounds(if p[0] then t.right else t.left, p[1..]);
    }
  }

  lemma {:induction false} HeightOfPut(t: Tree, p: Path, s: Tree, n: nat)
    requires Sub(t, p).Some? && Height(t) <= n && |p| + Height(s) <= n
    ensures Height(Put(t, p, s)) <= n
  {
    if p != [] {
      HeightOfPut(if p[0] then t.right else t.left, p[1..], s, n - 1);
    }
  }
}
