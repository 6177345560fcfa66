/** Refusal, round trip, the drained heap, and whole runs of the buddy allocator. */
module BuddyRuns {
  import opened BuddyTree
  import opened BuddyHeap
  import opened BuddySafety

  // ---------- when a request is refused ----------

  /** No used block overlaps the block at `q`. */
  ghost predicate WhollyFree(t: Tree, q: Path) {
    forall p :: Sub(t, p).Some? && Sub(t, p).value.Used? ==> !(p <= q) && !(q <= p)
  }

  lemma {:induction false} CanonicalSub(t: Tree, p: Path)
    requires Canonical(t) && Sub(t, p).Some?
    ensures Canonical(Sub(t, p).value)
  {
    if p != [] {
      CanonicalSub(if p[0] then t.right else t.left, p[1..]);
    }
  }

  lemma {:induction false} LeafAbove(t: Tree, q: Path) returns (n: nat)
    requires Sub(t, q) == None
    ensures n < |q| && Sub(t, q[..n]).Some? && !Sub(t, q[..n]).value.Split?
  {
    if t.Split? {
      var k := LeafAbove(if q[0] then t.right else t.left, q[1..]);
      n := k + 1;
      assert q[..n][1..] == q[1..][..k];
    } else {
      n := 0;
    }
  }

  /** A wholly free aligned block lies inside a free block of the tree. */
  lemma FreeBlockAround(t: Tree, q: Path) returns (p: Path)
    requires Canonical(t) && WhollyFree(t, q)
    ensures p <= q && Sub(t, p) == Some(Free)
  {
    if Sub(t, q).Some? {
      var s := Sub(t, q).value;
      CanonicalSub(t, q);
      forall r | Sub(s, r).Some? ensures !Sub(s, r).value.Used? {
        SubSplit(t, q, r);
        assert q <= q + r;
      }
      UnusedIsFree(s);
      p := q;
    } else {
      var n := LeafAbove(t, q);
      p := q[..n];
    }
  }

  lemma ListsFree(h: Heap, p: Path)
    requires Inv(h) && !Drained(h) && Sub(h.tree, p) == Some(Free)
    ensures |p| <= MAX_ORDER - MIN_ORDER && p in h.free[Order(p)]
  {
    HeightBounds(h.tree, p);
    assert Listed(h.free, p);
  }

  lemma GrantIsFree(t: Tree, p: Path, q: Path)
    requires Sub(t, p) == Some(Free) && p <= q
    ensures WhollyFree(t, q)
  {
    forall r | Sub(t, r).Some? && Sub(t, r).value.Used? ensures !(r <= q) && !(q <= r) {
      if r <= q || q <= r {
        assert r <= p || p <= r;
        LeavesIncomparable(t, p, r);
        assert false;
      }
    }
  }

  /** Before a drain, a request that fits memory is refused exactly when no aligned block of the
      needed size is wholly free. */
  lemma RefusedExactly(h: Heap, name: char, bytes: int)
    requires Inv(h) && !Drained(h) && bytes <= Pow2(MAX_ORDER)
    ensures HasLists(h.free)
    ensures (AllocReady(h); Alloc(h, name, bytes).1 == Refused) <==>
            forall q :: |q| == MAX_ORDER - Want(bytes) ==> !WhollyFree(h.tree, q)
  {
    AllocReady(h);
    var w := Want(bytes);
    var g := Available(h.free, w);
    if g > MAX_ORDER {
      forall q | |q| == MAX_ORDER - w ensures !WhollyFree(h.tree, q) {
        if WhollyFree(h.tree, q) {
          var p := FreeBlockAround(h.tree, q);
          ListsFree(h, p);
          assert false;
        }
      }
    } else {
      var p := h.free[g][0];
      PopMatch(h.tree, h.free, g);
      var q := p + Lefts(g - w);
      GrantIsFree(h.tree, p, q);
      assert |q| == MAX_ORDER - w;
    }
  }

  /** Hanging a granted block under a free one uses no block that was in use and moves none. */
  lemma GrantSees(t: Tree, running: map<char, Path>, p: Path, n: nat, x: Tree)
    requires Sub(t, p) == Some(Free) && x.Used? && NamesOk(t, running)
    ensures WhollyFree(t, p + Lefts(n)) && Sub(Put(t, p, Spine(n, x)), p + Lefts(n)) == Some(x)
    ensures forall m :: m in running ==> Sub(Put(t, p, Spine(n, x)), running[m]) == Sub(t, running[m])
  {
    hide Sub, Put, Spine, WhollyFree;
    GrantIsFree(t, p, p + Lefts(n));
    SpineSees(t, p, n, x, p + Lefts(n));
    forall m | m in running ensures Sub(Put(t, p, Spine(n, x)), running[m]) == Sub(t, running[m]) {
      SpineSees(t, p, n, x, running[m]);
    }
  }

  /** A granted request gets a block of the least order that holds it, wholly free before, filed
      under its name; the blocks of all other processes stay where they are. */
  lemma GrantIsRight(h: Heap, name: char, bytes: int)
    requires Grants(h, name, bytes)
    ensures (AllocReady(h); var (h', r) := Alloc(h, name, bytes);
             && WhollyFree(h.tree, r.path) && Sub(h'.tree, r.path) == Some(Used(name, bytes))
             && |r.path| == MAX_ORDER - Want(bytes) && h'.running == h.running[name := r.path]
             && forall m :: m in h.running ==> Sub(h'.tree, h.running[m]) == Sub(h.tree, h.running[m]))
  {
    hide Sub, Put, Spine, WhollyFree, NamesOk, Canonical, Pushes, Inv, Alloc, Drained;
    AllocReady(h);
    var w, g := AllocIsGrant(h, name, bytes);
    GrantSees(h.tree, h.running, h.free[g][0], g - w, Used(name, bytes));
  }

  lemma {:induction false} OffsetOfLefts(p: Path, n: nat, u: nat)
    requires |p| + n <= u
    ensures Offset(p + Lefts(n), u) == Offset(p, u)
  {
    if p != [] {
      assert (p + Lefts(n))[1..] == p[1..] + Lefts(n);
      OffsetOfLefts(p[1..], n, u - 1);
    } else if n > 0 {
      assert p + Lefts(n) == Lefts(n) && Lefts(n)[1..] == Lefts(n - 1);
      assert [] + Lefts(n - 1) == Lefts(n - 1);
      OffsetOfLefts([], n - 1, u - 1);
    }
  }

  /** It is cut from the lower end of the newest free block of order `g`, the least sufficient order
      of which there is any free block at all. */
  lemma GrantIsBestFit(h: Heap, name: char, bytes: int) returns (g: nat)
    requires Grants(h, name, bytes)
    ensures HasLists(h.free) && Want(bytes) <= g <= MAX_ORDER && h.free[g] != []
    ensures forall q :: Sub(h.tree, q) == Some(Free) && |q| <= MAX_ORDER - Want(bytes) ==> |q| <= MAX_ORDER - g
    ensures (AllocReady(h); var q, p := Alloc(h, name, bytes).1.path, h.free[g][0];
             Sub(h.tree, p) == Some(Free) && |p| == MAX_ORDER - g && p <= q && |q| <= MAX_ORDER &&
             Offset(q, MAX_ORDER) == Offset(p, MAX_ORDER))
  {
    hide Put, Spine, NamesOk, Canonical, Pushes, Grant, Sub, Inv, Drained, Alloc, Offset, Want;
    AllocReady(h);
    var w;
    w, g := AllocIsGrant(h, name, bytes);
    OffsetOfLefts(h.free[g][0], g - w, MAX_ORDER);
    forall q | Sub(h.tree, q) == Some(Free) && |q| <= MAX_ORDER - w ensures |q| <= MAX_ORDER - g {
      ListedAtLeast(h, q, w, g);
    }
  }

  lemma ListedAtLeast(h: Heap, q: Path, w: nat, g: nat)
    requires Inv(h) && !Drained(h) && Sub(h.tree, q) == Some(Free) && MIN_ORDER <= w <= g <= MAX_ORDER
    requires HasLists(h.free) && forall o :: w <= o < g ==> h.free[o] == []
    requires |q| <= MAX_ORDER - w
    ensures |q| <= MAX_ORDER - g
  {
    hide Inv, Drained, Sub;
    ListsFree(h, q);
    assert h.free[Order(q)] != [];
  }

  /** Splitting leaves one new block on each list between the two orders, in front of what was there. */
  lemma {:induction false} SplitLists(free: FreeMap, p: Path, g: nat, w: nat, o: nat)
    requires HasLists(free) && MIN_ORDER <= w <= g <= MAX_ORDER && MIN_ORDER <= o <= MAX_ORDER
    ensures HasLists(Pushes(free, p, g, w))
    ensures Pushes(free, p, g, w)[o] == if w <= o < g then [p + Lefts(g - 1 - o) + [true]] + free[o] else free[o]
    decreases g
  {
    if g > w {
      SplitLists(free[g - 1 := [p + [true]] + free[g - 1]], p + [false], g - 1, w, o);
      if o < g - 1 {
        assert p + [false] + Lefts(g - 2 - o) == p + Lefts(g - 1 - o);
      } else if o == g - 1 {
        assert p + Lefts(0) == p;
      }
    }
  }

  // ---------- freeing ----------

  /** A release takes one name off the map, frees all of its block and leaves every other process's
      block alone. */
  lemma ReleaseIsRight(h: Heap, name: char)
    requires Inv(h) && name in h.running
    ensures (ReleaseReady(h, name); var h' := Release(h, name);
             && WhollyFree(h'.tree, h.running[name]) && h'.running == h.running - {name}
             && forall m :: m in h.running && m != name ==> Sub(h'.tree, h.running[m]) == Sub(h.tree, h.running[m]))
  {
    hide Sub, Put, Top, Climb, NamesOk, WhollyFree, OnlyUsed, Canonical, Height, Match, Drained;
    ReleaseReady(h, name);
    var t, p := h.tree, h.running[name];
    ClimbOnly(t, p, p);
    PrefixExists(t, p, Top(t, p));
    FreedSees(t, h.running, name, Top(t, p));
  }

  lemma FreedSees(t: Tree, running: map<char, Path>, name: char, top: Path)
    requires NamesOk(t, running) && name in running && top <= running[name]
    requires Sub(t, top).Some? && OnlyUsed(t, top, running[name])
    ensures WhollyFree(Put(t, top, Free), running[name])
    ensures forall m :: m in running && m != name ==> Sub(Put(t, top, Free), running[m]) == Sub(t, running[m])
  {
    hide Sub, Put, OnlyUsed;
    var u, p := Put(t, top, Free), running[name];
    forall r | Sub(u, r).Some? && Sub(u, r).value.Used? ensures !(r <= p) && !(p <= r) {
      ReleaseSees(t, top, p, r);
      UsedApart(t, p, r);
    }
    forall m | m in running && m != name ensures Sub(u, running[m]) == Sub(t, running[m]) {
      assert Sub(t, running[m]).value.name == m && Sub(t, p).value.name == name;
      ReleaseSees(t, top, p, running[m]);
    }
  }

  lemma UsedApart(t: Tree, p: Path, r: Path)
    requires Sub(t, p).Some? && Sub(t, p).value.Used? && Sub(t, r).Some? && Sub(t, r).value.Used? && p != r
    ensures !(r <= p) && !(p <= r)
  {
    if r <= p || p <= r {
      LeavesIncomparable(t, p, r);
      assert false;
    }
  }

  /** The joined block comes to the front of its list, unless it is all of memory. */
  lemma {:induction false} JoinedFirst(t: Tree, free: FreeMap, p: Path)
    requires HasLists(free) && |p| <= MAX_ORDER - MIN_ORDER && Top(t, p) != []
    ensures HasLists(Climb(t, free, p))
    ensures var top := Top(t, p);
            |top| <= |p| && var l := Climb(t, free, p)[Order(top)]; l != [] && l[0] == top
    decreases |p|
  {
    if Sub(t, Buddy(p)) == Some(Free) {
      JoinedFirst(t, free[Order(p) := Remove(free[Order(p)], Buddy(p))], Parent(p));
    }
  }

  // ---------- allocating and freeing at once ----------

  lemma SpineHalves(t: Tree, p: Path, n: nat, x: Tree)
    requires n > 0 && Sub(t, p) == Some(Spine(n, x))
    ensures Sub(t, p + [false]) == Some(Spine(n - 1, x)) && Sub(t, p + [true]) == Some(Free)
  {
    SubSplit(t, p, [false]);
    SubSplit(t, p, [true]);
    assert Sub(Spine(n, x), [false]) == Some(Spine(n - 1, x)) && Sub(Spine(n, x), [true]) == Some(Free);
  }

  /** Joining the left half of a split block with the right half just put on its list. */
  lemma ClimbOne(t: Tree, free: FreeMap, p: Path)
    requires HasLists(free) && |p| < MAX_ORDER - MIN_ORDER && Sub(t, p + [true]) == Some(Free)
    ensures var o, l, r := Order(p) - 1, p + [false], p + [true];
            Climb(t, free[o := [r] + free[o]], l) == Climb(t, free, p) && Top(t, l) == Top(t, p)
  {
    hide Sub;
    var o, l, r := Order(p) - 1, p + [false], p + [true];
    assert Parent(l) == p && Buddy(l) == r && Order(l) == o;
    assert Remove([r] + free[o], r) == free[o];
    assert free[o := [r] + free[o]][o := free[o]] == free;
  }

  lemma {:induction false} ClimbUndoes(t: Tree, free: FreeMap, p: Path, g: nat, w: nat, x: Tree)
    requires HasLists(free) && MIN_ORDER <= w <= g <= MAX_ORDER && |p| == MAX_ORDER - g
    requires Sub(t, p) == Some(Spine(g - w, x))
    ensures HasLists(Pushes(free, p, g, w))
    ensures Climb(t, Pushes(free, p, g, w), p + Lefts(g - w)) == Climb(t, free, p)
    ensures Top(t, p + Lefts(g - w)) == Top(t, p)
    decreases g
  {
    hide Sub, Spine, Climb, Top;
    if g == w {
      assert p + Lefts(0) == p;
    } else {
      var r := p + [true];
      var l, f1 := p + [false], free[g - 1 := [r] + free[g - 1]];
      SpineHalves(t, p, g - w, x);
      ClimbUndoes(t, f1, l, g - 1, w, x);
      assert l + Lefts(g - 1 - w) == p + Lefts(g - w);
      ClimbOne(t, free, p);
    }
  }

  lemma {:induction false} CanonicalBuddy(t: Tree, p: Path)
    requires Canonical(t) && p != [] && Sub(t, p) == Some(Free)
    ensures Sub(t, Buddy(p)) != Some(Free)
  {
    if |p| > 1 {
      CanonicalBuddy(if p[0] then t.right else t.left, p[1..]);
      assert Buddy(p)[1..] == Buddy(p[1..]);
    } else {
      assert p[1..] == [] && Buddy(p)[1..] == [];
    }
  }

  lemma UndoTree(t: Tree, p: Path, a: Tree)
    requires Sub(t, p) == Some(Free)
    ensures Sub(Put(t, p, a), p) == Some(a) && Put(Put(t, p, a), p, Free) == t
  {
    SubOfPut(t, p, a, p);
    assert p[|p|..] == [] && Sub(a, []) == Some(a) && p + [] == p;
    PutPut(t, p, a, [], Free);
    PutSame(t, p, Free);
  }

  lemma UndoLists(t: Tree, free: FreeMap, p: Path, g: nat, w: nat, x: Tree)
    requires Canonical(t) && HasLists(free) && MIN_ORDER <= w <= g <= MAX_ORDER
    requires free[g] != [] && p == free[g][0] && p != [] && Sub(t, p) == Some(Free) && |p| == MAX_ORDER - g
    ensures var u, f := Put(t, p, Spine(g - w, x)), Pushes(free[g := free[g][1..]], p, g, w);
            HasLists(f) && Climb(u, f, p + Lefts(g - w)) == free && Top(u, p + Lefts(g - w)) == p
  {
    var f1, a := free[g := free[g][1..]], Spine(g - w, x);
    var u := Put(t, p, a);
    UndoTree(t, p, a);
    ClimbUndoes(u, f1, p, g, w, x);
    CanonicalBuddy(t, p);
    SubOfPut(t, p, a, Buddy(p));
    assert !(p <= Buddy(p)) && !(Buddy(p) <= p);
    assert [p] + free[g][1..] == free[g];
    hide Sub, Put, Spine, Pushes, Remove;
    assert f1[g := free[g]] == free;
  }

  ghost predicate Grants(h: Heap, name: char, bytes: int) {
    Inv(h) && name !in h.running && (AllocReady(h); Alloc(h, name, bytes).1.Granted?)
  }

  /** The heap after a granted request is freed again. */
  ghost function AllocRelease(h: Heap, name: char, bytes: int): Heap
    requires Grants(h, name, bytes)
  {
    AllocReady(h);
    AllocKeeps(h, name, bytes);
    ReleaseReady(Alloc(h, name, bytes).0, name);
    Release(Alloc(h, name, bytes).0, name)
  }

  /** Allocating and at once freeing restores the whole heap, free lists in order included, exactly
      if memory was not one single block; otherwise it drains the heap. */
  lemma AllocThenRelease(h: Heap, name: char, bytes: int)
    requires Grants(h, name, bytes)
    ensures h.tree != Free ==> AllocRelease(h, name, bytes) == h
    ensures h.tree == Free ==> Drained(AllocRelease(h, name, bytes)) && !Drained(h)
  {
    AllocReady(h);
    AllocKeeps(h, name, bytes);
    ReleaseReady(Alloc(h, name, bytes).0, name);
    var w, g := AllocIsGrant(h, name, bytes);
    hide Alloc, Inv, Release, Drained;
    if h.tree != Free {
      Restores(h, name, bytes, w, g);
    } else {
      Drains(h, name, bytes, w, g);
    }
  }

  lemma AllocIsGrant(h: Heap, name: char, bytes: int) returns (w: nat, g: nat)
    requires Grants(h, name, bytes)
    ensures HasLists(h.free) && MIN_ORDER <= w <= g <= MAX_ORDER && h.free[g] != []
    ensures Sub(h.tree, h.free[g][0]) == Some(Free) && |h.free[g][0]| == MAX_ORDER - g
    ensures (AllocReady(h); Alloc(h, name, bytes).0) == Grant(h, name, bytes, w, g)
    ensures (AllocReady(h); Alloc(h, name, bytes).1) == Granted(h.free[g][0] + Lefts(g - w)) && w == Want(bytes)
    ensures Canonical(h.tree) && NamesOk(h.tree, h.running) && !Drained(h)
    ensures forall o :: w <= o < g ==> h.free[o] == []
  {
    AllocReady(h);
    w := Want(bytes);
    g := Available(h.free, w);
    assert !Drained(h);
    PopMatch(h.tree, h.free, g);
  }

  lemma Restores(h: Heap, name: char, bytes: int, w: nat, g: nat)
    requires Canonical(h.tree) && h.tree != Free && name !in h.running && HasLists(h.free)
    requires MIN_ORDER <= w <= g <= MAX_ORDER && h.free[g] != [] && Sub(h.tree, h.free[g][0]) == Some(Free)
    requires |h.free[g][0]| == MAX_ORDER - g
    requires var h' := Grant(h, name, bytes, w, g); HasLists(h'.free) && Sub(h'.tree, h'.running[name]).Some?
    ensures Release(Grant(h, name, bytes, w, g), name) == h
  {
    var p, x := h.free[g][0], Used(name, bytes);
    assert p != [] by { assert Sub(h.tree, []) == Some(h.tree); }
    var h' := Grant(h, name, bytes, w, g);
    UndoTree(h.tree, p, Spine(g - w, x));
    UndoLists(h.tree, h.free, p, g, w, x);
    hide Sub, Put, Spine, Pushes, Climb, Top, Canonical;
    assert h'.running - {name} == h.running;
  }

  lemma Drains(h: Heap, name: char, bytes: int, w: nat, g: nat)
    requires h.tree == Free && HasLists(h.free) && MIN_ORDER <= w <= g <= MAX_ORDER && h.free[g] != []
    requires Sub(h.tree, h.free[g][0]) == Some(Free) && NamesOk(h.tree, h.running)
    requires Inv(Grant(h, name, bytes, w, g))
    ensures (ReleaseReady(Grant(h, name, bytes, w, g), name); Drained(Release(Grant(h, name, bytes, w, g), name)))
  {
    NoNames(h.running);
    ReleaseKeeps(Grant(h, name, bytes, w, g), name);
  }

  // ---------- whole runs ----------

  /** A line of input: zero bytes frees the name, anything else asks for memory. */
  datatype Query = Query(name: char, bytes: int)

  predicate Legal(h: Heap, q: Query) {
    if q.bytes == 0 then q.name in h.running else q.name !in h.running
  }

  ghost function Serve(h: Heap, q: Query): (h': Heap)
    requires Inv(h) && Legal(h, q)
    ensures Inv(h')
  {
    if q.bytes == 0 then
      ReleaseReady(h, q.name);
      ReleaseKeeps(h, q.name);
      Release(h, q.name)
    else
      AllocReady(h);
      AllocKeeps(h, q.name, q.bytes);
      Alloc(h, q.name, q.bytes).0
  }

  ghost predicate AllLegal(h: Heap, qs: seq<Query>)
    requires Inv(h)
    decreases |qs|
  {
    qs == [] || (Legal(h, qs[0]) && AllLegal(Serve(h, qs[0]), qs[1..]))
  }

  ghost function Run(h: Heap, qs: seq<Query>): (h': Heap)
    requires Inv(h) && AllLegal(h, qs)
    ensures Inv(h')
    decreases |qs|
  {
    if qs == [] then h else Run(Serve(h, qs[0]), qs[1..])
  }

  /** The heap of a new test case: all of memory free and listed. */
  function Fresh(): Heap {
    Heap(Free, map o: nat | MIN_ORDER <= o <= MAX_ORDER && IsOrder(o) :: if o == MAX_ORDER then [[]] else [], map[])
  }

  lemma FreshInv()
    ensures Inv(Fresh()) && !Drained(Fresh()) && Fresh().tree == Free && Fresh().running == map[]
  {
    var h := Fresh();
    forall q ensures Sub(Free, q) == if q == [] then Some(Free) else None {
    }
    forall q ensures Listed(h.free, q) <==> Sub(h.tree, q) == Some(Free) {
    }
    assert h.free[MAX_ORDER] == [[]];
  }

  /** In every run: no two free buddies, lists that hold each free block exactly once and nothing
      else unless the heap is drained, and a used block for every name and only for it. */
  lemma RunIsSound(qs: seq<Query>)
    requires Inv(Fresh()) && AllLegal(Fresh(), qs)
    ensures var h := Run(Fresh(), qs);
            && Canonical(h.tree) && ListsOk(h.free) && NamesOk(h.tree, h.running)
            && (Match(h.tree, h.free) <==> !Drained(h))
  {
    var h := Run(Fresh(), qs);
    if Drained(h) {
      assert Sub(h.tree, []) == Some(Free);
      assert !Listed(h.free, []);
    }
  }

  /** Once drained, a heap refuses every request for the rest of the test case. */
  lemma {:induction false} DrainedForever(h: Heap, qs: seq<Query>)
    requires Inv(h) && Drained(h) && AllLegal(h, qs)
    ensures Run(h, qs) == h
    ensures qs != [] ==> HasLists(h.free) && (AllocReady(h); !Alloc(h, qs[0].name, qs[0].bytes).1.Granted?)
    decreases |qs|
  {
    if qs != [] {
      AllocReady(h);
      DrainedForever(Serve(h, qs[0]), qs[1..]);
    }
  }
}
