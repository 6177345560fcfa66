/** The allocator as it runs: splitting and coalescing loops over a tree, free lists and a name map
    changed in place, each tied to the functions of BuddyHeap. */
module BuddyAllocator {
  import opened BuddyTree
  import opened BuddyHeap
  import opened BuddySafety
  import opened BuddyRuns

  lemma {:induction false} RemoveAbsent(l: seq<Path>, p: Path)
    requires p !in l
    ensures Remove(l, p) == l
  {
    if l != [] {
      RemoveAbsent(l[1..], p);
    }
  }

  /** find_reqd_power_of_2: the block size by doubling, and its logarithm. */
  method FindPower(bytes: int) returns (size: nat, order: nat)
    requires bytes <= Pow2(MAX_ORDER)
    ensures order == Want(bytes) && size == Pow2(order)
  {
    size, order := Pow2(MIN_ORDER), MIN_ORDER;
    while size < bytes
      invariant IsOrder(order) && size == Pow2(order) && WantFrom(bytes, order) == Want(bytes)
      decreases MAX_ORDER - order
    {
      size := size * 2;
      order := order + 1;
    }
  }

  /** The list surgery of coalesce: whichever child is on the list leaves it. */
  method DropChild(list: seq<Path>, left: Path, right: Path) returns (r: seq<Path>)
    requires DistinctPaths(list) && (left in list <==> right !in list)
    ensures r == Remove(list, if left in list then left else right)
  {
    ghost var s := if left in list then left else right;
    if list[0] == left || list[0] == right {
      return list[1..];
    }
    r := [list[0]];
    var i := 1;
    while i < |list|
      invariant 1 <= i <= |list| && r + Remove(list[i..], s) == Remove(list, s)
    {
      if list[i] == left || list[i] == right {
        assert list[i] in list && list[i] == s;
        assert list[i + 1..] == list[i..][1..];
        assert s !in list[i + 1..];
        RemoveAbsent(list[i + 1..], s);
      } else {
        assert list[i..][1..] == list[i + 1..];
        assert r + ([list[i]] + Remove(list[i + 1..], s)) == r + [list[i]] + Remove(list[i + 1..], s);
        r := r + [list[i]];
      }
      i := i + 1;
    }
    assert list[i..] == [] && r + [] == r;
  }

  class Allocator {
    var tree: Tree
    var freeMap: FreeMap
    var running: map<char, Path>

    function H(): Heap reads this {
      Heap(tree, freeMap, running)
    }

    constructor ()
      ensures H() == Fresh() && Inv(H())
    {
      tree, freeMap, running := Fresh().tree, Fresh().free, Fresh().running;
      FreshInv();
    }

    /** The halves become free blocks; the right one goes on its list, the left one is for the
        caller. */
    method SplitBlock(p: Path)
      requires HasLists(freeMap) && Sub(tree, p).Some? && |p| < MAX_ORDER - MIN_ORDER
      modifies this`tree, this`freeMap
      ensures tree == Put(old(tree), p, Split(Free, Free))
      ensures freeMap == old(freeMap)[Order(p) - 1 := [p + [true]] + old(freeMap)[Order(p) - 1]]
    {
      tree := Put(tree, p, Split(Free, Free));
      freeMap := freeMap[Order(p) - 1 := [p + [true]] + freeMap[Order(p) - 1]];
    }

    /** Splits the block at `start`, of order `g`, until one of order `w` is at hand. */
    method SplitDown(start: Path, g: nat, w: nat, x: Tree) returns (curr: Path)
      requires HasLists(freeMap) && MIN_ORDER <= w <= g <= MAX_ORDER && |start| == MAX_ORDER - g
      requires freeMap[g] != [] && Sub(tree, start).Some?
      modifies this`tree, this`freeMap
      ensures curr == start + Lefts(g - w) && Sub(tree, curr).Some? && HasLists(freeMap)
      ensures Put(tree, curr, x) == Put(old(tree), start, Spine(g - w, x))
      ensures freeMap[g] == old(freeMap[g])
      ensures freeMap[g := freeMap[g][1..]] == Pushes(old(freeMap[g := freeMap[g][1..]]), start, g, w)
    {
      ghost var rest := freeMap[g][1..];
      curr := start;
      var temp: nat := g;
      while temp != w
        invariant w <= temp <= g && |curr| == MAX_ORDER - temp && curr == start + Lefts(g - temp)
        invariant HasLists(freeMap) && freeMap[g] == old(freeMap[g]) && Sub(tree, curr).Some?
        invariant Put(tree, curr, Spine(temp - w, x)) == Put(old(tree), start, Spine(g - w, x))
        invariant Pushes(freeMap[g := rest], curr, temp, w) == Pushes(old(freeMap)[g := rest], start, g, w)
        decreases temp
      {
        ghost var t, f, s := tree, freeMap, Split(Free, Free);
        SplitBlock(curr);
        assert Sub(s, [false]) == Some(Free);
        PutPut(t, curr, s, [false], Spine(temp - 1 - w, x));
        assert Put(s, [false], Spine(temp - 1 - w, x)) == Spine(temp - w, x);
        ghost var o: nat := temp - 1;
        ghost var popped: FreeMap := f[g := rest];
        assert freeMap[g := rest] == popped[o := [curr + [true]] + f[o]];
        assert curr + [false] == start + Lefts(g - temp + 1);
        curr := curr + [false];
        temp := temp - 1;
      }
    }

    /** The smallest list from `want` up that has a block. */
    method FindList(want: nat) returns (canGet: nat)
      requires IsOrder(want) && HasLists(freeMap)
      ensures canGet == Available(freeMap, want)
    {
      canGet := want;
      while canGet <= MAX_ORDER && freeMap[canGet] == []
        invariant want <= canGet <= MAX_ORDER + 1
        invariant Available(freeMap, canGet) == Available(freeMap, want)
      {
        canGet := canGet + 1;
      }
    }

    /** Takes the first block of order `canGet`, splits it down and puts the process in. */
    method Occupy(name: char, bytes: int, want: nat, canGet: nat) returns (curr: Path)
      requires HasLists(freeMap) && MIN_ORDER <= want <= canGet <= MAX_ORDER && freeMap[canGet] != []
      requires Sub(tree, freeMap[canGet][0]).Some? && |freeMap[canGet][0]| == MAX_ORDER - canGet
      modifies this
      ensures H() == Grant(old(H()), name, bytes, want, canGet)
      ensures curr == old(freeMap[canGet][0]) + Lefts(canGet - want)
    {
      var start := freeMap[canGet][0];
      curr := SplitDown(start, canGet, want, Used(name, bytes));
      freeMap := freeMap[canGet := freeMap[canGet][1..]];
      tree := Put(tree, curr, Used(name, bytes));
      running := running[name := curr];
    }

    /** send_query with a size: grants the least free block that fits, or refuses. */
    method Allocate(name: char, bytes: int) returns (r: Outcome)
      requires Inv(H()) && name !in running
      modifies this
      ensures Inv(H())
      ensures (AllocReady(old(H())); (H(), r) == Alloc(old(H()), name, bytes))
    {
      AllocReady(H());
      AllocKeeps(H(), name, bytes);
      FirstListed(H());
      hide Inv, Sub, Grant, Lefts;
      if bytes > Pow2(MAX_ORDER) {
        return Exited;
      }
      var size, want := FindPower(bytes);
      var canGet := FindList(want);
      if canGet > MAX_ORDER {
        return Refused;
      }
      var curr := Occupy(name, bytes, want, canGet);
      return Granted(curr);
    }

    /** Unlinks both children of `p`, one of which is on the free list. What is left is a childless
        block still marked as used, with no owner. */
    method Coalesce(p: Path, ghost temp: Path)
      requires HasLists(freeMap) && temp != [] && p == Parent(temp) && |temp| <= MAX_ORDER - MIN_ORDER
      requires Sub(tree, p).Some? && DistinctPaths(freeMap[Order(temp)])
      requires Buddy(temp) in freeMap[Order(temp)] && temp !in freeMap[Order(temp)]
      modifies this`tree, this`freeMap
      ensures tree == Put(old(tree), p, Used('_', 0))
      ensures freeMap == old(freeMap)[Order(temp) := Remove(old(freeMap)[Order(temp)], Buddy(temp))]
    {
      tree := Put(tree, p, Used('_', 0));
      var childOrder: nat := MAX_ORDER - |p| - 1;
      assert temp == p + [temp[|temp| - 1]];
      var list := DropChild(freeMap[childOrder], p + [false], p + [true]);
      freeMap := freeMap[childOrder := list];
    }

    /** The coalescing loop: climbs from `start` while the buddy is free. */
    method JoinUp(start: Path) returns (temp: Path)
      requires ListsOk(freeMap) && MatchBut(tree, freeMap, start) && Sub(tree, start).Some?
      requires |start| <= MAX_ORDER - MIN_ORDER
      modifies this`tree, this`freeMap
      ensures HasLists(old(freeMap)) && HasLists(freeMap) && temp == Top(old(tree), start)
      ensures Sub(old(tree), temp).Some? && Sub(tree, temp).Some? && Put(tree, temp, Free) == Put(old(tree), temp, Free)
      ensures |temp| <= MAX_ORDER - MIN_ORDER
      ensures temp != [] ==>
                freeMap[Order(temp) := [temp] + freeMap[Order(temp)]] == Climb(old(tree), old(freeMap), start)
      ensures temp == [] ==> freeMap == Climb(old(tree), old(freeMap), start)
    {
      ghost var t := tree;
      temp := start;
      ghost var x := Sub(tree, start).value;
      PutSame(t, start, x);
      while temp != []
        invariant ListsOk(freeMap) && MatchBut(t, freeMap, temp) && Sub(t, temp).Some? && |temp| <= MAX_ORDER - MIN_ORDER
        invariant tree == Put(t, temp, x) && Top(t, temp) == Top(t, start)
        invariant Climb(t, freeMap, temp) == Climb(t, old(freeMap), start)
        decreases |temp|
      {
        BuddyUnchanged(t, temp, x);
        if Sub(tree, Buddy(temp)) == Some(Free) {
          JoinMatch(t, freeMap, temp);
          BuddyListed(t, freeMap, temp);
          ParentPut(t, temp, x);
          hide Sub, Put, MatchBut, ListsOk;
          Coalesce(Parent(temp), temp);
          x := Used('_', 0);
          temp := Parent(temp);
        } else {
          break;
        }
      }
      RePutAt(t, temp, x, Free);
    }

    /** send_query with size zero: the process's block joins its free buddies and, unless it is all
        of memory, goes to the front of its list. */
    method Deallocate(name: char)
      requires Inv(H()) && name in running
      modifies this
      ensures (ReleaseReady(old(H()), name); H() == Release(old(H()), name)) && Inv(H())
    {
      ReleaseReady(H(), name);
      ReleaseKeeps(H(), name);
      var loc := running[name];
      running := running - {name};
      var temp := JoinUp(loc);
      tree := Put(tree, temp, Free);
      if temp == [] {
        return;
      }
      freeMap := freeMap[Order(temp) := [temp] + freeMap[Order(temp)]];
    }

    /** One line of input. */
    method SendQuery(q: Query)
      requires Inv(H()) && Legal(H(), q)
      modifies this
      ensures Inv(H()) && H() == Serve(old(H()), q)
    {
      if q.bytes == 0 {
        Deallocate(q.name);
      } else {
        var r := Allocate(q.name, q.bytes);
      }
    }
  }

  lemma BuddyUnchanged(t: Tree, p: Path, x: Tree)
    requires p != [] && Sub(t, p).Some?
    ensures Sub(Put(t, p, x), Buddy(p)) == Sub(t, Buddy(p)) && Sub(Put(t, p, x), Parent(p)).Some?
  {
    assert !(p <= Buddy(p)) && !(Buddy(p) <= p) && Parent(p) < p;
    SubOfPut(t, p, x, Buddy(p));
    SubOfPut(t, p, x, Parent(p));
  }

  lemma BuddyListed(t: Tree, free: FreeMap, p: Path)
    requires ListsOk(free) && MatchBut(t, free, p) && p != [] && |p| <= MAX_ORDER - MIN_ORDER
    requires Sub(t, Buddy(p)) == Some(Free)
    ensures HasLists(free) && DistinctPaths(free[Order(p)])
    ensures Buddy(p) in free[Order(p)] && p !in free[Order(p)]
  {
    assert !(p <= Buddy(p));
    assert Listed(free, Buddy(p)) && !Listed(free, p);
  }

  lemma ParentPut(t: Tree, p: Path, x: Tree)
    requires p != [] && Sub(t, p).Some?
    ensures Sub(t, Parent(p)).Some? && Sub(Put(t, p, x), Parent(p)).Some?
    ensures Put(Put(t, p, x), Parent(p), Used('_', 0)) == Put(t, Parent(p), Used('_', 0))
  {
    var m, r := Parent(p), p[|p| - 1..];
    assert p == m + r;
    SubSplit(t, m, r);
    var s := Sub(t, m).value;
    PutSame(t, m, s);
    PutPut(t, m, s, r, x);
    RePutAt(t, m, Put(s, r, x), Used('_', 0));
    BuddyUnchanged(t, p, x);
  }

  lemma RePutAt(t: Tree, p: Path, a: Tree, b: Tree)
    requires Sub(t, p).Some?
    ensures Sub(Put(t, p, a), p).Some? && Put(Put(t, p, a), p, b) == Put(t, p, b)
  {
    assert p + [] == p && Sub(a, []) == Some(a);
    PutPut(t, p, a, [], b);
  }

  lemma FirstListed(h: Heap)
    requires Inv(h)
    ensures forall o :: MIN_ORDER <= o <= MAX_ORDER ==> o in h.free
    ensures forall o :: MIN_ORDER <= o <= MAX_ORDER && h.free[o] != [] ==> |h.free[o][0]| == MAX_ORDER - o
  {
    forall o | MIN_ORDER <= o <= MAX_ORDER && h.free[o] != [] ensures |h.free[o][0]| == MAX_ORDER - o {
      assert h.free[o][0] in h.free[o];
    }
  }
}
