/** What every run of the buddy allocator keeps, when it refuses, and what freeing undoes. */
module BuddySafety {
  import opened BuddyTree
  import opened BuddyHeap

  // ---------- leaves ----------

  /** Nothing lies below a leaf. */
  lemma BelowLeaf(t: Tree, p: Path, q: Path)
    requires Sub(t, p).Some? && !Sub(t, p).value.Split? && p <= q && q != p
    ensures Sub(t, q) == None
  {
    SubSplit(t, p, q[|p|..]);
    assert q == p + q[|p|..];
  }

  lemma LeavesIncomparable(t: Tree, p: Path, q: Path)
    requires Sub(t, p).Some? && !Sub(t, p).value.Split? && Sub(t, q).Some? && !Sub(t, q).value.Split?
    requires p <= q || q <= p
    ensures p == q
  {
    if p <= q && p != q {
      BelowLeaf(t, p, q);
    } else if p != q {
      BelowLeaf(t, q, p);
    }
  }

  // ---------- allocation ----------

  lemma SplitMatch(t: Tree, free: FreeMap, p: Path)
    requires ListsOk(free) && MatchBut(t, free, p) && Sub(t, p).Some? && |p| < MAX_ORDER - MIN_ORDER
    ensures var t1, f1 := Put(t, p, Split(Free, Free)), free[Order(p) - 1 := [p + [true]] + free[Order(p) - 1]];
            ListsOk(f1) && MatchBut(t1, f1, p + [false]) && Sub(t1, p + [false]).Some?
  {
    var o := Order(p) - 1;
    var t1, f1 := Put(t, p, Split(Free, Free)), free[o := [p + [true]] + free[o]];
    SplitLists(t, free, p);
    SplitLeft(t, p);
    hide *;
    forall q ensures Listed(f1, q) <==> Sub(t1, q) == Some(Free) && !(p + [false] <= q) {
      SplitLookup(t, p, q);
    }
    MatchButIntro(t1, f1, p + [false]);
  }

  lemma MatchButIntro(t: Tree, free: FreeMap, c: Path)
    requires forall q :: Listed(free, q) <==> Sub(t, q) == Some(Free) && !(c <= q)
    ensures MatchBut(t, free, c)
  {
  }

  lemma SplitLists(t: Tree, free: FreeMap, p: Path)
    requires ListsOk(free) && MatchBut(t, free, p) && Sub(t, p).Some? && |p| < MAX_ORDER - MIN_ORDER
    ensures var o := Order(p) - 1;
            o in free && ListsOk(free[o := [p + [true]] + free[o]]) &&
            forall q :: Listed(free[o := [p + [true]] + free[o]], q) <==>
                        q == p + [true] || (Sub(t, q) == Some(Free) && !(p <= q))
  {
    var o := Order(p) - 1;
    assert p <= p + [true] && !Listed(free, p + [true]);
    assert IsOrder(o) && |p + [true]| == MAX_ORDER - o;
    PushList(free, o, p + [true]);
    hide Sub, Listed, ListsOk;
    var f1 := free[o := [p + [true]] + free[o]];
    forall q ensures Listed(f1, q) <==> q == p + [true] || (Sub(t, q) == Some(Free) && !(p <= q)) {
      assert Listed(f1, q) <==> q == p + [true] || Listed(free, q);
    }
  }

  lemma SplitLeft(t: Tree, p: Path)
    requires Sub(t, p).Some?
    ensures Sub(Put(t, p, Split(Free, Free)), p + [false]).Some?
  {
    SubOfPut(t, p, Split(Free, Free), p + [false]);
    assert (p + [false])[|p|..] == [false] && Sub(Split(Free, Free), [false]) == Some(Free);
  }

  lemma SplitLookup(t: Tree, p: Path, q: Path)
    requires Sub(t, p).Some?
    ensures var t1 := Put(t, p, Split(Free, Free));
            Sub(t1, q) == Some(Free) && !(p + [false] <= q) <==>
            q == p + [true] || (Sub(t, q) == Some(Free) && !(p <= q))
  {
    var s := Split(Free, Free);
    SubOfPut(t, p, s, q);
    if p <= q {
      var r := q[|p|..];
      assert q == p + r;
      if r != [] {
        assert Sub(s, r) == if r[1..] == [] then Some(Free) else None;
        if r[1..] == [] {
          assert r == [r[0]];
        }
      }
    }
  }

  /** Splitting down and filling the bottom block leaves lists that hold exactly the free blocks. */
  lemma {:induction false} PushMatch(t: Tree, free: FreeMap, p: Path, g: nat, w: nat, x: Tree)
    requires ListsOk(free) && MatchBut(t, free, p) && Sub(t, p).Some? && x.Used?
    requires MIN_ORDER <= w <= g <= MAX_ORDER && |p| == MAX_ORDER - g
    ensures ListsOk(Pushes(free, p, g, w)) && Match(Put(t, p, Spine(g - w, x)), Pushes(free, p, g, w))
    decreases g
  {
    hide *;
    if g == w {
      FillMatch(t, free, p, x);
      PushesUnroll(free, p, g, w, x);
    } else {
      PushesUnroll(free, p, g, w, x);
      var t1, f1 := Put(t, p, Split(Free, Free)), free[g - 1 := [p + [true]] + free[g - 1]];
      SplitMatch(t, free, p);
      PushMatch(t1, f1, p + [false], g - 1, w, x);
      PutPut(t, p, Split(Free, Free), [false], Spine(g - 1 - w, x));
    }
  }

  lemma PushesUnroll(free: FreeMap, p: Path, g: nat, w: nat, x: Tree)
    requires ListsOk(free) && MIN_ORDER <= w <= g <= MAX_ORDER && |p| == MAX_ORDER - g
    ensures HasLists(free) && Order(p) == g
    ensures g == w ==> Pushes(free, p, g, w) == free && Spine(g - w, x) == x
    ensures g > w ==> g - 1 in free
    ensures g > w ==>
      var s, f1 := Split(Free, Free), free[g - 1 := [p + [true]] + free[g - 1]];
      && HasLists(f1) && Pushes(free, p, g, w) == Pushes(f1, p + [false], g - 1, w)
      && Sub(s, [false]).Some? && Put(s, [false], Spine(g - 1 - w, x)) == Spine(g - w, x)
  {
    assert Sub(Split(Free, Free), [false]) == Some(Free);
  }

  lemma FillMatch(t: Tree, free: FreeMap, p: Path, x: Tree)
    requires MatchBut(t, free, p) && Sub(t, p).Some? && x.Used?
    ensures Match(Put(t, p, x), free)
  {
    forall q ensures Listed(free, q) <==> Sub(Put(t, p, x), q) == Some(Free) {
      SubOfPut(t, p, x, q);
    }
  }

  lemma {:induction false} SpineFacts(n: nat, x: Tree, r: Path)
    requires x.Used?
    ensures Canonical(Spine(n, x)) && Height(Spine(n, x)) == n && Spine(n, x) != Free
    ensures Sub(Spine(n, x), r).Some? && Sub(Spine(n, x), r).value.Used? <==> r == Lefts(n)
    ensures r == Lefts(n) ==> Sub(Spine(n, x), r) == Some(x)
  {
    if n > 0 {
      SpineFacts(n - 1, x, if r == [] then r else r[1..]);
      if r != [] {
        assert r == [r[0]] + r[1..];
        assert Lefts(n) == [false] + Lefts(n - 1);
      }
    } else {
      assert Lefts(0) == [];
    }
  }

  lemma AllocNames(t: Tree, running: map<char, Path>, p: Path, n: nat, name: char, bytes: int)
    requires NamesOk(t, running) && name !in running && Sub(t, p) == Some(Free)
    requires |p| + n <= MAX_ORDER && bytes <= Pow2(MAX_ORDER) && Want(bytes) == MAX_ORDER - |p| - n
    ensures NamesOk(Put(t, p, Spine(n, Used(name, bytes))), running[name := p + Lefts(n)])
  {
    var x := Used(name, bytes);
    var u, r := Put(t, p, Spine(n, x)), running[name := p + Lefts(n)];
    hide Sub, Put, Spine, Pow2, Want;
    forall m | m in r
      ensures Sub(u, r[m]).Some? && Sub(u, r[m]).value.Used? && Sub(u, r[m]).value.name == m
    {
      SpineSees(t, p, n, x, r[m]);
    }
    forall q, m, b | Sub(u, q) == Some(Used(m, b))
      ensures m in r && r[m] == q && b <= Pow2(MAX_ORDER) && |q| <= MAX_ORDER && Want(b) == Order(q)
    {
      NameInSpine(t, running, p, n, name, bytes, q, m, b);
    }
  }

  lemma NameInSpine(t: Tree, running: map<char, Path>, p: Path, n: nat, name: char, bytes: int, q: Path, m: char, b: int)
    requires NamesOk(t, running) && name !in running && Sub(t, p) == Some(Free)
    requires |p| + n <= MAX_ORDER && bytes <= Pow2(MAX_ORDER) && Want(bytes) == MAX_ORDER - |p| - n
    requires Sub(Put(t, p, Spine(n, Used(name, bytes))), q) == Some(Used(m, b))
    ensures var r := running[name := p + Lefts(n)];
            m in r && r[m] == q && b <= Pow2(MAX_ORDER) && |q| <= MAX_ORDER && Want(b) == Order(q)
  {
    hide Sub, Put, Spine, Pow2, Want;
    SpineSees(t, p, n, Used(name, bytes), q);
    if q != p + Lefts(n) {
      assert Sub(t, q) == Some(Used(m, b));
    }
  }

  /** What hanging a spine on a free block shows at `q`. */
  ghost predicate SpineLookup(t: Tree, p: Path, n: nat, x: Tree, q: Path)
    requires Sub(t, p).Some?
  {
    var u, q0 := Put(t, p, Spine(n, x)), p + Lefts(n);
    && (Sub(u, q).Some? && Sub(u, q).value.Used? && q != q0 ==> Sub(u, q) == Sub(t, q))
    && (q == q0 ==> Sub(u, q) == Some(x))
    && (Sub(t, q).Some? && Sub(t, q).value.Used? ==> Sub(u, q) == Sub(t, q) && q != q0)
  }

  lemma SpineSees(t: Tree, p: Path, n: nat, x: Tree, q: Path)
    requires Sub(t, p) == Some(Free) && x.Used?
    ensures SpineLookup(t, p, n, x, q)
  {
    SubOfPut(t, p, Spine(n, x), q);
    if p <= q {
      assert q == p + q[|p|..];
      SpineFacts(n, x, q[|p|..]);
      if q != p {
        BelowLeaf(t, p, q);
      }
    }
  }

  /** Taking the first block off its list leaves the lists right everywhere else. */
  lemma PopMatch(t: Tree, free: FreeMap, g: nat)
    requires ListsOk(free) && Match(t, free) && IsOrder(g) && free[g] != []
    ensures ListsOk(free[g := free[g][1..]]) && MatchBut(t, free[g := free[g][1..]], free[g][0])
    ensures |free[g][0]| == MAX_ORDER - g && Sub(t, free[g][0]) == Some(Free)
  {
    var p := free[g][0];
    assert p in free[g] && Listed(free, p);
    assert Remove(free[g], p) == free[g][1..];
    DropList(free, p);
    forall q ensures Listed(free[g := free[g][1..]], q) <==> Sub(t, q) == Some(Free) && !(p <= q) {
      if p <= q && q != p {
        BelowLeaf(t, p, q);
      }
    }
  }

  lemma AllocReady(h: Heap)
    requires Inv(h)
    ensures Ready(h)
  {
    forall o | MIN_ORDER <= o <= MAX_ORDER && h.free[o] != [] ensures Sub(h.tree, h.free[o][0]).Some? {
      assert h.free[o][0] in h.free[o];
      assert Listed(h.free, h.free[o][0]);
    }
  }

  /** Every request for memory keeps the invariant. */
  lemma AllocKeeps(h: Heap, name: char, bytes: int)
    requires Inv(h) && name !in h.running
    ensures (AllocReady(h); Inv(Alloc(h, name, bytes).0))
  {
    hide Inv, Grant, Sub, Pow2;
    AllocReady(h);
    if bytes <= Pow2(MAX_ORDER) {
      var w := Want(bytes);
      var g := Available(h.free, w);
      if g <= MAX_ORDER {
        GrantKeeps(h, name, bytes, w, g);
      }
    }
  }

  lemma GrantKeeps(h: Heap, name: char, bytes: int, w: nat, g: nat)
    requires Inv(h) && name !in h.running && bytes <= Pow2(MAX_ORDER) && w == Want(bytes)
    requires HasLists(h.free) && w <= g <= MAX_ORDER && h.free[g] != [] && Sub(h.tree, h.free[g][0]).Some?
    ensures Inv(Grant(h, name, bytes, w, g))
  {
    var p, x := h.free[g][0], Used(name, bytes);
    assert !Drained(h);
    PopMatch(h.tree, h.free, g);
    PushMatch(h.tree, h.free[g := h.free[g][1..]], p, g, w, x);
    SpineFacts(g - w, x, []);
    CanonicalPut(h.tree, p, Spine(g - w, x));
    HeightOfPut(h.tree, p, Spine(g - w, x), MAX_ORDER - MIN_ORDER);
    AllocNames(h.tree, h.running, p, g - w, name, bytes);
  }

  // ---------- freeing ----------

  lemma BelowParent(p: Path, q: Path)
    requires p != [] && Parent(p) <= q
    ensures q == Parent(p) || p <= q || Buddy(p) <= q
  {
    var n := |p| - 1;
    if q != Parent(p) {
      assert |q| > n;
      assert p == p[..n] + [p[n]];
      if q[n] == p[n] {
        assert p <= q;
      } else {
        assert Buddy(p) <= q;
      }
    }
  }

  lemma JoinMatch(t: Tree, free: FreeMap, p: Path)
    requires ListsOk(free) && MatchBut(t, free, p) && p != [] && Sub(t, p).Some? && |p| <= MAX_ORDER - MIN_ORDER
    requires Sub(t, Buddy(p)) == Some(Free)
    ensures var f1 := free[Order(p) := Remove(free[Order(p)], Buddy(p))];
            ListsOk(f1) && MatchBut(t, f1, Parent(p)) && Sub(t, Parent(p)).Some?
  {
    var b, m := Buddy(p), Parent(p);
    var f1 := free[Order(p) := Remove(free[Order(p)], b)];
    assert Order(b) == Order(p);
    hide Sub, Listed, Remove, Order, Buddy, Parent;
    DropList(free, b);
    ParentExists(t, p);
    forall q ensures Listed(f1, q) <==> Sub(t, q) == Some(Free) && !(m <= q) {
      assert Listed(f1, q) <==> q != b && Listed(free, q);
      FreeBelowParent(t, p, q);
    }
  }

  lemma ParentExists(t: Tree, p: Path)
    requires p != [] && Sub(t, p).Some?
    ensures Sub(t, Parent(p)).Some?
  {
    PrefixExists(t, p, Parent(p));
  }

  /** With a free buddy, the free blocks outside the parent are those outside the block itself,
      less the buddy. */
  lemma FreeBelowParent(t: Tree, p: Path, q: Path)
    requires p != [] && Sub(t, p).Some? && Sub(t, Buddy(p)) == Some(Free)
    ensures Sub(t, q) == Some(Free) && !(Parent(p) <= q) <==>
            q != Buddy(p) && Sub(t, q) == Some(Free) && !(p <= q)
  {
    var b, m := Buddy(p), Parent(p);
    assert m <= p && m <= b;
    PrefixExists(t, p, m);
    if m <= q {
      BelowParent(p, q);
      if b <= q && q != b {
        BelowLeaf(t, b, q);
      }
    }
  }

  /** After the climb the lists hold exactly the free blocks of the joined tree, except that a
      block that has become the whole memory is on none. */
  lemma {:induction false} ClimbMatch(t: Tree, free: FreeMap, p: Path)
    requires ListsOk(free) && MatchBut(t, free, p) && Sub(t, p).Some? && |p| <= MAX_ORDER - MIN_ORDER
    ensures ListsOk(Climb(t, free, p)) && Sub(t, Top(t, p)).Some?
    ensures Top(t, p) != [] ==> Match(Put(t, Top(t, p), Free), Climb(t, free, p))
    ensures Top(t, p) == [] ==> MatchBut(t, Climb(t, free, p), [])
    ensures Top(t, p) != [] ==> Sub(t, Buddy(Top(t, p))) != Some(Free)
    decreases |p|
  {
    if p != [] {
      if Sub(t, Buddy(p)) == Some(Free) {
        JoinMatch(t, free, p);
        ClimbMatch(t, free[Order(p) := Remove(free[Order(p)], Buddy(p))], Parent(p));
      } else {
        assert !Listed(free, p);
        PushList(free, Order(p), p);
        forall q ensures Listed(Climb(t, free, p), q) <==> Sub(Put(t, p, Free), q) == Some(Free) {
          SubOfPut(t, p, Free, q);
          if p <= q && q != p {
            assert q[|p|..] != [];
          }
        }
      }
    }
  }

  ghost predicate OnlyUsed(t: Tree, c: Path, p: Path) {
    forall q :: c <= q && Sub(t, q).Some? && Sub(t, q).value.Used? ==> q == p
  }

  lemma {:induction false} ClimbOnly(t: Tree, c: Path, p: Path)
    requires OnlyUsed(t, c, p) && Sub(t, c).Some?
    ensures OnlyUsed(t, Top(t, c), p)
    decreases |c|
  {
    if c != [] && Sub(t, Buddy(c)) == Some(Free) {
      PrefixExists(t, c, Parent(c));
      forall q | Parent(c) <= q && Sub(t, q).Some? && Sub(t, q).value.Used? ensures q == p {
        BelowParent(c, q);
        if Buddy(c) <= q && q != Buddy(c) {
          BelowLeaf(t, Buddy(c), q);
        }
      }
      ClimbOnly(t, Parent(c), p);
    }
  }

  /** Freeing block `top`, whose only used block is at `p`, shows nowhere among the other used blocks. */
  lemma ReleaseSees(t: Tree, top: Path, p: Path, q: Path)
    requires Sub(t, top).Some? && OnlyUsed(t, top, p) && top <= p
    ensures var u := Put(t, top, Free);
            && (Sub(u, q).Some? && Sub(u, q).value.Used? ==> Sub(u, q) == Sub(t, q) && q != p)
            && (Sub(t, q).Some? && Sub(t, q).value.Used? && q != p ==> Sub(u, q) == Sub(t, q))
  {
    SubOfPut(t, top, Free, q);
    SubOfFree(if top <= q then q[|top|..] else []);
    hide Sub, Put;
  }

  lemma SubOfFree(r: Path)
    ensures Sub(Free, r) == if r == [] then Some(Free) else None
  {
  }

  lemma ReleaseNames(t: Tree, running: map<char, Path>, name: char, top: Path)
    requires NamesOk(t, running) && name in running && top <= running[name]
    requires Sub(t, top).Some? && OnlyUsed(t, top, running[name])
    ensures NamesOk(Put(t, top, Free), running - {name})
  {
    hide Sub, Put, Pow2, Want, OnlyUsed;
    var u, r, p := Put(t, top, Free), running - {name}, running[name];
    forall n | n in r ensures Sub(u, r[n]) == Sub(t, running[n]) {
      assert Sub(t, running[n]).value.name == n && Sub(t, p).value.name == name;
      ReleaseSees(t, top, p, running[n]);
    }
    forall q, n, b | Sub(u, q) == Some(Used(n, b)) ensures n in r && r[n] == q && Sub(t, q) == Some(Used(n, b)) {
      ReleaseSees(t, top, p, q);
    }
  }

  lemma AllEmpty(t: Tree, free: FreeMap)
    requires ListsOk(free) && MatchBut(t, free, [])
    ensures forall o :: o in free ==> free[o] == []
  {
    forall o | o in free ensures free[o] == [] {
      if free[o] != [] {
        assert free[o][0] in free[o];
        assert Listed(free, free[o][0]);
        assert false;
      }
    }
  }

  lemma ReleaseReady(h: Heap, name: char)
    requires Inv(h) && name in h.running
    ensures HasLists(h.free) && Match(h.tree, h.free)
    ensures |h.running[name]| <= MAX_ORDER - MIN_ORDER && Sub(h.tree, h.running[name]).Some?
    ensures MatchBut(h.tree, h.free, h.running[name]) && OnlyUsed(h.tree, h.running[name], h.running[name])
  {
    var p := h.running[name];
    HeightBounds(h.tree, p);
    forall q | p <= q && q != p ensures Sub(h.tree, q) == None {
      BelowLeaf(h.tree, p, q);
    }
  }

  /** Every release keeps the invariant; it drains the heap exactly when nothing else was running. */
  lemma ReleaseKeeps(h: Heap, name: char)
    requires Inv(h) && name in h.running
    ensures HasLists(h.free) && |h.running[name]| <= MAX_ORDER - MIN_ORDER && Sub(h.tree, h.running[name]).Some?
    ensures Inv(Release(h, name))
    ensures Drained(Release(h, name)) <==> h.running.Keys == {name}
  {
    ReleaseReady(h, name);
    var p, t := h.running[name], h.tree;
    var top := Top(t, p);
    ClimbMatch(t, h.free, p);
    ClimbOnly(t, p, p);
    CanonicalPut(t, top, Free);
    HeightBounds(t, top);
    HeightOfPut(t, top, Free, MAX_ORDER - MIN_ORDER);
    ReleaseNames(t, h.running, name, top);
    var h' := Release(h, name);
    if top == [] {
      AllEmpty(t, h'.free);
      NoNames(h'.running);
    } else {
      PutNotFree(t, top, Free);
    }
    LastName(h'.tree, h.running, name);
  }

  /** With the last name gone the whole tree is one free block. */
  lemma LastName(t: Tree, running: map<char, Path>, name: char)
    requires Canonical(t) && NamesOk(t, running - {name}) && name in running
    ensures running.Keys == {name} ==> t == Free
    ensures running - {name} == map[] <==> running.Keys == {name}
  {
    if running.Keys == {name} {
      assert running - {name} == map[];
      forall p | Sub(t, p).Some? ensures !Sub(t, p).value.Used? {
      }
      UnusedIsFree(t);
    } else {
      var n :| n in running.Keys && n != name;
      assert n in running - {name};
    }
  }

  lemma NoNames(running: map<char, Path>)
    requires NamesOk(Free, running)
    ensures running == map[]
  {
    forall n ensures n !in running {
      var q := if n in running then running[n] else [];
      assert Sub(Free, q) == if q == [] then Some(Free) else None;
    }
  }
}
