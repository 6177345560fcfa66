/** The buddy tree: blocks named by the path from the root, their contents, and how a replacement
    at one path shows at every other path. */
module BuddyTree {

  /** A block is free, in use by a process, or split into two buddies. */
  datatype Tree = Free | Used(name: char, bytes: int) | Split(left: Tree, right: Tree)

  /** Steps from the root down: false to the left buddy, true to the right one. */
  type Path = seq<bool>

  datatype Option<T> = None | Some(value: T)

  function Sub(t: Tree, p: Path): Option<Tree> {
    if p == [] then Some(t)
    else if t.Split? then Sub(if p[0] then t.right else t.left, p[1..])
    else None
  }

  function Put(t: Tree, p: Path, s: Tree): Tree
    requires Sub(t, p).Some?
  {
    if p == [] then s
    else if p[0] then Split(t.left, Put(t.right, p[1..], s))
    else Split(Put(t.left, p[1..], s), t.right)
  }

  function Parent(p: Path): Path
    requires p != []
  {
    p[..|p| - 1]
  }

  function Buddy(p: Path): Path
    requires p != []
  {
    p[..|p| - 1] + [!p[|p| - 1]]
  }

  /** No block is split into two free buddies. */
  predicate Canonical(t: Tree) {
    t.Split? ==> !(t.left == Free && t.right == Free) && Canonical(t.left) && Canonical(t.right)
  }

  function Height(t: Tree): nat {
    if t.Split? then 1 + (if Height(t.left) > Height(t.right) then Height(t.left) else Height(t.right)) else 0
  }

  // ---------- looking up after a replacement ----------

  lemma {:induction false} SubSplit(t: Tree, p: Path, r: Path)
    ensures Sub(t, p + r) == if Sub(t, p).Some? then Sub(Sub(t, p).value, r) else None
  {
    if p == [] {
      assert p + r == r;
    } else if t.Split? {
      SubSplit(if p[0] then t.right else t.left, p[1..], r);
      assert (p + r)[1..] == p[1..] + r;
    }
  }

  /** Below the replaced block one sees the new block, above it a split, elsewhere no change. */
  lemma {:induction false} SubOfPut(t: Tree, p: Path, s: Tree, q: Path)
    requires Sub(t, p).Some?
    ensures p <= q ==> Sub(Put(t, p, s), q) == Sub(s, q[|p|..])
    ensures q < p ==> Sub(Put(t, p, s), q).Some? && Sub(Put(t, p, s), q).value.Split?
    ensures q < p ==> Sub(t, q).Some? && Sub(t, q).value.Split?
    ensures !(p <= q) && !(q <= p) ==> Sub(Put(t, p, s), q) == Sub(t, q)
  {
    if p == [] {
      assert q[0..] == q;
    } else if q != [] && p[0] == q[0] {
      SubOfPut(if p[0] then t.right else t.left, p[1..], s, q[1..]);
      assert p == [p[0]] + p[1..] && q == [q[0]] + q[1..];
      assert p <= q ==> q[1..][|p| - 1..] == q[|p|..];
      assert p <= q <==> p[1..] <= q[1..];
    } else if q != [] {
      assert !(p <= q) && !(q <= p);
    }
  }

  lemma {:induction false} PutPut(t: Tree, p: Path, a: Tree, r: Path, b: Tree)
    requires Sub(t, p).Some? && Sub(a, r).Some?
    ensures Sub(Put(t, p, a), p + r).Some?
    ensures Put(Put(t, p, a), p + r, b) == Put(t, p, Put(a, r, b))
  {
    if p == [] {
      assert p + r == r;
    } else {
      assert (p + r)[1..] == p[1..] + r;
      PutPut(if p[0] then t.right else t.left, p[1..], a, r, b);
    }
  }

  lemma {:induction false} PutSame(t: Tree, p: Path, s: Tree)
    requires Sub(t, p) == Some(s)
    ensures Put(t, p, s) == t
  {
    if p != [] {
      PutSame(if p[0] then t.right else t.left, p[1..], s);
    }
  }

  // ---------- canonical trees ----------

  /** Replacing keeps a tree canonical if the new block does not face a free buddy being free. */
  lemma {:induction false} CanonicalPut(t: Tree, p: Path, s: Tree)
    requires Canonical(t) && Canonical(s) && Sub(t, p).Some?
    requires s == Free && p != [] ==> Sub(t, Buddy(p)) != Some(Free)
    ensures Canonical(Put(t, p, s))
  {
    if |p| == 1 {
      assert Buddy(p) == [!p[0]] && p[1..] == [] && Buddy(p)[1..] == [];
    } else if p != [] {
      assert Buddy(p)[0] == p[0] && Buddy(p)[1..] == Buddy(p[1..]);
      CanonicalPut(if p[0] then t.right else t.left, p[1..], s);
      PutNotFree(if p[0] then t.right else t.left, p[1..], s);
    }
  }

  lemma PutNotFree(t: Tree, p: Path, s: Tree)
    requires Sub(t, p).Some? && p != []
    ensures Put(t, p, s).Split?
  {
  }

  /** A canonical tree without a used block is one free block. */
  lemma {:induction false} UnusedIsFree(t: Tree)
    requires Canonical(t) && forall p :: Sub(t, p).Some? ==> !Sub(t, p).value.Used?
    ensures t == Free
  {
    assert Sub(t, []) == Some(t);
    if t.Split? {
      forall p | Sub(t.left, p).Some? ensures !Sub(t.left, p).value.Used? {
        assert Sub(t, [false] + p) == Sub(t.left, p);
      }
      forall p | Sub(t.right, p).Some? ensures !Sub(t.right, p).value.Used? {
        assert Sub(t, [true] + p) == Sub(t.right, p);
      }
      UnusedIsFree(t.left);
      UnusedIsFree(t.right);
    }
  }

  ghost predicate SameUsed(t: Tree, u: Tree) {
    forall p, n, b :: Sub(t, p) == Some(Used(n, b)) <==> Sub(u, p) == Some(Used(n, b))
  }

  /** The used blocks alone determine the whole shape of a canonical tree. */
  lemma {:induction false} ShapeIsUnique(t: Tree, u: Tree)
    requires Canonical(t) && Canonical(u) && SameUsed(t, u)
    ensures t == u
  {
    assert Sub(t, []) == Some(t) && Sub(u, []) == Some(u);
    if t.Split? && u.Split? {
      SameUsedBelow(t, u);
      ShapeIsUnique(t.left, u.left);
      ShapeIsUnique(t.right, u.right);
    } else if t == Free {
      NoUsedInFree(u);
    } else if u == Free {
      NoUsedInFree(t);
    }
  }

  lemma SameUsedBelow(t: Tree, u: Tree)
    requires t.Split? && u.Split? && SameUsed(t, u)
    ensures SameUsed(t.left, u.left) && SameUsed(t.right, u.right)
  {
    forall p, n, b ensures Sub(t.left, p) == Some(Used(n, b)) <==> Sub(u.left, p) == Some(Used(n, b)) {
      assert Sub(t, [false] + p) == Sub(t.left, p) && Sub(u, [false] + p) == Sub(u.left, p);
    }
    forall p, n, b ensures Sub(t.right, p) == Some(Used(n, b)) <==> Sub(u.right, p) == Some(Used(n, b)) {
      assert Sub(t, [true] + p) == Sub(t.right, p) && Sub(u, [true] + p) == Sub(u.right, p);
    }
  }

  lemma NoUsedInFree(u: Tree)
    requires Canonical(u) && SameUsed(Free, u)
    ensures u == Free
  {
    forall p | Sub(u, p).Some? ensures !Sub(u, p).value.Used? {
      assert Sub(Free, p) == if p == [] then Some(Free) else None;
    }
    UnusedIsFree(u);
  }

  // ---------- the blocks tile memory ----------

  /** Every path at least as long as the tree is high runs through exactly one leaf. */
  lemma {:induction false} Tiling(t: Tree, q: Path) returns (n: nat)
    requires |q| >= Height(t)
    ensures n <= |q| && Sub(t, q[..n]).Some? && !Sub(t, q[..n]).value.Split?
    ensures forall m :: 0 <= m <= |q| && m != n ==> Sub(t, q[..m]) == None || Sub(t, q[..m]).value.Split?
  {
    if t.Split? {
      var c := if q[0] then t.right else t.left;
      var k := Tiling(c, q[1..]);
      n := k + 1;
      assert q[..n][1..] == q[1..][..k];
      forall m | 0 <= m <= |q| && m != n ensures Sub(t, q[..m]) == None || Sub(t, q[..m]).value.Split? {
        if m > 0 {
          assert q[..m][1..] == q[1..][..m - 1];
        }
      }
    } else {
      n := 0;
    }
  }

  function Pow2(n: nat): (r: nat)
    ensures r > 0
  {
    if n == 0 then 1 else 2 * Pow2(n - 1)
  }

  /** The address of the block at `p` in a memory of 2^u bytes. */
  function Offset(p: Path, u: nat): nat
    requires |p| <= u
  {
    if p == [] then 0 else (if p[0] then Pow2(u - 1) else 0) + Offset(p[1..], u - 1)
  }

  /** Every block lies in memory and is aligned to its own size. */
  lemma {:induction false} Aligned(p: Path, u: nat) returns (k: nat)
    requires |p| <= u
    ensures Offset(p, u) == k * Pow2(u - |p|) && Offset(p, u) + Pow2(u - |p|) <= Pow2(u)
  {
    if p == [] {
      k := 0;
    } else {
      var j := Aligned(p[1..], u - 1);
      k := if p[0] then Pow2(|p| - 1) + j else j;
      PowSum(|p| - 1, u - |p|);
      if p[0] {
        assert (Pow2(|p| - 1) + j) * Pow2(u - |p|) == Pow2(|p| - 1) * Pow2(u - |p|) + j * Pow2(u - |p|);
      }
    }
  }

  lemma DoubleProduct(x: nat, y: nat)
    ensures 2 * x * y == 2 * (x * y)
  {
  }

  lemma {:induction false} PowSum(a: nat, b: nat)
    ensures Pow2(a) * Pow2(b) == Pow2(a + b)
  {
    if a > 0 {
      PowSum(a - 1, b);
      DoubleProduct(Pow2(a - 1), Pow2(b));
    }
  }

  lemma InMemory(p: Path, u: nat)
    requires |p| <= u
    ensures Offset(p, u) + Pow2(u - |p|) <= Pow2(u)
  {
    var k := Aligned(p, u);
  }

  /** Blocks neither of which contains the other do not overlap. */
  lemma {:induction false} Apart(p: Path, q: Path, u: nat)
    requires |p| <= u && |q| <= u && !(p <= q) && !(q <= p)
    ensures Offset(p, u) + Pow2(u - |p|) <= Offset(q, u) || Offset(q, u) + Pow2(u - |q|) <= Offset(p, u)
  {
    if p[0] == q[0] {
      assert p == [p[0]] + p[1..] && q == [q[0]] + q[1..];
      Apart(p[1..], q[1..], u - 1);
    } else {
      InMemory(p[1..], u - 1);
      InMemory(q[1..], u - 1);
    }
  }

  /** The path of full length that leads to byte address `a`. */
  function PathTo(a: nat, u: nat): (p: Path)
    requires a < Pow2(u)
    ensures |p| == u
  {
    if u == 0 then []
    else if a < Pow2(u - 1) then [false] + PathTo(a, u - 1)
    else [true] + PathTo(a - Pow2(u - 1), u - 1)
  }

  /** Addresses and paths of full length are the same thing. */
  lemma {:induction false} AddressIsPath(a: nat, p: Path, u: nat)
    requires a < Pow2(u) && |p| == u
    ensures Offset(p, u) == a <==> p == PathTo(a, u)
  {
    if u > 0 {
      var right := a >= Pow2(u - 1);
      var b := if right then a - Pow2(u - 1) else a;
      AddressIsPath(b, p[1..], u - 1);
      InMemory(p[1..], u - 1);
      assert p == [p[0]] + p[1..] && PathTo(a, u) == [right] + PathTo(b, u - 1);
      assert p == PathTo(a, u) <==> p[0] == right && p[1..] == PathTo(b, u - 1);
    }
  }

  lemma PrefixOfCons(p: Path, x: bool, q: Path)
    requires p != []
    ensures p <= [x] + q <==> p[0] == x && p[1..] <= q
  {
    assert p == [p[0]] + p[1..] && ([x] + q)[1..] == q;
  }

  predicate Holds(p: Path, a: nat, u: nat)
    requires |p| <= u
  {
    Offset(p, u) <= a < Offset(p, u) + Pow2(u - |p|)
  }

  /** A block holds the addresses whose paths run through it. */
  lemma {:induction false} HoldsIffPrefix(p: Path, a: nat, u: nat)
    requires |p| <= u && a < Pow2(u)
    ensures Holds(p, a, u) <==> p <= PathTo(a, u)
  {
    if p != [] {
      var right := a >= Pow2(u - 1);
      var b := if right then a - Pow2(u - 1) else a;
      HoldsIffPrefix(p[1..], b, u - 1);
      InMemory(p[1..], u - 1);
      assert p == [p[0]] + p[1..];
      PrefixOfCons(p, right, PathTo(b, u - 1));
      hide Pow2;
    }
  }

  predicate IsLeaf(t: Tree, p: Path) {
    Sub(t, p).Some? && !Sub(t, p).value.Split?
  }

  /** Each byte of memory lies in exactly one leaf. */
  lemma BytesTiled(t: Tree, a: nat, u: nat) returns (p: Path)
    requires Height(t) <= u && a < Pow2(u)
    ensures |p| <= u && IsLeaf(t, p) && Holds(p, a, u)
    ensures forall q :: IsLeaf(t, q) && |q| <= u && Holds(q, a, u) ==> q == p
  {
    var path := PathTo(a, u);
    var n := Tiling(t, path);
    p := path[..n];
    HoldsIffPrefix(p, a, u);
    forall q | IsLeaf(t, q) && |q| <= u && Holds(q, a, u) ensures q == p {
      HoldsIffPrefix(q, a, u);
      assert q == path[..|q|];
    }
  }
}
