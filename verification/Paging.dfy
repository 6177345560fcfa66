/** Page replacement: LRU, FIFO, and any policy that evicts one page of its choice per fault. */
module Paging {

  type Page = nat

  // ---------- the policies, as functions of the request sequence ----------

  function Remove(l: seq<Page>, p: Page): seq<Page> {
    if l == [] then [] else if l[0] == p then l[1..] else [l[0]] + Remove(l[1..], p)
  }

  /** Room for one more page: the last page goes if all `k` frames are taken. */
  function MakeRoom(l: seq<Page>, k: nat): seq<Page> {
    if |l| == k && k > 0 then l[..k - 1] else l
  }

  function LruStep(l: seq<Page>, k: nat, p: Page): seq<Page> {
    if p in l then [p] + Remove(l, p) else [p] + MakeRoom(l, k)
  }

  function FifoStep(l: seq<Page>, k: nat, p: Page): seq<Page> {
    if p in l then l else [p] + MakeRoom(l, k)
  }

  datatype Kind = Lru | Fifo

  function StepOf(kind: Kind, l: seq<Page>, k: nat, p: Page): seq<Page> {
    match kind
    case Lru => LruStep(l, k, p)
    case Fifo => FifoStep(l, k, p)
  }

  /** The resident pages after a run: LRU keeps them latest used first, FIFO latest loaded first. */
  function Resident(kind: Kind, reqs: seq<Page>, k: nat): seq<Page> {
    if reqs == [] then []
    else StepOf(kind, Resident(kind, reqs[..|reqs| - 1], k), k, reqs[|reqs| - 1])
  }

  function Faults(kind: Kind, reqs: seq<Page>, k: nat): (f: nat)
    ensures f <= |reqs|
  {
    if reqs == [] then 0
    else
      var before := reqs[..|reqs| - 1];
      Faults(kind, before, k) + if reqs[|reqs| - 1] in Resident(kind, before, k) then 0 else 1
  }

  /** `sets` are the resident sets of some policy with `h` frames: nothing moves on a hit, and on a
      fault the page comes in and at most one page of the policy's choice goes out. */
  ghost predicate AnyPolicy(sets: seq<set<Page>>, reqs: seq<Page>, h: nat) {
    && |sets| == |reqs| + 1 && sets[0] == {}
    && (forall i :: 0 <= i < |reqs| ==> OneVictim(sets[i], sets[i + 1], reqs[i], h))
  }

  ghost predicate OneVictim(r: set<Page>, r': set<Page>, p: Page, h: nat) {
    if p in r then r' == r
    else |r'| <= h && exists v: Page :: r' == r - {v} + {p}
  }

  /** A policy that loads on demand: a page goes only if all `h` frames are taken, and then just one
      that was resident. */
  ghost predicate DemandPolicy(sets: seq<set<Page>>, reqs: seq<Page>, h: nat) {
    && |sets| == |reqs| + 1 && sets[0] == {}
    && (forall i :: 0 <= i < |reqs| ==> OnDemand(sets[i], sets[i + 1], reqs[i], h))
  }

  ghost predicate OnDemand(r: set<Page>, r': set<Page>, p: Page, h: nat) {
    if p in r then r' == r
    else if |r| < h then r' == r + {p}
    else |r| == h && exists v: Page :: v in r && r' == r - {v} + {p}
  }

  ghost function FaultsOf(sets: seq<set<Page>>, reqs: seq<Page>): nat
    requires |sets| == |reqs| + 1
  {
    if reqs == [] then 0
    else
      var n := |reqs| - 1;
      FaultsOf(sets[..n + 1], reqs[..n]) + if reqs[n] in sets[n] then 0 else 1
  }

  lemma DemandIsAny(sets: seq<set<Page>>, reqs: seq<Page>, h: nat)
    requires DemandPolicy(sets, reqs, h)
    ensures AnyPolicy(sets, reqs, h)
  {
    forall i | 0 <= i < |reqs| ensures OneVictim(sets[i], sets[i + 1], reqs[i], h) {
      var r, p := sets[i], reqs[i];
      assert OnDemand(r, sets[i + 1], p, h);
      if p !in r && |r| < h {
        assert sets[i + 1] == r - {p} + {p};
      }
    }
  }

  ghost function Pages(l: seq<Page>): set<Page> {
    set p | p in l
  }

  lemma {:induction false} PagesSize(l: seq<Page>)
    ensures |Pages(l)| <= |l|
  {
    if l != [] {
      PagesSize(l[1..]);
      assert Pages(l) == Pages(l[1..]) + {l[0]};
    }
  }

  lemma PagesGrow(l: seq<Page>, p: Page)
    ensures Pages(l + [p]) == Pages(l) + {p}
  {
  }

  /** While there are frames for all the pages requested, each of them faults exactly once. */
  lemma {:induction false} FewPages(sets: seq<set<Page>>, reqs: seq<Page>, h: nat)
    requires DemandPolicy(sets, reqs, h) && |Pages(reqs)| <= h
    ensures sets[|reqs|] == Pages(reqs) && FaultsOf(sets, reqs) == |Pages(reqs)|
  {
    if reqs == [] {
      assert Pages(reqs) == {};
    } else {
      var n := |reqs| - 1;
      var s, q, p := sets[..n + 1], reqs[..n], reqs[n];
      forall i | 0 <= i < n ensures OnDemand(s[i], s[i + 1], q[i], h) {
        assert OnDemand(sets[i], sets[i + 1], reqs[i], h);
      }
      assert reqs == q + [p];
      PagesGrow(q, p);
      if p !in Pages(q) {
        assert |Pages(reqs)| == |Pages(q)| + 1;
      } else {
        assert Pages(reqs) == Pages(q);
      }
      FewPages(s, q, h);
      assert OnDemand(sets[n], sets[n + 1], p, h) && sets[n] == Pages(q);
    }
  }

  // ---------- the list is a list of distinct pages that fits ----------

  predicate Distinct(l: seq<Page>) {
    forall i, j :: 0 <= i < j < |l| ==> l[i] != l[j]
  }

  lemma DistinctTail(l: seq<Page>)
    requires Distinct(l) && l != []
    ensures Distinct(l[1..]) && l[0] !in l[1..] && forall q :: q in l <==> q == l[0] || q in l[1..]
  {
    assert l == [l[0]] + l[1..];
    forall i | 0 <= i < |l[1..]| ensures l[1..][i] != l[0] {
      assert l[1..][i] == l[i + 1];
    }
  }

  lemma {:induction false} RemoveProps(l: seq<Page>, p: Page)
    requires Distinct(l)
    ensures Distinct(Remove(l, p)) && p !in Remove(l, p)
    ensures forall q :: q in Remove(l, p) <==> q in l && q != p
    ensures |Remove(l, p)| == if p in l then |l| - 1 else |l|
  {
    if l != [] {
      DistinctTail(l);
      if l[0] != p {
        RemoveProps(l[1..], p);
      }
    }
  }

  lemma StepProps(kind: Kind, l: seq<Page>, k: nat, p: Page)
    requires Distinct(l) && |l| <= k && k > 0
    ensures Distinct(StepOf(kind, l, k, p)) && |StepOf(kind, l, k, p)| <= k && p in StepOf(kind, l, k, p)
  {
    RemoveProps(l, p);
  }

  lemma {:induction false} ResidentProps(kind: Kind, reqs: seq<Page>, k: nat)
    requires k > 0
    ensures Distinct(Resident(kind, reqs, k)) && |Resident(kind, reqs, k)| <= k
  {
    if reqs != [] {
      var before := reqs[..|reqs| - 1];
      ResidentProps(kind, before, k);
      StepProps(kind, Resident(kind, before, k), k, reqs[|reqs| - 1]);
    }
  }

  // ---------- competitiveness ----------

  /** The potential: each resident page the other policy lacks weighs its distance from eviction. */
  function Weight(l: seq<Page>, r: set<Page>, w: nat): nat
    requires |l| <= w
  {
    if l == [] then 0 else (if l[0] in r then 0 else w) + Weight(l[1..], r, w - 1)
  }

  function Missing(l: seq<Page>, r: set<Page>): nat {
    if l == [] then 0 else (if l[0] in r then 0 else 1) + Missing(l[1..], r)
  }

  lemma {:induction false} WeightShrinks(l: seq<Page>, r: set<Page>, r': set<Page>, w: nat)
    requires |l| <= w && forall q :: q in l && q in r ==> q in r'
    ensures Weight(l, r', w) <= Weight(l, r, w)
  {
    if l != [] {
      WeightShrinks(l[1..], r, r', w - 1);
    }
  }

  /** The other policy's fault costs at most the weight of the one page it evicts. */
  lemma {:induction false} OtherServes(l: seq<Page>, r: set<Page>, p: Page, v: Page, w: nat)
    requires |l| <= w && Distinct(l)
    ensures Weight(l, r - {v} + {p}, w) <= Weight(l, r, w) + w
  {
    if l != [] {
      if l[0] == v {
        assert forall i :: 0 <= i < |l[1..]| ==> l[1..][i] == l[i + 1];
        WeightShrinks(l[1..], r, r - {v} + {p}, w - 1);
      } else {
        OtherServes(l[1..], r, p, v, w - 1);
      }
    }
  }

  lemma {:induction false} WeightOfRemove(l: seq<Page>, r: set<Page>, p: Page, w: nat)
    requires |l| <= w && p in l && p in r
    ensures |Remove(l, p)| <= w - 1 && Weight(Remove(l, p), r, w - 1) <= Weight(l, r, w)
  {
    if l[0] != p {
      WeightOfRemove(l[1..], r, p, w - 1);
      assert Remove(l, p)[1..] == Remove(l[1..], p);
    }
  }

  lemma {:induction false} WeightLighter(l: seq<Page>, r: set<Page>, w: nat)
    requires |l| < w
    ensures Weight(l, r, w - 1) <= Weight(l, r, w)
  {
    if l != [] {
      WeightLighter(l[1..], r, w - 1);
    }
  }

  /** Evicting the last page of a full list moves every page the other policy lacks one step. */
  lemma {:induction false} WeightOfEviction(l: seq<Page>, r: set<Page>)
    requires l != []
    ensures Weight(l[..|l| - 1], r, |l| - 1) + Missing(l, r) == Weight(l, r, |l|)
  {
    if |l| > 1 {
      WeightOfEviction(l[1..], r);
      assert l[..|l| - 1][1..] == l[1..][..|l| - 2];
    }
  }

  lemma {:induction false} MissingMany(l: seq<Page>, r: set<Page>)
    requires Distinct(l)
    ensures |l| - Missing(l, r) <= |r|
  {
    if l != [] {
      if l[0] in r {
        MissingSame(l[1..], r, l[0]);
        MissingMany(l[1..], r - {l[0]});
      } else {
        MissingMany(l[1..], r);
      }
    }
  }

  lemma {:induction false} MissingSame(l: seq<Page>, r: set<Page>, p: Page)
    requires p !in l
    ensures Missing(l, r - {p}) == Missing(l, r)
  {
    if l != [] {
      MissingSame(l[1..], r, p);
    }
  }

  /** Serving a page the other policy now holds: the list's fault is paid for by the potential, or
      by a frame filled for the first time. */
  lemma ListServes(kind: Kind, l: seq<Page>, r: set<Page>, p: Page, k: nat, h: nat)
    requires Distinct(l) && |l| <= k && 0 < h <= k && p in r && |r| <= h
    ensures |StepOf(kind, l, k, p)| <= k
    ensures var c, l' := k - h + 1, StepOf(kind, l, k, p);
            Weight(l', r, k) + (if p in l then 0 else c) <= Weight(l, r, k) + (if |l'| > |l| then c else 0)
    ensures |StepOf(kind, l, k, p)| - |l| == if p in l || |l| == k then 0 else 1
  {
    var l' := StepOf(kind, l, k, p);
    if p in l {
      RemoveProps(l, p);
      if kind == Lru {
        WeightOfRemove(l, r, p, k);
        assert l'[1..] == Remove(l, p);
      }
    } else if |l| == k {
      assert l'[1..] == l[..k - 1];
      WeightOfEviction(l, r);
      MissingSame(l, r, p);
      MissingMany(l, r - {p});
    } else {
      assert l'[1..] == l;
      WeightLighter(l, r, k);
    }
  }

  // Multiplication as repeated addition, which keeps nonlinear terms out of the proof.
  function Times(a: nat, b: nat): nat {
    if b == 0 then 0 else a + Times(a, b - 1)
  }

  lemma {:induction false} TimesIsProduct(a: nat, b: nat)
    ensures Times(a, b) == a * b
  {
    if b > 0 {
      TimesIsProduct(a, b - 1);
    }
  }

  lemma {:induction false} TimesMonotone(a: nat, b: nat, b': nat)
    requires b <= b'
    ensures Times(a, b) <= Times(a, b')
  {
    if b < b' {
      TimesMonotone(a, b, b' - 1);
    }
  }

  /** The list's faults `f`, each worth k-h+1, and the potential do not exceed k for each of the
      other policy's faults `g` and k-h+1 for each frame filled. */
  ghost predicate Bounded(l: seq<Page>, r: set<Page>, k: nat, h: nat, f: nat, g: nat)
    requires h <= k
  {
    |r| <= h && |l| <= k && Times(k - h + 1, f) + Weight(l, r, k) <= Times(k, g) + Times(k - h + 1, |l|)
  }

  lemma {:induction false} Potential(kind: Kind, reqs: seq<Page>, sets: seq<set<Page>>, k: nat, h: nat)
    requires 0 < h <= k && AnyPolicy(sets, reqs, h)
    ensures Bounded(Resident(kind, reqs, k), sets[|reqs|], k, h, Faults(kind, reqs, k), FaultsOf(sets, reqs))
  {
    hide *;
    if reqs == [] {
      PotentialStart(kind, reqs, sets, k, h);
    } else {
      var n := |reqs| - 1;
      PolicyPrefix(sets, reqs, h);
      Potential(kind, reqs[..n], sets[..n + 1], k, h);
      ResidentProps(kind, reqs[..n], k);
      Unroll(kind, reqs, sets, k);
      assert sets[..n + 1][n] == sets[n];
      PotentialStep(kind, Resident(kind, reqs[..n], k), sets[n], sets[n + 1], reqs[n], k, h,
                    Faults(kind, reqs[..n], k), FaultsOf(sets[..n + 1], reqs[..n]));
    }
  }

  lemma PotentialStart(kind: Kind, reqs: seq<Page>, sets: seq<set<Page>>, k: nat, h: nat)
    requires 0 < h <= k && AnyPolicy(sets, reqs, h) && reqs == []
    ensures Bounded(Resident(kind, reqs, k), sets[|reqs|], k, h, Faults(kind, reqs, k), FaultsOf(sets, reqs))
  {
    assert |sets[0]| == 0 && |Resident(kind, reqs, k)| == 0;
  }

  lemma Unroll(kind: Kind, reqs: seq<Page>, sets: seq<set<Page>>, k: nat)
    requires reqs != [] && |sets| == |reqs| + 1
    ensures var n, f, g := |reqs| - 1, Faults(kind, reqs[..|reqs| - 1], k), FaultsOf(sets[..|reqs|], reqs[..|reqs| - 1]);
            && Resident(kind, reqs, k) == StepOf(kind, Resident(kind, reqs[..n], k), k, reqs[n])
            && Faults(kind, reqs, k) == (if reqs[n] !in Resident(kind, reqs[..n], k) then f + 1 else f)
            && FaultsOf(sets, reqs) == if reqs[n] !in sets[n] then g + 1 else g
  {
  }

  lemma PolicyPrefix(sets: seq<set<Page>>, reqs: seq<Page>, h: nat)
    requires AnyPolicy(sets, reqs, h) && reqs != []
    ensures |sets| == |reqs| + 1
    ensures var n := |reqs| - 1;
            AnyPolicy(sets[..n + 1], reqs[..n], h) && OneVictim(sets[n], sets[n + 1], reqs[n], h)
  {
    var n := |reqs| - 1;
    forall i | 0 <= i < n ensures OneVictim(sets[..n + 1][i], sets[..n + 1][i + 1], reqs[..n][i], h) {
      assert OneVictim(sets[i], sets[i + 1], reqs[i], h);
    }
  }

  lemma PotentialStep(kind: Kind, l: seq<Page>, r: set<Page>, r': set<Page>, p: Page, k: nat, h: nat, f: nat, g: nat)
    requires Distinct(l) && 0 < h <= k && OneVictim(r, r', p, h) && Bounded(l, r, k, h, f, g)
    ensures Bounded(StepOf(kind, l, k, p), r', k, h, if p !in l then f + 1 else f, if p !in r then g + 1 else g)
  {
    hide *;
    OtherStep(l, r, r', p, k, h, f, g);
    ListServes(kind, l, r', p, k, h);
    BoundedStep(l, StepOf(kind, l, k, p), r, r', k, h, f, g, p !in l, p !in r);
  }

  lemma OtherStep(l: seq<Page>, r: set<Page>, r': set<Page>, p: Page, k: nat, h: nat, f: nat, g: nat)
    requires Distinct(l) && 0 < h <= k && OneVictim(r, r', p, h) && Bounded(l, r, k, h, f, g)
    ensures |l| <= k && |r'| <= h && p in r'
    ensures Weight(l, r', k) <= Weight(l, r, k) + if p in r then 0 else k
  {
    hide Times, Weight;
    if p !in r {
      var v: Page :| r' == r - {v} + {p};
      OtherServes(l, r, p, v, k);
    }
  }

  lemma BoundedStep(l: seq<Page>, l': seq<Page>, r: set<Page>, r': set<Page>, k: nat, h: nat, f: nat, g: nat, fault: bool, other: bool)
    requires 0 < h <= k && Bounded(l, r, k, h, f, g) && |l'| <= k && |r'| <= h
    requires Weight(l, r', k) <= Weight(l, r, k) + (if other then k else 0)
    requires |l'| == |l| || |l'| == |l| + 1
    requires Weight(l', r', k) + (if fault then k - h + 1 else 0) <= Weight(l, r', k) + (if |l'| > |l| then k - h + 1 else 0)
    ensures Bounded(l', r', k, h, if fault then f + 1 else f, if other then g + 1 else g)
  {
    hide Times, Weight;
    PotentialArithmetic(k - h + 1, k, f, g, |l|, |l'|, Weight(l, r, k), Weight(l, r', k), Weight(l', r', k), fault, other);
  }

  lemma PotentialArithmetic(c: nat, k: nat, f: nat, g: nat, n: nat, n': nat, w: nat, w1: nat, w2: nat, fault: bool, other: bool)
    requires Times(c, f) + w <= Times(k, g) + Times(c, n)
    requires w1 <= w + (if other then k else 0)
    requires n' == n || n' == n + 1
    requires w2 + (if fault then c else 0) <= w1 + (if n' > n then c else 0)
    ensures Times(c, if fault then f + 1 else f) + w2 <= Times(k, if other then g + 1 else g) + Times(c, n')
  {
    assert Times(c, f + 1) == c + Times(c, f);
    assert Times(k, g + 1) == k + Times(k, g);
    assert Times(c, n + 1) == c + Times(c, n);
  }

  /** Sleator and Tarjan's bound: with `k` frames, LRU and FIFO fault at most k/(k-h+1) times as
      often as any policy with `h <= k` frames, plus `k`; for equal frames, at most `k` times. */
  lemma Competitive(kind: Kind, reqs: seq<Page>, sets: seq<set<Page>>, k: nat, h: nat)
    requires 0 < h <= k && AnyPolicy(sets, reqs, h)
    ensures (k - h + 1) * Faults(kind, reqs, k) <= k * FaultsOf(sets, reqs) + (k - h + 1) * k
    ensures h == k ==> Faults(kind, reqs, k) <= k * FaultsOf(sets, reqs) + k
  {
    hide *;
    PolicyLength(sets, reqs, h);
    Potential(kind, reqs, sets, k, h);
    BoundedGives(Resident(kind, reqs, k), sets[|reqs|], k, h, Faults(kind, reqs, k), FaultsOf(sets, reqs));
  }

  lemma PolicyLength(sets: seq<set<Page>>, reqs: seq<Page>, h: nat)
    requires AnyPolicy(sets, reqs, h)
    ensures |sets| == |reqs| + 1
  {
  }

  lemma BoundedGives(l: seq<Page>, r: set<Page>, k: nat, h: nat, f: nat, g: nat)
    requires 0 < h <= k && Bounded(l, r, k, h, f, g)
    ensures (k - h + 1) * f <= k * g + (k - h + 1) * k
    ensures h == k ==> f <= k * g + k
  {
    hide Times, Weight;
    BoundAsProducts(k - h + 1, k, f, g, |l|);
  }

  lemma BoundAsProducts(c: nat, k: nat, f: nat, g: nat, n: nat)
    requires Times(c, f) <= Times(k, g) + Times(c, n) && n <= k
    ensures c * f <= k * g + c * k
    ensures c == 1 ==> f <= k * g + k
  {
    TimesMonotone(c, n, k);
    TimesIsProduct(c, f);
    TimesIsProduct(k, g);
    TimesIsProduct(c, k);
  }
}
