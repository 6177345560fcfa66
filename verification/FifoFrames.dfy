/** How FIFO's faults depend on the number of frames: when more frames can hurt, and by how much. */
module FifoFrames {
  import opened Paging

  // ---------- at least twice the frames, less one, never hurt ----------

  /** The pages loaded after `p`. */
  function Before(l: seq<Page>, p: Page): seq<Page> {
    if l == [] || l[0] == p then [] else [l[0]] + Before(l[1..], p)
  }

  lemma {:induction false} BeforeIsPrefix(l: seq<Page>, p: Page)
    requires p in l
    ensures |Before(l, p)| < |l| && Before(l, p) == l[..|Before(l, p)|] && p !in Before(l, p)
  {
    if l[0] != p {
      BeforeIsPrefix(l[1..], p);
      assert l == [l[0]] + l[1..];
    }
  }

  /** A page that is not the last one stays, and so do the pages ahead of it. */
  lemma {:induction false} BeforeCut(l: seq<Page>, m: nat, p: Page)
    requires p in l && |Before(l, p)| < m <= |l|
    ensures p in l[..m] && Before(l[..m], p) == Before(l, p)
  {
    if l[0] != p {
      var t := l[1..];
      assert l == [l[0]] + t && p in t;
      BeforeCut(t, m - 1, p);
      assert l[..m] == [l[0]] + t[..m - 1];
      assert l[..m][1..] == t[..m - 1];
    }
  }

  lemma {:induction false} MissingGrows(l: seq<Page>, r: set<Page>, r': set<Page>, y: Page)
    requires Distinct(l) && r - {y} <= r'
    ensures Missing(l, r') <= Missing(l, r) + if y in l then 1 else 0
  {
    if l != [] {
      DistinctTail(l);
      MissingGrows(l[1..], r, r', y);
    }
  }

  /** The small list `s` and the big list `b` of two FIFO runs over the same requests. Page `s[i]` is
      still in the big list, and at most `i` of the pages ahead of it there have left the small
      list, unless the page is in `credit`: loaded when only the small list lacked it. */
  ghost predicate Tracked(s: seq<Page>, b: seq<Page>, credit: set<Page>, i: nat)
    requires i < |s|
  {
    s[i] in credit || (s[i] in b && Missing(Before(b, s[i]), Pages(s)) <= i)
  }

  ghost predicate Covered(s: seq<Page>, b: seq<Page>, credit: set<Page>, h: nat, k: nat) {
    && Distinct(s) && Distinct(b) && |s| <= h && |b| <= k
    && forall i :: 0 <= i < |s| ==> Tracked(s, b, credit, i)
  }

  /** How far a tracked page can be from the front of the big list; `x` is not in that list. */
  lemma NotLast(s: seq<Page>, b: seq<Page>, i: nat, x: Page)
    requires Distinct(b) && i < |s| && s[i] in b && x !in b
    requires Missing(Before(b, s[i]), Pages(s)) <= i
    ensures |Before(b, s[i])| <= i + |s| - if x in s then 2 else 1
  {
    var p, r := s[i], Pages(s);
    var l := Before(b, p);
    BeforeIsPrefix(b, p);
    MissingSame(l, r, p);
    MissingSame(l, r - {p}, x);
    MissingMany(l, r - {p} - {x});
    PagesSize(s);
    assert p in r && (x in s ==> x in r - {p});
  }

  /** Loading `x` into the big list keeps track of page `s[i]`, which is far enough from its end. */
  lemma BigLoads(s: seq<Page>, b: seq<Page>, k: nat, i: nat, x: Page)
    requires Distinct(b) && |b| <= k && i < |s| && s[i] in b && x !in b
    requires |Before(b, s[i])| < k - 1
    ensures var b' := FifoStep(b, k, x); s[i] in b' && Before(b', s[i]) == [x] + Before(b, s[i])
  {
    var p, room := s[i], MakeRoom(b, k);
    BeforeIsPrefix(b, p);
    BeforeCut(b, |room|, p);
    assert room == b[..|room|];
    BeforeCons(x, room, p);
  }

  lemma BeforeCons(x: Page, l: seq<Page>, p: Page)
    requires p in l && x != p
    ensures p in [x] + l && Before([x] + l, p) == [x] + Before(l, p)
  {
    assert ([x] + l)[1..] == l;
  }

  /** Only the small list hits: its page pays for the fault with its credit. */
  lemma SmallHits(s: seq<Page>, b: seq<Page>, credit: set<Page>, h: nat, k: nat, x: Page)
    requires Covered(s, b, credit, h, k) && 0 < h && 2 * h - 1 <= k && x in s && x !in b
    ensures x in credit && Covered(s, FifoStep(b, k, x), credit - {x}, h, k)
  {
    var j :| 0 <= j < |s| && s[j] == x;
    assert Tracked(s, b, credit, j);
    StepProps(Fifo, b, k, x);
    var b' := FifoStep(b, k, x);
    forall i | 0 <= i < |s| ensures Tracked(s, b', credit - {x}, i) {
      assert Tracked(s, b, credit, i);
      if s[i] == x {
        assert Before(b', x) == [];
      } else if s[i] !in credit {
        NotLast(s, b, i, x);
        BigLoads(s, b, k, i, x);
        assert ([x] + Before(b, s[i]))[1..] == Before(b, s[i]);
      }
    }
  }

  /** A page that stays in the small list moves one place back, and one page may have left. */
  lemma SmallLoads(s: seq<Page>, h: nat, x: Page, l: seq<Page>)
    requires Distinct(s) && |s| <= h && 0 < h && x !in s && Distinct(l)
    ensures Missing(l, Pages(FifoStep(s, h, x))) <= Missing(l, Pages(s)) + 1
  {
    var s' := FifoStep(s, h, x);
    var y := if s == [] then x else s[|s| - 1];
    forall q | q in Pages(s) - {y} ensures q in Pages(s') {
      var j :| 0 <= j < |s| && s[j] == q;
      assert q in MakeRoom(s, h);
    }
    MissingGrows(l, Pages(s), Pages(s'), y);
  }

  lemma DistinctBefore(b: seq<Page>, p: Page)
    requires Distinct(b) && p in b
    ensures Distinct(Before(b, p))
  {
    BeforeIsPrefix(b, p);
  }

  /** Only the big list hits: the small one's fault is put to the credit of its page. */
  lemma BigHits(s: seq<Page>, b: seq<Page>, credit: set<Page>, h: nat, k: nat, x: Page)
    requires Covered(s, b, credit, h, k) && 0 < h <= k && x !in s && x in b
    ensures Covered(FifoStep(s, h, x), b, credit + {x}, h, k)
  {
    StepProps(Fifo, s, h, x);
    var s' := FifoStep(s, h, x);
    forall i | 0 <= i < |s'| ensures Tracked(s', b, credit + {x}, i) {
      if i > 0 {
        assert s'[i] == s[i - 1] && Tracked(s, b, credit, i - 1);
        if s'[i] !in credit {
          DistinctBefore(b, s'[i]);
          SmallLoads(s, h, x, Before(b, s'[i]));
        }
      }
    }
  }

  /** Both fault. */
  lemma BothMiss(s: seq<Page>, b: seq<Page>, credit: set<Page>, h: nat, k: nat, x: Page)
    requires Covered(s, b, credit, h, k) && 0 < h && 2 * h - 1 <= k && x !in s && x !in b
    ensures Covered(FifoStep(s, h, x), FifoStep(b, k, x), credit, h, k)
  {
    StepProps(Fifo, s, h, x);
    StepProps(Fifo, b, k, x);
    var s', b' := FifoStep(s, h, x), FifoStep(b, k, x);
    forall i | 0 <= i < |s'| ensures Tracked(s', b', credit, i) {
      if i == 0 {
        assert Before(b', x) == [];
      } else {
        assert s'[i] == s[i - 1] && Tracked(s, b, credit, i - 1);
        if s'[i] !in credit {
          NotLast(s, b, i - 1, x);
          BigLoads(s, b, k, i - 1, x);
          DistinctBefore(b, s'[i]);
          SmallLoads(s, h, x, Before(b, s'[i]));
          assert ([x] + Before(b, s'[i]))[1..] == Before(b, s'[i]) && x in Pages(s');
        }
      }
    }
  }

  /** After any requests, the big list's faults and the credit left are covered by the small list's. */
  lemma {:induction false} FaultsCovered(reqs: seq<Page>, h: nat, k: nat) returns (credit: set<Page>)
    requires 0 < h && 2 * h - 1 <= k
    ensures Covered(Resident(Fifo, reqs, h), Resident(Fifo, reqs, k), credit, h, k)
    ensures Faults(Fifo, reqs, k) + |credit| <= Faults(Fifo, reqs, h)
  {
    hide Covered;
    if reqs == [] {
      credit := {};
      NothingYet(h, k);
    } else {
      var n := |reqs| - 1;
      var x, before := reqs[n], reqs[..n];
      credit := FaultsCovered(before, h, k);
      var s, b := Resident(Fifo, before, h), Resident(Fifo, before, k);
      if x in s && x !in b {
        SmallHits(s, b, credit, h, k, x);
        credit := credit - {x};
      } else if x !in s && x in b {
        BigHits(s, b, credit, h, k, x);
        credit := credit + {x};
      } else if x !in s {
        BothMiss(s, b, credit, h, k, x);
      }
    }
  }

  lemma NothingYet(h: nat, k: nat)
    ensures Covered([], [], {}, h, k)
  {
  }

  // ---------- fewer than that can ----------

  /** The pages FIFO loads, in order. */
  function Loads(reqs: seq<Page>, k: nat): seq<Page> {
    if reqs == [] then []
    else
      var l := Loads(reqs[..|reqs| - 1], k);
      if reqs[|reqs| - 1] in Latest(l, k) then l else l + [reqs[|reqs| - 1]]
  }

  function Latest(l: seq<Page>, k: nat): seq<Page> {
    if |l| <= k then l else l[|l| - k..]
  }

  ghost predicate Mirrors(l: seq<Page>, m: seq<Page>) {
    |l| == |m| && forall i :: 0 <= i < |l| ==> l[i] == m[|l| - 1 - i]
  }

  lemma MirrorsPages(l: seq<Page>, m: seq<Page>, x: Page)
    requires Mirrors(l, m)
    ensures x in l <==> x in m
  {
    if x in m {
      var i :| 0 <= i < |m| && m[i] == x;
      assert l[|l| - 1 - i] == x;
    }
  }

  lemma MirrorsLoad(l: seq<Page>, loads: seq<Page>, k: nat, x: Page)
    requires Mirrors(l, Latest(loads, k)) && k > 0
    ensures Mirrors([x] + MakeRoom(l, k), Latest(loads + [x], k))
  {
    var l', m, m' := [x] + MakeRoom(l, k), Latest(loads, k), Latest(loads + [x], k);
    forall i | 0 <= i < |l'| ensures l'[i] == m'[|l'| - 1 - i] {
      if i > 0 {
        assert l'[i] == l[i - 1] == m[|l| - i];
      }
    }
  }

  /** FIFO holds the last `k` pages it loaded, latest first, and has faulted once for each load. */
  lemma {:induction false} FifoHoldsLatest(reqs: seq<Page>, k: nat)
    requires k > 0
    ensures Faults(Fifo, reqs, k) == |Loads(reqs, k)|
    ensures Mirrors(Resident(Fifo, reqs, k), Latest(Loads(reqs, k), k))
  {
    if reqs != [] {
      hide Mirrors, Latest;
      var x, before := reqs[|reqs| - 1], reqs[..|reqs| - 1];
      FifoHoldsLatest(before, k);
      MirrorsPages(Resident(Fifo, before, k), Latest(Loads(before, k), k), x);
      MirrorsLoad(Resident(Fifo, before, k), Loads(before, k), k, x);
    }
  }

  lemma {:induction false} AllHit(reqs: seq<Page>, more: seq<Page>, k: nat)
    requires forall x :: x in more ==> x in Latest(Loads(reqs, k), k)
    ensures Loads(reqs + more, k) == Loads(reqs, k)
  {
    if more == [] {
      assert reqs + more == reqs;
    } else {
      var n := |more| - 1;
      AllHit(reqs, more[..n], k);
      assert (reqs + more)[..|reqs + more| - 1] == reqs + more[..n];
    }
  }

  /** From index `n` on, no page repeats one of the `k` before it. */
  ghost predicate Fresh(l: seq<Page>, n: nat, k: nat) {
    forall i, j :: n <= i < |l| && 0 <= j < i && i - k <= j ==> l[j] != l[i]
  }

  lemma FreshMisses(l: seq<Page>, n: nat, k: nat)
    requires Fresh(l, n, k) && n < |l|
    ensures l[n] !in Latest(l[..n], k)
  {
    var m := Latest(l[..n], k);
    forall i | 0 <= i < |m| ensures m[i] != l[n] {
      assert m[i] == l[n - |m| + i];
    }
  }

  lemma OneMiss(reqs: seq<Page>, x: Page, k: nat)
    requires x !in Latest(Loads(reqs, k), k)
    ensures Loads(reqs + [x], k) == Loads(reqs, k) + [x]
  {
    assert (reqs + [x])[..|reqs|] == reqs;
  }

  lemma {:induction false} AllMiss(reqs: seq<Page>, more: seq<Page>, k: nat)
    requires Fresh(Loads(reqs, k) + more, |Loads(reqs, k)|, k)
    ensures Loads(reqs + more, k) == Loads(reqs, k) + more
    decreases |more|
  {
    hide Latest, Loads;
    var l := Loads(reqs, k);
    if more == [] {
      assert reqs + more == reqs && l + more == l;
    } else {
      var x := more[0];
      FreshMisses(l + more, |l|, k);
      assert (l + more)[..|l|] == l;
      OneMiss(reqs, x, k);
      assert more == [x] + more[1..];
      assert l + [x] + more[1..] == l + more && reqs + [x] + more[1..] == reqs + more;
      AllMiss(reqs + [x], more[1..], k);
    }
  }

  /** The pages from `a` up to but not including `b`. */
  function Up(a: nat, b: nat): (l: seq<Page>)
    requires a <= b
    ensures |l| == b - a && forall i :: 0 <= i < |l| ==> l[i] == a + i
  {
    seq(b - a, i => a + i)
  }

  /** Pages 1 to k, the first h-1 of them again, a new page, all of 1 to k again, the new page again.
      For three and four frames this is the sequence noted in fifo.cpp. */
  function Anomaly(h: nat, k: nat): seq<Page>
    requires 0 < h <= k
  {
    Up(1, k + 1) + Up(1, h) + [k + 1] + Up(1, k + 1) + [k + 1]
  }

  lemma NotedSequence()
    ensures Anomaly(3, 4) == [1, 2, 3, 4, 1, 2, 5, 1, 2, 3, 4, 5]
  {
  }

  /** What FIFO loads on that sequence with `h` frames and with `k`. */
  function SmallLog(h: nat, k: nat): (l: seq<Page>)
    requires 0 < h <= k
    ensures |l| == 2 * k + 1
  {
    seq(2 * k + 1, i requires 0 <= i < 2 * k + 1 =>
      if i < k then i + 1 else if i < k + h - 1 then i - k + 1 else if i == k + h - 1 then k + 1 else i - k)
  }

  function BigLog(k: nat): (l: seq<Page>)
    ensures |l| == 2 * k + 2
  {
    seq(2 * k + 2, i requires 0 <= i < 2 * k + 2 => if i <= k then i + 1 else i - k)
  }

  lemma AllMissFrom(reqs: seq<Page>, log: seq<Page>, n: nat, m: nat, k: nat)
    requires Fresh(log, 0, k) && n <= m <= |log| && Loads(reqs, k) == log[..n]
    ensures Loads(reqs + log[n..m], k) == log[..m]
  {
    hide Loads;
    assert log[..n] + log[n..m] == log[..m];
    assert Fresh(log[..m], n, k);
    AllMiss(reqs, log[n..m], k);
  }

  /** In either log a page comes back only after more loads than there are frames. */
  lemma LogsAreFresh(h: nat, k: nat)
    requires 0 < h < k
    ensures Fresh(SmallLog(h, k), 0, h) && Fresh(BigLog(k), 0, k)
  {
  }

  /** The first pages are still resident when they come again, and so is the new page at the end. */
  lemma SmallStillHolds(h: nat, k: nat)
    requires 0 < h < k < 2 * h - 1
    ensures forall x :: x in Up(1, h) ==> x in Latest(SmallLog(h, k)[..k + h], h)
    ensures k + 1 in Latest(SmallLog(h, k), h)
  {
    var l := SmallLog(h, k);
    var m := Latest(l[..k + h], h);
    forall x | x in Up(1, h) ensures x in m {
      assert m[x - 1] == l[k + x - 1] == x;
    }
    assert Latest(l, h)[2 * h - k - 2] == l[k + h - 1];
  }

  lemma SmallLoadsInAnomaly(h: nat, k: nat)
    requires 0 < h < k < 2 * h - 1
    ensures Loads(Anomaly(h, k), h) == SmallLog(h, k)
  {
    hide *;
    var l, b, z := SmallLog(h, k), Up(1, h), [k + 1];
    NoLoads(h);
    assert |l| == 2 * k + 1 && l[..0] == [] && l[..2 * k + 1] == l;
    LogsAreFresh(h, k);
    SmallStillHolds(h, k);
    AllMissFrom([], l, 0, k + h, h);
    AllHit([] + l[0..k + h], b, h);
    AllMissFrom([] + l[0..k + h] + b, l, k + h, 2 * k + 1, h);
    AllHit([] + l[0..k + h] + b + l[k + h..2 * k + 1], z, h);
    SmallRequests(h, k);
  }

  lemma NoLoads(k: nat)
    ensures Loads([], k) == []
  {
  }

  lemma SmallRequests(h: nat, k: nat)
    requires 0 < h < k < 2 * h - 1
    ensures var l := SmallLog(h, k);
            [] + l[0..k + h] + Up(1, h) + l[k + h..2 * k + 1] + [k + 1] == Anomaly(h, k)
  {
    var l := SmallLog(h, k);
    assert l[0..k + h] == Up(1, k + 1) + Up(1, h) + [k + 1];
    assert Up(1, h) + l[k + h..2 * k + 1] == Up(1, k + 1);
  }

  lemma BigLoadsInAnomaly(h: nat, k: nat)
    requires 0 < h < k
    ensures Loads(Anomaly(h, k), k) == BigLog(k)
  {
    hide *;
    var l, b := BigLog(k), Up(1, h);
    NoLoads(k);
    assert |l| == 2 * k + 2 && l[..0] == [] && l[..2 * k + 2] == l;
    LogsAreFresh(h, k);
    BigRequests(h, k);
    AllMissFrom([], l, 0, k, k);
    AllHit([] + l[0..k], b, k);
    AllMissFrom([] + l[0..k] + b, l, k, 2 * k + 2, k);
  }

  lemma BigRequests(h: nat, k: nat)
    requires 0 < h < k
    ensures var l := BigLog(k); [] + l[0..k] + Up(1, h) + l[k..2 * k + 2] == Anomaly(h, k)
    ensures forall x :: x in Up(1, h) ==> x in Latest(BigLog(k)[..k], k)
  {
    var l := BigLog(k);
    assert l[0..k] == Up(1, k + 1) && l[k..2 * k + 2] == [k + 1] + Up(1, k + 1) + [k + 1];
    forall x | x in Up(1, h) ensures x in Latest(l[..k], k) {
      assert l[..k][x - 1] == x;
    }
  }

  /** More frames never hurt FIFO, whatever is requested, if and only if there are no more at all or
      at least twice as many less one. */
  lemma FramesNeverHurtExactly(h: nat, k: nat)
    requires 0 < h <= k
    ensures (forall reqs :: Faults(Fifo, reqs, k) <= Faults(Fifo, reqs, h)) <==> k == h || k >= 2 * h - 1
  {
    if k >= 2 * h - 1 {
      forall reqs ensures Faults(Fifo, reqs, k) <= Faults(Fifo, reqs, h) {
        var credit := FaultsCovered(reqs, h, k);
      }
    } else if k > h {
      FifoAnomaly(h, k);
    }
  }

  /** In between, this sequence faults once more with `k` frames than with `h`. */
  lemma FifoAnomaly(h: nat, k: nat)
    requires 0 < h < k < 2 * h - 1
    ensures Faults(Fifo, Anomaly(h, k), h) == 2 * k + 1 && Faults(Fifo, Anomaly(h, k), k) == 2 * k + 2
  {
    SmallLoadsInAnomaly(h, k);
    BigLoadsInAnomaly(h, k);
    FifoHoldsLatest(Anomaly(h, k), h);
    FifoHoldsLatest(Anomaly(h, k), k);
  }

  // ---------- and never by much ----------

  /** FIFO's resident sets along a run. */
  ghost function FifoSets(reqs: seq<Page>, h: nat): (sets: seq<set<Page>>)
    ensures |sets| == |reqs| + 1
  {
    seq(|reqs| + 1, i requires 0 <= i <= |reqs| => Pages(Resident(Fifo, reqs[..i], h)))
  }

  lemma FifoOneVictim(l: seq<Page>, h: nat, p: Page)
    requires Distinct(l) && |l| <= h && h > 0
    ensures OneVictim(Pages(l), Pages(FifoStep(l, h, p)), p, h)
  {
    if p !in l {
      var v := if |l| == h then l[h - 1] else p;
      StepProps(Fifo, l, h, p);
      PagesSize(FifoStep(l, h, p));
      VictimGoes(l, h, p, v);
      hide Pages, FifoStep;
      assert Pages(FifoStep(l, h, p)) == Pages(l) - {v} + {p};
    }
  }

  lemma VictimGoes(l: seq<Page>, h: nat, p: Page, v: Page)
    requires Distinct(l) && |l| <= h && h > 0 && p !in l && v == if |l| == h then l[h - 1] else p
    ensures Pages(FifoStep(l, h, p)) == Pages(l) - {v} + {p}
  {
    var room := MakeRoom(l, h);
    forall q ensures q in room <==> q in l && q != v {
      if q in l {
        var i :| 0 <= i < |l| && l[i] == q;
        assert q != v ==> room[i] == q;
      }
    }
    hide MakeRoom;
  }

  /** FIFO is one of the policies the competitive bound speaks about. */
  lemma {:induction false} FifoIsAnyPolicy(reqs: seq<Page>, h: nat)
    requires h > 0
    ensures AnyPolicy(FifoSets(reqs, h), reqs, h) && FaultsOf(FifoSets(reqs, h), reqs) == Faults(Fifo, reqs, h)
  {
    var sets := FifoSets(reqs, h);
    forall i | 0 <= i < |reqs| ensures OneVictim(sets[i], sets[i + 1], reqs[i], h) {
      assert reqs[..i + 1][..i] == reqs[..i];
      ResidentProps(Fifo, reqs[..i], h);
      FifoOneVictim(Resident(Fifo, reqs[..i], h), h, reqs[i]);
    }
    if reqs == [] {
      assert reqs[..0] == reqs;
    } else {
      var n := |reqs| - 1;
      FifoIsAnyPolicy(reqs[..n], h);
      assert forall i :: 0 <= i <= n ==> reqs[..n][..i] == reqs[..i];
      assert sets[..n + 1] == FifoSets(reqs[..n], h);
    }
  }

  /** However the frames differ, more of them cost FIFO at most k/(k-h+1) times the faults, plus k. */
  lemma AnomalyBounded(reqs: seq<Page>, h: nat, k: nat)
    requires 0 < h <= k
    ensures (k - h + 1) * Faults(Fifo, reqs, k) <= k * Faults(Fifo, reqs, h) + (k - h + 1) * k
  {
    FifoIsAnyPolicy(reqs, h);
    Competitive(Fifo, reqs, FifoSets(reqs, h), k, h);
  }
}
