/** LRU keeps the most recently used pages, so more frames never hurt it. */
module LruStack {
  import opened Paging

  /** The requested pages without repetition, latest used first. */
  function Recency(reqs: seq<Page>): seq<Page> {
    if reqs == [] then []
    else [reqs[|reqs| - 1]] + Remove(Recency(reqs[..|reqs| - 1]), reqs[|reqs| - 1])
  }

  function Take(l: seq<Page>, k: nat): seq<Page> {
    if |l| <= k then l else l[..k]
  }

  /** One more than the index of the last request for `p`, or zero if there is none. */
  function LastUse(reqs: seq<Page>, p: Page): (u: nat)
    ensures u <= |reqs|
  {
    if reqs == [] then 0
    else if reqs[|reqs| - 1] == p then |reqs|
    else LastUse(reqs[..|reqs| - 1], p)
  }

  predicate LatestFirst(l: seq<Page>, reqs: seq<Page>) {
    forall i, j :: 0 <= i < j < |l| ==> LastUse(reqs, l[i]) > LastUse(reqs, l[j])
  }

  lemma {:induction false} RemoveOrder(l: seq<Page>, p: Page, reqs: seq<Page>)
    requires LatestFirst(l, reqs) && Distinct(l)
    ensures LatestFirst(Remove(l, p), reqs)
  {
    if l != [] {
      DistinctTail(l);
      if l[0] != p {
        RemoveOrder(l[1..], p, reqs);
        RemoveProps(l[1..], p);
        forall q | q in Remove(l[1..], p) ensures LastUse(reqs, l[0]) > LastUse(reqs, q) {
          var i :| 0 <= i < |l[1..]| && l[1..][i] == q;
          assert l[i + 1] == q;
        }
      }
    }
  }

  /** Recency lists exactly the requested pages, each once, by descending last use. */
  lemma {:induction false} RecencyMeaning(reqs: seq<Page>)
    ensures Distinct(Recency(reqs)) && LatestFirst(Recency(reqs), reqs)
    ensures forall p :: p in Recency(reqs) <==> LastUse(reqs, p) > 0
  {
    if reqs != [] {
      var n := |reqs| - 1;
      RecencyMeaning(reqs[..n]);
      RemoveProps(Recency(reqs[..n]), reqs[n]);
      RemoveOrder(Recency(reqs[..n]), reqs[n], reqs[..n]);
      UseFront(Remove(Recency(reqs[..n]), reqs[n]), reqs);
    }
  }

  /** Putting the page just used in front of the others keeps the order. */
  lemma UseFront(l: seq<Page>, reqs: seq<Page>)
    requires reqs != [] && LatestFirst(l, reqs[..|reqs| - 1]) && reqs[|reqs| - 1] !in l
    ensures LatestFirst([reqs[|reqs| - 1]] + l, reqs)
  {
    var p, before := reqs[|reqs| - 1], reqs[..|reqs| - 1];
    var m := [p] + l;
    forall i, j | 0 <= i < j < |m| ensures LastUse(reqs, m[i]) > LastUse(reqs, m[j]) {
      assert m[j] == l[j - 1] && LastUse(reqs, m[j]) == LastUse(before, l[j - 1]);
      if i > 0 {
        assert m[i] == l[i - 1] && LastUse(reqs, m[i]) == LastUse(before, l[i - 1]);
      }
    }
  }

  lemma TakeCons(x: Page, l: seq<Page>, k: nat)
    requires k > 0
    ensures Take([x] + l, k) == [x] + Take(l, k - 1)
  {
  }

  lemma {:induction false} RemoveTake(l: seq<Page>, p: Page, k: nat)
    requires Distinct(l) && k > 0
    ensures p in Take(l, k) ==> Remove(Take(l, k), p) == Take(Remove(l, p), k - 1)
    ensures p !in Take(l, k) ==> Take(Remove(l, p), k - 1) == Take(l, k - 1)
    ensures p !in l ==> Remove(l, p) == l
  {
    if l != [] {
      DistinctTail(l);
      var t, tk := l[1..], Take(l, k);
      assert tk[0] == l[0] && tk[1..] == Take(t, k - 1);
      assert p in tk <==> p == l[0] || p in tk[1..];
      if l[0] != p {
        if k > 1 {
          RemoveTake(t, p, k - 1);
          TakeCons(l[0], t, k - 1);
          TakeCons(l[0], Remove(t, p), k - 1);
          assert l == [l[0]] + t && Remove(l, p) == [l[0]] + Remove(t, p);
        } else {
          RemoveTake(t, p, 1);
          assert Take(t, 0) == [];
        }
      }
    }
  }

  /** With `k` frames LRU holds the `k` most recently used pages. */
  lemma {:induction false} LruHoldsRecent(reqs: seq<Page>, k: nat)
    requires k > 0
    ensures Resident(Lru, reqs, k) == Take(Recency(reqs), k)
  {
    if reqs != [] {
      var n := |reqs| - 1;
      LruHoldsRecent(reqs[..n], k);
      RecencyMeaning(reqs[..n]);
      StackStep(Recency(reqs[..n]), reqs[n], k);
    }
  }

  lemma StackStep(s: seq<Page>, p: Page, k: nat)
    requires Distinct(s) && k > 0
    ensures LruStep(Take(s, k), k, p) == Take([p] + Remove(s, p), k)
  {
    RemoveTake(s, p, k);
    assert Take([p] + Remove(s, p), k) == [p] + Take(Remove(s, p), k - 1);
    if p !in Take(s, k) && |s| < k {
      RemoveProps(s, p);
    }
  }

  /** The list with fewer frames is the beginning of the list with more. */
  lemma Inclusion(reqs: seq<Page>, k: nat, k': nat)
    requires 0 < k <= k'
    ensures Resident(Lru, reqs, k) <= Resident(Lru, reqs, k')
  {
    LruHoldsRecent(reqs, k);
    LruHoldsRecent(reqs, k');
  }

  /** Adding frames never adds LRU faults. */
  lemma {:induction false} MoreFramesNoMoreFaults(reqs: seq<Page>, k: nat, k': nat)
    requires 0 < k <= k'
    ensures Faults(Lru, reqs, k') <= Faults(Lru, reqs, k)
  {
    if reqs != [] {
      var n := |reqs| - 1;
      MoreFramesNoMoreFaults(reqs[..n], k, k');
      Inclusion(reqs[..n], k, k');
    }
  }
}
