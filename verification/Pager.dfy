/** The three page replacement programs as they run: a residency table that must agree with the
    list, the queue, or nothing but itself. */
module Pager {
  import opened Paging

  /** lru.cpp and fifo.cpp number pages from one. */
  function PagesOf(requests: seq<int>): (r: seq<Page>)
    requires forall i :: 0 <= i < |requests| ==> 1 <= requests[i]
    ensures |r| == |requests| && forall i :: 0 <= i < |r| ==> r[i] == requests[i] - 1
  {
    seq(|requests|, i requires 0 <= i < |requests| => requests[i] - 1)
  }

  ghost predicate Agrees(table: seq<int>, l: seq<Page>) {
    && (forall p: nat :: p < |table| ==> table[p] == if p in l then 1 else -1)
    && (forall p :: p in l ==> p < |table|)
  }

  lemma Extend(kind: Kind, reqs: seq<Page>, i: nat, k: nat)
    requires i < |reqs|
    ensures Resident(kind, reqs[..i + 1], k) == StepOf(kind, Resident(kind, reqs[..i], k), k, reqs[i])
    ensures Faults(kind, reqs[..i + 1], k) ==
            Faults(kind, reqs[..i], k) + if reqs[i] in Resident(kind, reqs[..i], k) then 0 else 1
  {
    assert reqs[..i + 1][..i] == reqs[..i];
  }

  /** What a fault does to table and list: the last page goes if the frames are full, the new one
      comes in front. */
  lemma FaultAgrees(table: seq<int>, l: seq<Page>, k: nat, p: Page, table': seq<int>)
    requires Agrees(table, l) && Distinct(l) && |l| <= k && k > 0 && p !in l && p < |table| == |table'|
    requires forall q: nat :: q < |table| ==>
      table'[q] == if q == p then 1 else if |l| == k && q == l[k - 1] then -1 else table[q]
    ensures Agrees(table', [p] + MakeRoom(l, k))
  {
    var m := MakeRoom(l, k);
    if |l| == k {
      assert l == m + [l[k - 1]];
      assert l[k - 1] !in m && forall q :: q in l <==> q in m || q == l[k - 1];
    }
    assert forall q :: q in [p] + m <==> q == p || q in m;
  }

  lemma TableSays(table: seq<int>, l: seq<Page>, p: Page)
    requires Agrees(table, l) && p < |table|
    ensures table[p] == -1 <==> p !in l
  {
  }

  /** The fault path of LRU and FIFO: evicts the last page if the frames are full and loads `page`. */
  method Load(pageTable: array<int>, list: seq<Page>, frames: nat, page: Page) returns (r: seq<Page>)
    requires Agrees(pageTable[..], list) && Distinct(list) && |list| <= frames && frames > 0
    requires page < pageTable.Length && page !in list
    modifies pageTable
    ensures r == [page] + MakeRoom(list, frames) && Agrees(pageTable[..], r)
  {
    ghost var table := pageTable[..];
    r := list;
    if |r| == frames {
      var victimPage := r[|r| - 1];
      assert victimPage in list;
      pageTable[victimPage] := -1;
      r := r[..|r| - 1];
    }
    r := [page] + r;
    pageTable[page] := 1;
    FaultAgrees(table, list, frames, page, pageTable[..]);
  }

  lemma TouchAgrees(table: seq<int>, l: seq<Page>, p: Page)
    requires Agrees(table, l) && Distinct(l) && p in l
    ensures Agrees(table, [p] + Remove(l, p))
  {
    RemoveProps(l, p);
  }

  method LRU(pages: nat, frames: nat, requests: seq<int>) returns (pageFaults: nat, hit: nat)
    requires frames > 0 && forall i :: 0 <= i < |requests| ==> 1 <= requests[i] <= pages
    ensures pageFaults == Faults(Lru, PagesOf(requests), frames) && pageFaults + hit == |requests|
  {
    var pageTable := new int[pages](_ => -1);
    var pageList: seq<Page> := [];
    ghost var reqs := PagesOf(requests);
    pageFaults, hit := 0, 0;
    var i := 0;
    assert reqs[..0] == [];
    while i < |requests|
      invariant 0 <= i <= |requests| && pageFaults + hit == i
      invariant pageList == Resident(Lru, reqs[..i], frames) && pageFaults == Faults(Lru, reqs[..i], frames)
      invariant Agrees(pageTable[..], pageList)
    {
      hide Resident, Faults, Agrees;
      var page := requests[i] - 1;
      assert reqs[i] == page;
      ResidentProps(Lru, reqs[..i], frames);
      Extend(Lru, reqs, i, frames);
      TableSays(pageTable[..], pageList, page);
      if pageTable[page] == -1 {
        pageFaults := pageFaults + 1;
        pageList := Load(pageTable, pageList, frames, page);
      } else {
        hit := hit + 1;
        TouchAgrees(pageTable[..], pageList, page);
        pageList := Remove(pageList, page);
        pageList := [page] + pageList;
      }
      i := i + 1;
    }
    assert reqs[..i] == reqs;
  }

  /** The queue is held latest page first, so its front is the last element. */
  method FIFO(pages: nat, frames: nat, requests: seq<int>) returns (pageFaults: nat, hit: nat)
    requires frames > 0 && forall i :: 0 <= i < |requests| ==> 1 <= requests[i] <= pages
    ensures pageFaults == Faults(Fifo, PagesOf(requests), frames) && pageFaults + hit == |requests|
  {
    var pageTable := new int[pages](_ => -1);
    var pageQueue: seq<Page> := [];
    ghost var reqs := PagesOf(requests);
    pageFaults, hit := 0, 0;
    var i := 0;
    assert reqs[..0] == [];
    while i < |requests|
      invariant 0 <= i <= |requests| && pageFaults + hit == i
      invariant pageQueue == Resident(Fifo, reqs[..i], frames) && pageFaults == Faults(Fifo, reqs[..i], frames)
      invariant Agrees(pageTable[..], pageQueue)
    {
      hide Resident, Faults, Agrees;
      var page := requests[i] - 1;
      assert reqs[i] == page;
      ResidentProps(Fifo, reqs[..i], frames);
      Extend(Fifo, reqs, i, frames);
      TableSays(pageTable[..], pageQueue, page);
      if pageTable[page] == -1 {
        pageFaults := pageFaults + 1;
        pageQueue := Load(pageTable, pageQueue, frames, page);
      } else {
        hit := hit + 1;
      }
      i := i + 1;
    }
    assert reqs[..i] == reqs;
  }

  /** The pages a table marks resident. */
  ghost function Marked(table: seq<int>): set<Page> {
    set p: Page | p < |table| && table[p] == 1
  }

  method CountOnes(table: array<int>) returns (c: nat)
    ensures c == |Marked(table[..])|
  {
    c := 0;
    var i := 0;
    assert Marked(table[..0]) == {};
    while i < table.Length
      invariant 0 <= i <= table.Length && c == |Marked(table[..i])|
    {
      if table[i] == 1 {
        assert Marked(table[..i + 1]) == Marked(table[..i]) + {i};
        c := c + 1;
      } else {
        assert Marked(table[..i + 1]) == Marked(table[..i]);
      }
      i := i + 1;
    }
    assert table[..i] == table[..];
  }

  /** Any resident page may be the victim; whichever is drawn, the run is one of DemandPolicy, and so
      one the competitive bound speaks about. */
  method Random(pages: nat, frames: nat, requests: seq<int>) returns (pageFaults: nat, hit: nat, ghost sets: seq<set<Page>>)
    requires frames > 0 && forall i :: 0 <= i < |requests| ==> 0 <= requests[i] < pages
    ensures DemandPolicy(sets, requests, frames) && AnyPolicy(sets, requests, frames)
    ensures pageFaults == FaultsOf(sets, requests) && pageFaults + hit == |requests|
    ensures |Pages(requests)| <= frames ==> pageFaults == |Pages(requests)|
  {
    hide DemandPolicy, FaultsOf, OnDemand;
    var pageTable := new int[pages](_ => -1);
    sets := [{}];
    pageFaults, hit := 0, 0;
    var i := 0;
    StartPolicy(requests[..0], frames);
    assert Marked(pageTable[..]) == {};
    while i < |requests|
      invariant 0 <= i <= |requests| && pageFaults + hit == i && |sets| == i + 1
      invariant forall p :: 0 <= p < pages ==> pageTable[p] == 1 || pageTable[p] == -1
      invariant DemandPolicy(sets, requests[..i], frames) && pageFaults == FaultsOf(sets, requests[..i])
      invariant sets[i] == Marked(pageTable[..]) && |sets[i]| <= frames
    {
      var page: Page := requests[i];
      if pageTable[page] == -1 {
        pageFaults := pageFaults + 1;
        LoadAny(pageTable, frames, page);
      } else {
        hit := hit + 1;
        SameOnHit(sets[i], page, frames);
      }
      ExtendPolicy(sets, requests, i, frames, Marked(pageTable[..]));
      sets := sets + [Marked(pageTable[..])];
      i := i + 1;
    }
    assert requests[..i] == requests;
    DemandIsAny(sets, requests, frames);
    if |Pages(requests)| <= frames {
      FewPages(sets, requests, frames);
    }
  }

  lemma SameOnHit(r: set<Page>, p: Page, h: nat)
    requires p in r
    ensures OnDemand(r, r, p, h)
  {
  }

  /** The fault path of Random: an arbitrary resident page goes if, and only if, the frames are full. */
  method LoadAny(pageTable: array<int>, frames: nat, page: Page)
    requires 0 < frames && |Marked(pageTable[..])| <= frames && page < pageTable.Length && pageTable[page] == -1
    requires forall p :: 0 <= p < pageTable.Length ==> pageTable[p] == 1 || pageTable[p] == -1
    modifies pageTable
    ensures OnDemand(old(Marked(pageTable[..])), Marked(pageTable[..]), page, frames)
    ensures |Marked(pageTable[..])| <= frames
    ensures forall p :: 0 <= p < pageTable.Length ==> pageTable[p] == 1 || pageTable[p] == -1
  {
    hide OnDemand, Marked;
    ghost var table := pageTable[..];
    ghost var v := page;
    var count := CountOnes(pageTable);
    if count == frames {
      SomeMarked(table);
      var victimPage :| 0 <= victimPage < pageTable.Length && pageTable[victimPage] == 1;
      pageTable[victimPage] := -1;
      v := victimPage;
    }
    pageTable[page] := 1;
    LoadMarks(table, pageTable[..], frames, page, v);
  }

  lemma SomeMarked(table: seq<int>)
    requires |Marked(table)| > 0
    ensures exists q :: 0 <= q < |table| && table[q] == 1
  {
    var q :| q in Marked(table);
  }

  /** Loading `p` after clearing `v`, a resident page if the frames are full and `p` itself otherwise. */
  lemma LoadMarks(table: seq<int>, table': seq<int>, h: nat, p: Page, v: Page)
    requires p < |table| == |table'| && table[p] == -1 && |Marked(table)| <= h && 0 < h
    requires if |Marked(table)| == h then v < |table| && table[v] == 1 else v == p
    requires forall q :: 0 <= q < |table| ==> table'[q] == if q == p then 1 else if q == v then -1 else table[q]
    ensures OnDemand(Marked(table), Marked(table'), p, h) && |Marked(table')| <= h
  {
    MarksAfter(table, table', p, v);
    assert p !in Marked(table) && (|Marked(table)| == h ==> v in Marked(table));
    hide Marked;
    Swap(Marked(table), h, p, v);
  }

  lemma MarksAfter(table: seq<int>, table': seq<int>, p: Page, v: Page)
    requires p < |table| == |table'|
    requires forall q :: 0 <= q < |table| ==> table'[q] == if q == p then 1 else if q == v then -1 else table[q]
    ensures Marked(table') == Marked(table) - {v} + {p}
  {
    forall q: Page ensures q in Marked(table') <==> q in Marked(table) - {v} + {p} {
      assert q < |table| ==> table'[q] == if q == p then 1 else if q == v then -1 else table[q];
    }
  }

  lemma Swap(r: set<Page>, h: nat, p: Page, v: Page)
    requires p !in r && |r| <= h && 0 < h && if |r| == h then v in r else v == p
    ensures OnDemand(r, r - {v} + {p}, p, h) && |r - {v} + {p}| <= h
  {
    if |r| < h {
      assert r - {v} == r;
    }
  }

  lemma StartPolicy(reqs: seq<Page>, h: nat)
    requires reqs == []
    ensures DemandPolicy([{}], reqs, h) && FaultsOf([{}], reqs) == 0
  {
  }

  lemma ExtendPolicy(sets: seq<set<Page>>, requests: seq<Page>, i: nat, h: nat, r': set<Page>)
    requires i < |requests| && DemandPolicy(sets, requests[..i], h) && |sets| == i + 1
    requires OnDemand(sets[i], r', requests[i], h)
    ensures DemandPolicy(sets + [r'], requests[..i + 1], h)
    ensures FaultsOf(sets + [r'], requests[..i + 1]) ==
            FaultsOf(sets, requests[..i]) + if requests[i] in sets[i] then 0 else 1
  {
    var s, q := sets + [r'], requests[..i + 1];
    assert q[..i] == requests[..i] && s[..i + 1] == sets;
    forall j | 0 <= j < |q| ensures OnDemand(s[j], s[j + 1], q[j], h) {
      if j < i {
        assert OnDemand(sets[j], sets[j + 1], requests[..i][j], h);
      }
    }
  }
}
