/** How many zones a run of blocks takes: one for each hole and one for each index block missing on
    the way to them. */
module ZoneNeeds {
  import opened Words
  import opened ZoneTree
  import opened ZoneOwner
  import opened FileBytes

  /** The place of block `n` of the file and the index blocks on the way to it. */
  function WayTo(n: nat): set<Place> {
    var q := PlaceOf(n);
    match q
    case Slot(_) => {q}
    case Leaf(_, _) => {q, Container(q), Slot(NR_DZONES + 1)}
    case _ => {q, Container(q)}
  }

  lemma WayToIs(n: nat, p: Place)
    ensures p in WayTo(n) <==> p == PlaceOf(n) || Ancestor(p, PlaceOf(n))
    ensures p in WayTo(n) && Mappable(n) ==> InBounds(p)
  {
  }

  /** The ways to the blocks from `a` up to but not including `b`. */
  function Ways(a: nat, b: nat): set<Place>
    decreases b - a
  {
    if a >= b then {} else WayTo(a) + Ways(a + 1, b)
  }

  ghost function Holes(v: Volume, s: set<Place>): set<Place> {
    set p | p in s && Ref(v, p) == NO_ZONE
  }

  /** The places on those ways that hold no zone: what a transfer over those blocks has to fill. */
  ghost function Needs(v: Volume, a: nat, b: nat): set<Place> {
    Holes(v, Ways(a, b))
  }

  lemma HolesAdd(v: Volume, s: set<Place>, p: Place)
    requires p !in s
    ensures |Holes(v, s + {p})| == |Holes(v, s)| + Bit(Ref(v, p) == NO_ZONE)
  {
    if Ref(v, p) == NO_ZONE {
      assert Holes(v, s + {p}) == Holes(v, s) + {p};
    } else {
      assert Holes(v, s + {p}) == Holes(v, s);
    }
  }

  lemma {:induction false} WaysInBounds(a: nat, b: nat, p: Place)
    requires p in Ways(a, b) && forall n :: a <= n < b ==> Mappable(n)
    ensures InBounds(p)
    decreases b - a
  {
    if p in WayTo(a) {
      WayToIs(a, p);
    } else {
      WaysInBounds(a + 1, b, p);
    }
  }

  lemma OneWay(n: nat)
    ensures Ways(n, n + 1) == WayTo(n)
  {
    assert Ways(n + 1, n + 1) == {};
  }

  /** One block needs nothing if it is mapped, and otherwise a zone and the index blocks it lacks. */
  lemma NeedsOfOne(v: Volume, n: nat)
    requires Mappable(n)
    ensures |Needs(v, n, n + 1)| == if Ref(v, PlaceOf(n)) == NO_ZONE then 1 + Lacking(v, n) else 0
  {
    NeedsBelow(v, n);
    OneWay(n);
    hide Ref, Quotient, Remainder, Ways, Holes;
    var q, d := PlaceOf(n), Slot(NR_DZONES + 1);
    NoHoles(v);
    HolesAdd(v, {}, q);
    assert {} + {q} == {q};
    if !q.Slot? {
      var c := Container(q);
      HolesAdd(v, {q}, c);
      assert {q} + {c} == {q, c};
      if q.Leaf? {
        HolesAdd(v, {q, c}, d);
        assert {q, c} + {d} == {q, c, d};
      }
    }
  }

  lemma NoHoles(v: Volume)
    ensures Holes(v, {}) == {}
  {
  }

  /** A mapped block lacks no index block. */
  lemma NeedsBelow(v: Volume, n: nat)
    ensures Ref(v, PlaceOf(n)) != NO_ZONE ==> forall p :: p in WayTo(n) ==> Ref(v, p) != NO_ZONE
  {
  }

  /** `w` is `v` with the way to block `n` filled where it held no zone. */
  ghost predicate Fills(v: Volume, w: Volume, n: nat) {
    forall p :: InBounds(p) ==>
      if p in WayTo(n) then Ref(w, p) != NO_ZONE && (Ref(v, p) != NO_ZONE ==> Ref(w, p) == Ref(v, p))
      else Ref(w, p) == Ref(v, p)
  }

  lemma FillsNothing(v: Volume, w: Volume, n: nat)
    requires Ref(v, PlaceOf(n)) != NO_ZONE && SameRefs(v, w)
    ensures Fills(v, w, n)
  {
    NeedsBelow(v, n);
  }

  lemma FillsThen(v: Volume, w: Volume, u: Volume, n: nat)
    requires Fills(v, w, n) && SameRefs(w, u)
    ensures Fills(v, u, n)
  {
  }

  /** With block `n` filled, the blocks after it need what they needed before, less what it took. */
  lemma FillStep(v: Volume, w: Volume, n: nat, a: nat, b: nat)
    requires Fills(v, w, n) && forall m :: a <= m < b ==> Mappable(m)
    ensures Needs(w, a, b) == Needs(v, a, b) - Needs(v, n, n + 1)
  {
    OneWay(n);
    forall p | p in Ways(a, b) ensures p in Needs(w, a, b) <==> p in Needs(v, a, b) - Needs(v, n, n + 1) {
      WaysInBounds(a, b, p);
    }
  }

  /** Zones were taken for block `n`, one for each place filled. */
  ghost predicate Paid(v: Volume, w: Volume, before: set<nat>, after: set<nat>, n: nat) {
    Fills(v, w, n) && Room(after) == Room(before) - |Needs(v, n, n + 1)|
  }

  /** What the zones in use and the needs of the blocks from `n` to `b` say about the start. */
  ghost predicate Balanced(v0: Volume, inUse0: set<nat>, a: nat, v: Volume, inUse: set<nat>, n: nat, b: nat) {
    Room(inUse) + |Needs(v0, a, b)| == Room(inUse0) + |Needs(v, n, b)|
  }

  lemma BalanceStep(v0: Volume, inUse0: set<nat>, a: nat, v: Volume, inUse: set<nat>, n: nat, b: nat, w: Volume, inUse1: set<nat>)
    requires Balanced(v0, inUse0, a, v, inUse, n, b) && Paid(v, w, inUse, inUse1, n)
    requires n < b && forall m :: n <= m < b ==> Mappable(m)
    ensures Balanced(v0, inUse0, a, w, inUse1, n + 1, b)
  {
    FillStep(v, w, n, n + 1, b);
    OneWay(n);
    assert Needs(v, n, b) == Needs(v, n, n + 1) + (Needs(v, n + 1, b) - Needs(v, n, n + 1));
  }

  /** A block that cannot be filled tells that there was too little room from the start. */
  lemma BalanceFails(v0: Volume, inUse0: set<nat>, a: nat, v: Volume, inUse: set<nat>, n: nat, b: nat)
    requires Balanced(v0, inUse0, a, v, inUse, n, b) && n < b && Mappable(n) && OutOfRoom(v, inUse, n)
    ensures Room(inUse0) < |Needs(v0, a, b)|
  {
    NeedsOfOne(v, n);
    OneWay(n);
    assert Needs(v, n, n + 1) <= Needs(v, n, b);
    SubsetSize(Needs(v, n, n + 1), Needs(v, n, b));
  }

  lemma {:induction false} SubsetSize(s: set<Place>, t: set<Place>)
    requires s <= t
    ensures |s| <= |t|
  {
    assert t == s + (t - s);
  }
}
