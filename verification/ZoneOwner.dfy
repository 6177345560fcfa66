/** Who owns which zone, and where a block of the file hangs in the zone tree. */
module ZoneOwner {
  import opened Words
  import opened ZoneTree

  // Integer division written as repeated subtraction, which keeps nonlinear terms out of the
  // proofs; DivisionAgrees ties it to `/` and `%`.
  function Quotient(a: nat, d: nat): nat
    requires d > 0
  {
    if a < d then 0 else 1 + Quotient(a - d, d)
  }

  function Remainder(a: nat, d: nat): (r: nat)
    requires d > 0
    ensures r < d
  {
    if a < d then a else Remainder(a - d, d)
  }

  lemma {:induction false} QuotientRemainder(a: nat, d: nat)
    requires d > 0
    ensures a == d * Quotient(a, d) + Remainder(a, d)
  {
    if a >= d {
      QuotientRemainder(a - d, d);
    }
  }

  lemma {:induction false} ProductStep(d: nat, x: nat, y: nat)
    requires x < y
    ensures d * x + d <= d * y
  {
    if x + 1 < y {
      ProductStep(d, x, y - 1);
    }
  }

  lemma DivisionAgrees(a: nat, d: nat)
    requires d > 0
    ensures Quotient(a, d) == a / d && Remainder(a, d) == a % d
  {
    QuotientRemainder(a, d);
    var q := Quotient(a, d);
    if q < a / d {
      ProductStep(d, q, a / d);
    } else if q > a / d {
      ProductStep(d, a / d, q);
    }
  }

  lemma QuotientBelow(e: nat, d: nat)
    requires d > 0
    ensures Quotient(e, d) < d <==> e < d * d
  {
    QuotientRemainder(e, d);
    if Quotient(e, d) < d {
      ProductStep(d, Quotient(e, d), d);
    } else if d < Quotient(e, d) {
      ProductStep(d, d, Quotient(e, d));
    }
  }

  /** The place that holds the zone of the file's block `n`. */
  function PlaceOf(n: nat): Place {
    if n < NR_DZONES then
      Slot(n)
    else if n - NR_DZONES < NR_INDIRECTS then
      Single(n - NR_DZONES)
    else
      var e := n - NR_DZONES - NR_INDIRECTS;
      Leaf(Quotient(e, NR_INDIRECTS), Remainder(e, NR_INDIRECTS))
  }

  /** The tree has room for block `n`. */
  predicate Mappable(n: nat) {
    InBounds(PlaceOf(n))
  }

  /** The tree maps the direct, the single indirect and the double indirect blocks. */
  lemma MappableIff(n: nat)
    ensures Mappable(n) <==> n < NR_DZONES + NR_INDIRECTS + NR_INDIRECTS * NR_INDIRECTS
  {
    if n >= NR_DZONES + NR_INDIRECTS {
      QuotientBelow(n - NR_DZONES - NR_INDIRECTS, NR_INDIRECTS);
    }
  }

  /** Every block has a place of its own. */
  lemma PlaceOfInjective(m: nat, n: nat)
    requires PlaceOf(m) == PlaceOf(n)
    ensures m == n
  {
    if m >= NR_DZONES + NR_INDIRECTS && n >= NR_DZONES + NR_INDIRECTS {
      QuotientRemainder(m - NR_DZONES - NR_INDIRECTS, NR_INDIRECTS);
      QuotientRemainder(n - NR_DZONES - NR_INDIRECTS, NR_INDIRECTS);
    }
  }

  /** The block of the file that byte `position` falls in, and its offset there. */
  function BlockOf(position: nat): nat {
    Quotient(position, BLOCK_SIZE)
  }

  function OffsetOf(position: nat): (o: nat)
    ensures o < BLOCK_SIZE
  {
    Remainder(position, BLOCK_SIZE)
  }

  // ---------- the layout on the disk, in plain arithmetic ----------

  /** Word `j` of block `z`, or NO_ZONE if there is no such block or word. */
  function WordIn(v: Volume, z: nat, j: nat): nat {
    if z != NO_ZONE && HasBlock(v, z) && 4 * j + 4 <= BLOCK_SIZE then Word(v.disk[z], j) else NO_ZONE
  }

  /** The zone of block `n`: one of the seven first words of the inode, a word of the block named by
      the eighth, or a word of a block named in the block named by the ninth. */
  function Fetch(v: Volume, n: nat): nat
    requires |v.area| == AREA_SIZE
  {
    var words := BLOCK_SIZE / 4;
    if n < 7 then Word(v.area, n)
    else if n - 7 < words then WordIn(v, Word(v.area, 7), n - 7)
    else
      var e := n - 7 - words;
      WordIn(v, WordIn(v, Word(v.area, 8), Over(e, words)), Rest(e, words))
  }

  lemma RefIsFetch(v: Volume, n: nat)
    requires |v.area| == AREA_SIZE
    ensures Ref(v, PlaceOf(n)) == Fetch(v, n)
  {
    if n >= NR_DZONES + NR_INDIRECTS {
      DivisionAgrees(n - NR_DZONES - NR_INDIRECTS, NR_INDIRECTS);
    }
    forall z: nat, j: nat ensures Entry(v, z, j) == WordIn(v, z, j) {
    }
  }

  function Over(a: nat, d: nat): nat
    requires d > 0
  {
    a / d
  }

  function Rest(a: nat, d: nat): nat
    requires d > 0
  {
    a % d
  }

  function BlockNumber(position: nat): nat {
    Over(position, BLOCK_SIZE)
  }

  function ByteNumber(position: nat): nat {
    Rest(position, BLOCK_SIZE)
  }

  lemma BlockIsQuotient(position: nat)
    ensures BlockOf(position) == BlockNumber(position) && OffsetOf(position) == ByteNumber(position)
  {
    DivisionAgrees(position, BLOCK_SIZE);
  }

  /** Only block `n` has another zone now, `z`. */
  ghost predicate FetchChanges(v: Volume, w: Volume, n: nat, z: nat)
    requires |v.area| == AREA_SIZE && |w.area| == AREA_SIZE
  {
    forall m: nat :: Fetch(w, m) == if m == n then z else Fetch(v, m)
  }

  lemma PlaceChangesFetch(v: Volume, w: Volume, n: nat, z: nat)
    requires |v.area| == AREA_SIZE && |w.area| == AREA_SIZE && Mappable(n) && Ref(w, PlaceOf(n)) == z
    requires forall p :: InBounds(p) && !IsIndex(p) && p != PlaceOf(n) ==> Ref(w, p) == Ref(v, p)
    ensures FetchChanges(v, w, n, z)
  {
    forall m: nat ensures Fetch(w, m) == if m == n then z else Fetch(v, m) {
      hide Fetch;
      RefIsFetch(v, m);
      RefIsFetch(w, m);
      if Mappable(m) && m != n {
        if PlaceOf(m) == PlaceOf(n) {
          PlaceOfInjective(m, n);
        }
        assert !IsIndex(PlaceOf(m));
      } else if m != n {
        NoPlace(v, m);
        NoPlace(w, m);
      }
    }
  }

  lemma NoPlace(v: Volume, m: nat)
    requires !Mappable(m)
    ensures Ref(v, PlaceOf(m)) == NO_ZONE
  {
  }

  predicate IsDataZone(z: nat) {
    FIRST_DATA_ZONE <= z < NR_ZONES
  }

  /** The data zones that are not in use, and how many there are. */
  ghost function FreeZones(inUse: set<nat>): set<nat> {
    set z: nat | FIRST_DATA_ZONE <= z < NR_ZONES && z !in inUse
  }

  ghost function Room(inUse: set<nat>): nat {
    |FreeZones(inUse)|
  }

  lemma TakeZone(inUse: set<nat>, z: nat)
    requires IsDataZone(z) && z !in inUse
    ensures Room(inUse + {z}) == Room(inUse) - 1
  {
    assert FreeZones(inUse + {z}) == FreeZones(inUse) - {z};
  }

  lemma NoRoom(inUse: set<nat>)
    requires forall z :: IsDataZone(z) ==> z in inUse
    ensures Room(inUse) == 0
  {
    assert FreeZones(inUse) == {};
  }

  lemma GiveBack(inUse: set<nat>, z: nat)
    ensures Room(inUse - {z}) <= Room(inUse) + 1
  {
    if IsDataZone(z) && z in inUse {
      assert FreeZones(inUse - {z}) == FreeZones(inUse) + {z};
    } else {
      assert FreeZones(inUse - {z}) == FreeZones(inUse);
    }
  }

  /** Block `n` is a hole, and there are not enough free zones to fill it. */
  ghost predicate OutOfRoom(v: Volume, inUse: set<nat>, n: nat) {
    Ref(v, PlaceOf(n)) == NO_ZONE && Room(inUse) < 1 + Lacking(v, n)
  }

  /** How many index blocks are missing on the way to block `n` of the file. */
  ghost function Lacking(v: Volume, n: nat): nat {
    if n < NR_DZONES then 0
    else if n - NR_DZONES < NR_INDIRECTS then Bit(Ref(v, Slot(NR_DZONES)) == NO_ZONE)
    else
      Bit(Ref(v, Slot(NR_DZONES + 1)) == NO_ZONE) +
      Bit(Mappable(n) && Ref(v, Container(PlaceOf(n))) == NO_ZONE)
  }

  function Bit(b: bool): nat {
    if b then 1 else 0
  }

  /** Every zone of the device has a block. */
  ghost predicate Formatted(v: Volume) {
    forall z :: IsDataZone(z) ==> HasBlock(v, z)
  }

  /** The allocated zones are exactly the zones of other files, the pending ones (allocated but
      not yet hung in the tree), and the zones this tree references, each from one place. */
  ghost predicate Owned(v: Volume, inUse: set<nat>, others: set<nat>, pending: set<nat>) {
    && Separate(v) && Formatted(v)
    && NO_ZONE !in inUse
    && others <= inUse && pending <= inUse && others !! pending
    && (forall z :: z in pending ==> IsDataZone(z))
    && (forall p :: InBounds(p) && Ref(v, p) != NO_ZONE ==>
          Ref(v, p) in inUse && Ref(v, p) !in others && Ref(v, p) !in pending)
    && (forall z :: z in inUse ==> z in others || z in pending || Referenced(v, z))
  }

  /** Same references everywhere except that `q` now holds `z`. */
  ghost predicate OnlyChanges(v: Volume, w: Volume, q: Place, z: nat) {
    forall p :: InBounds(p) ==> Ref(w, p) == if p == q then z else Ref(v, p)
  }

  ghost predicate SameRefs(v: Volume, w: Volume) {
    forall p :: InBounds(p) ==> Ref(w, p) == Ref(v, p)
  }

  /** Blocks of other files, and blocks holding data at the same place as before, keep their
      contents. */
  ghost predicate KeepsData(v: Volume, w: Volume, others: set<nat>) {
    && (forall z :: z in others && z in v.disk ==> z in w.disk && w.disk[z] == v.disk[z])
    && (forall p :: InBounds(p) && !IsIndex(p) && Ref(v, p) != NO_ZONE && Ref(w, p) == Ref(v, p) && Ref(v, p) in v.disk ==>
          Ref(v, p) in w.disk && w.disk[Ref(v, p)] == v.disk[Ref(v, p)])
  }

  lemma SetRefOnlyChanges(v: Volume, q: Place, z: nat)
    requires Separate(v) && Attachable(v, q, z)
    ensures OnlyChanges(v, SetRef(v, q, z), q, z)
  {
    forall p | InBounds(p) ensures Ref(SetRef(v, q, z), p) == if p == q then z else Ref(v, p) {
      SetRefAt(v, q, z, p);
    }
  }

  lemma SetRefKeepsData(v: Volume, q: Place, z: nat, others: set<nat>)
    requires Separate(v) && Writable(v, q)
    requires forall p :: InBounds(p) && Ref(v, p) != NO_ZONE ==> Ref(v, p) !in others
    ensures KeepsData(v, SetRef(v, q, z), others)
  {
    if !q.Slot? {
      var c := Container(q);
      assert InBounds(c) && Ref(v, c) !in others;
      forall p | InBounds(p) && !IsIndex(p) && Ref(v, p) != NO_ZONE ensures Ref(v, p) != Ref(v, c) {
        assert p != c;
      }
    }
  }

  /** Hanging a pending zone at an empty place keeps ownership. */
  lemma AttachOwned(v: Volume, q: Place, z: nat, inUse: set<nat>, others: set<nat>, pending: set<nat>)
    requires Owned(v, inUse, others, pending) && z in pending
    requires Ref(v, q) == NO_ZONE && Writable(v, q) && (IsIndex(q) ==> NoEntries(v, z))
    ensures Attachable(v, q, z)
    ensures Owned(SetRef(v, q, z), inUse, others, pending - {z})
    ensures OnlyChanges(v, SetRef(v, q, z), q, z)
  {
    SetRefOnlyChanges(v, q, z);
    OwnedAfterAttach(v, SetRef(v, q, z), q, z, inUse, others, pending);
  }

  lemma OwnedAfterAttach(v: Volume, w: Volume, q: Place, z: nat, inUse: set<nat>, others: set<nat>, pending: set<nat>)
    requires Owned(v, inUse, others, pending) && z in pending
    requires InBounds(q) && Ref(v, q) == NO_ZONE && OnlyChanges(v, w, q, z)
    requires |w.area| == AREA_SIZE && forall y :: HasBlock(v, y) ==> HasBlock(w, y)
    ensures Owned(w, inUse, others, pending - {z})
  {
    ReferencedAfter(v, w, q, z);
    forall y | y in inUse && y !in others && y !in pending - {z} ensures Referenced(w, y) {
      if y != z {
        assert Referenced(v, y);
      }
    }
  }

  /** Storing a pending zone over another one leaves that other one pending: in use, but referenced
      from nowhere. */
  lemma ReplaceOwned(v: Volume, q: Place, z: nat, inUse: set<nat>, others: set<nat>, pending: set<nat>)
    requires Owned(v, inUse, others, pending) && z in pending
    requires Ref(v, q) != NO_ZONE && Writable(v, q) && !IsIndex(q)
    ensures Owned(SetRef(v, q, z), inUse, others, pending - {z} + {Ref(v, q)})
    ensures OnlyChanges(v, SetRef(v, q, z), q, z)
  {
    SetRefOnlyChanges(v, q, z);
    OwnedAfterReplace(v, SetRef(v, q, z), q, z, inUse, others, pending);
  }

  lemma OwnedAfterReplace(v: Volume, w: Volume, q: Place, z: nat, inUse: set<nat>, others: set<nat>, pending: set<nat>)
    requires Owned(v, inUse, others, pending) && z in pending
    requires InBounds(q) && Ref(v, q) != NO_ZONE && OnlyChanges(v, w, q, z)
    requires |w.area| == AREA_SIZE && forall y :: HasBlock(v, y) ==> HasBlock(w, y)
    ensures Owned(w, inUse, others, pending - {z} + {Ref(v, q)})
  {
    hide Ref, HasBlock;
    ReferencedAfter(v, w, q, z);
    forall y | y in inUse && y !in others && y !in pending - {z} + {Ref(v, q)} ensures Referenced(w, y) {
      if y != z {
        assert Referenced(v, y);
      }
    }
  }

  lemma ReferencedAfter(v: Volume, w: Volume, q: Place, z: nat)
    requires OnlyChanges(v, w, q, z) && InBounds(q)
    ensures Referenced(w, z)
    ensures forall y :: Referenced(v, y) && y != Ref(v, q) ==> Referenced(w, y)
  {
    assert Ref(w, q) == z;
    forall y | Referenced(v, y) && y != Ref(v, q) ensures Referenced(w, y) {
      var p :| InBounds(p) && Ref(v, p) == y;
      assert Ref(w, p) == y;
    }
  }

  /** Clearing a childless place and freeing the zone it held keeps ownership. */
  lemma DetachOwned(v: Volume, q: Place, inUse: set<nat>, others: set<nat>, pending: set<nat>)
    requires Owned(v, inUse, others, pending)
    requires Ref(v, q) != NO_ZONE && Writable(v, q) && Childless(v, q)
    ensures Owned(SetRef(v, q, NO_ZONE), inUse - {Ref(v, q)}, others, pending)
    ensures OnlyChanges(v, SetRef(v, q, NO_ZONE), q, NO_ZONE)
  {
    var w := SetRef(v, q, NO_ZONE);
    SetRefOnlyChanges(v, q, NO_ZONE);
    assert forall y :: HasBlock(v, y) ==> HasBlock(w, y);
    ReferencedAfter(v, w, q, NO_ZONE);
  }

  /** Changing the contents of a data block, or of a block not in the tree, keeps ownership. */
  lemma OverwriteOwned(v: Volume, z: nat, b: seq<byte>, inUse: set<nat>, others: set<nat>, pending: set<nat>)
    requires Owned(v, inUse, others, pending) && |b| == BLOCK_SIZE && z != NO_ZONE
    requires forall c :: InBounds(c) && IsIndex(c) ==> Ref(v, c) != z
    ensures Owned(v.(disk := v.disk[z := b]), inUse, others, pending)
    ensures SameRefs(v, v.(disk := v.disk[z := b]))
  {
    var w := v.(disk := v.disk[z := b]);
    forall p | InBounds(p) ensures Ref(w, p) == Ref(v, p) {
      OverwriteAt(v, z, b, p);
    }
    forall y | Referenced(v, y) ensures Referenced(w, y) {
      var p :| InBounds(p) && Ref(v, p) == y;
      assert Ref(w, p) == y;
    }
    assert forall y :: HasBlock(v, y) ==> HasBlock(w, y);
  }

  lemma PendZone(v: Volume, z: nat, inUse: set<nat>, others: set<nat>, pending: set<nat>)
    requires Owned(v, inUse, others, pending) && z !in inUse && IsDataZone(z)
    ensures Owned(v, inUse + {z}, others, pending + {z})
  {
  }

  /** A freshly allocated zone, linked at `q` and zeroed, is an empty index block of the tree. */
  lemma FreshIndex(v: Volume, q: Place, z: nat, inUse: set<nat>, others: set<nat>, pending: set<nat>)
    returns (w: Volume)
    requires Owned(v, inUse, others, pending) && z !in inUse && IsDataZone(z)
    requires IsIndex(q) && Writable(v, q) && Ref(v, q) == NO_ZONE
    ensures w.area == SetRef(v, q, z).area
    ensures w.disk == SetRef(v, q, z).disk[z := Zeros(BLOCK_SIZE)]
    ensures Owned(w, inUse + {z}, others, pending)
    ensures OnlyChanges(v, w, q, z) && KeepsData(v, w, others)
  {
    var u := v.(disk := v.disk[z := Zeros(BLOCK_SIZE)]);
    assert forall p :: InBounds(p) ==> Ref(v, p) != z;
    OverwriteOwned(v, z, Zeros(BLOCK_SIZE), inUse, others, pending);
    PendZone(u, z, inUse, others, pending);
    assert q.Slot? || Ref(u, Container(q)) == Ref(v, Container(q)) != z;
    ZeroedEntries(u, z);
    w := SetRef(u, q, z);
    AttachOwned(u, q, z, inUse + {z}, others, pending + {z});
    assert pending + {z} - {z} == pending;
    SetRefKeepsData(u, q, z, others);
  }

  /** Two trees with the same references own the same zones. */
  lemma SameRefsSameZones(v: Volume, w: Volume, a: set<nat>, b: set<nat>, others: set<nat>, pending: set<nat>)
    requires Owned(v, a, others, pending) && Owned(w, b, others, {}) && SameRefs(v, w)
    ensures b == a - pending
  {
    forall z | z in b ensures z in a - pending {
      if z !in others {
        var p :| InBounds(p) && Ref(w, p) == z;
        assert Ref(v, p) == z;
      }
    }
    forall z | z in a - pending ensures z in b {
      if z !in others {
        var p :| InBounds(p) && Ref(v, p) == z;
        assert Ref(w, p) == z;
      }
    }
  }
}
