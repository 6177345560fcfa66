/** An inode of the MINIX file system with the lab's immediate files: mapping file positions to
    zones (write_map, read_map, new_block) and moving bytes (rw_chunk, fs_readwrite). */
module Mfs {
  import opened Words
  import opened ZoneTree
  import opened ZoneOwner
  import opened FileBytes
  import opened ZoneNeeds

  datatype Mode = Regular | Immediate

  const IMMEDIATE_MAX := 32

  datatype Op = Reading | Writing | Peeking

  datatype Status = OK | ENOSPC | EFBIG | EROFS

  /** `w` is `v` with zone `z` hung at `q`, and index blocks created on the way where missing. */
  ghost predicate Maps(v: Volume, w: Volume, q: Place, z: nat) {
    && Ref(w, q) == z
    && (forall p :: InBounds(p) && p != q && (!Ancestor(p, q) || Ref(v, p) != NO_ZONE) ==>
          Ref(w, p) == Ref(v, p))
    && (forall p :: Ancestor(p, q) ==> Ref(w, p) != NO_ZONE)
  }

  /** `w` is `v` except that an empty double indirect block may have been attached. */
  ghost predicate MapFailed(v: Volume, w: Volume) {
    forall p :: InBounds(p) && (p != Slot(NR_DZONES + 1) || Ref(v, p) != NO_ZONE) ==>
      Ref(w, p) == Ref(v, p)
  }

  /** `w` is `v` except that a double indirect block may have been linked without being zeroed. */
  ghost predicate StaleDouble(v: Volume, w: Volume) {
    var d := Slot(NR_DZONES + 1);
    if |v.area| == AREA_SIZE && Ref(v, d) == NO_ZONE then
      IsDataZone(Ref(w, d)) && w == SetRef(v, d, Ref(w, d))
    else
      w == v
  }

  /** The zone StaleDouble links was free before and is in use now. */
  ghost predicate StaleZone(v: Volume, w: Volume, before: set<nat>, after: set<nat>) {
    var d := Slot(NR_DZONES + 1);
    if Ref(v, d) == NO_ZONE then Ref(w, d) !in before && after == before + {Ref(w, d)} else after == before
  }

  /** What is left of a request for a block past the end of the tree. */
  ghost predicate Refused(v: Volume, w: Volume, before: set<nat>, after: set<nat>, n: nat) {
    !Mappable(n) && StaleDouble(v, w) && StaleZone(v, w, before, after)
  }

  /** `w` is `v` with `q` cleared and with the index blocks this leaves empty taken out. */
  ghost predicate Unmaps(v: Volume, w: Volume, q: Place) {
    && Ref(w, q) == NO_ZONE
    && (forall p :: InBounds(p) && p != q && !Ancestor(p, q) ==> Ref(w, p) == Ref(v, p))
    && (forall p :: Ancestor(p, q) && Ref(w, p) != NO_ZONE ==>
          Ref(w, p) == Ref(v, p) && !Childless(w, p))
  }

  /** `w` is `v` with `z` hung at `q` in the index block at `c`, which may be new. */
  ghost predicate MapsUnder(v: Volume, w: Volume, c: Place, q: Place, z: nat) {
    && Ref(w, q) == z && Ref(w, c) != NO_ZONE
    && (forall p :: InBounds(p) && p != q && (p != c || Ref(v, c) != NO_ZONE) ==> Ref(w, p) == Ref(v, p))
  }

  /** `w` is `v` with `q` cleared, and its own index block taken out if that left it empty. */
  ghost predicate UnmapsUnder(v: Volume, w: Volume, q: Place)
    requires !q.Slot?
  {
    && Ref(w, q) == NO_ZONE
    && (forall p :: InBounds(p) && p != q && p != Container(q) ==> Ref(w, p) == Ref(v, p))
    && (Ref(w, Container(q)) != NO_ZONE ==>
          Ref(w, Container(q)) == Ref(v, Container(q)) && !Childless(w, Container(q)))
  }

  /** What write_map without WMAP_FREE may do to the tree, by result. */
  ghost predicate MapOutcome(v: Volume, w: Volume, others: set<nat>, n: nat, z: nat, r: Status) {
    match r
    case OK => Mappable(n) && Maps(v, w, PlaceOf(n), z) && KeepsData(v, w, others)
    case ENOSPC => MapFailed(v, w) && KeepsData(v, w, others)
    case EFBIG => !Mappable(n) && StaleDouble(v, w)
    case EROFS => false
  }

  /** What write_map with WMAP_FREE does to the tree. */
  ghost predicate FreeOutcome(v: Volume, w: Volume, others: set<nat>, n: nat, r: Status) {
    if Mappable(n) then
      r == OK && Unmaps(v, w, PlaceOf(n)) && KeepsData(v, w, others)
    else
      r == EFBIG && w == v
  }

  /** Block `n` would be found through entry NR_INDIRECTS of the double indirect block, one past
      its end. */
  predicate PastDouble(n: nat) {
    n >= NR_DZONES + NR_INDIRECTS && Quotient(n - NR_DZONES - NR_INDIRECTS, NR_INDIRECTS) == NR_INDIRECTS
  }

  /** What write_map did, in terms of the layout. */
  lemma PlacedAt(v: Volume, w: Volume, others: set<nat>, position: nat, z: nat, free: bool, r: Status)
    requires |v.area| == |w.area| == AREA_SIZE && r == OK && (free ==> z == NO_ZONE)
    requires if free then FreeOutcome(v, w, others, BlockOf(position), r) else MapOutcome(v, w, others, BlockOf(position), z, r)
    ensures FetchChanges(v, w, BlockNumber(position), z)
  {
    hide Ref, KeepsData, Fetch, BlockNumber, ByteNumber, Quotient, Remainder;
    BlockIsQuotient(position);
    PlaceChangesFetch(v, w, BlockOf(position), z);
  }

  lemma KeepsDataStep(v: Volume, w: Volume, u: Volume, others: set<nat>)
    requires KeepsData(v, w, others) && KeepsData(w, u, others)
    requires forall p :: InBounds(p) && !IsIndex(p) && Ref(v, p) != NO_ZONE && Ref(u, p) == Ref(v, p) ==>
               Ref(w, p) == Ref(v, p)
    ensures KeepsData(v, u, others)
  {
  }

  lemma MapOutcomeStep(v: Volume, w: Volume, u: Volume, others: set<nat>, c: Place, q: Place, z: nat, r: Status)
    requires InBounds(c) && InBounds(q) && !q.Slot? && !IsIndex(q) && c == Container(q)
    requires MapFailed(v, w) && KeepsData(v, w, others) && KeepsData(w, u, others)
    requires q.Leaf? ==> Ref(w, Slot(NR_DZONES + 1)) != NO_ZONE
    requires r == OK ==> MapsUnder(w, u, c, q, z)
    requires r == OK ==> c.Slot? ==> SameRefs(v, w)
    requires r == ENOSPC ==> w == u
    ensures KeepsData(v, u, others)
    ensures r == ENOSPC ==> MapFailed(v, u)
    ensures r == OK ==> Maps(v, u, q, z)
  {
    KeepsDataStep(v, w, u, others);
  }

  lemma ChildlessSame(w: Volume, u: Volume, q: Place)
    requires InBounds(q) && IsIndex(q) && !Childless(w, q)
    requires forall j :: 0 <= j < NR_INDIRECTS ==> Ref(u, Child(q, j)) == Ref(w, Child(q, j))
    ensures !Childless(u, q)
  {
    var j :| 0 <= j < NR_INDIRECTS && Ref(w, Child(q, j)) != NO_ZONE;
    assert Ref(u, Child(q, j)) != NO_ZONE;
  }

  /** After the entry and its block, the double indirect block goes too if it is now empty. */
  lemma UnmapsStep(v: Volume, w: Volume, u: Volume, q: Place)
    requires InBounds(q) && !q.Slot? && !IsIndex(q) && UnmapsUnder(v, w, q)
    requires var d, c := Slot(NR_DZONES + 1), Container(q);
      if q.Leaf? && Ref(w, c) == NO_ZONE && Ref(w, d) != NO_ZONE then
        OnlyChanges(w, u, d, if Childless(w, d) then NO_ZONE else Ref(w, d))
      else
        u == w
    ensures Unmaps(v, u, q)
  {
    var d, c := Slot(NR_DZONES + 1), Container(q);
    assert SameRefs(w, u) || Ref(u, d) == NO_ZONE;
    if Ref(u, c) != NO_ZONE {
      ChildlessSame(w, u, c);
    }
    if q.Leaf? && Ref(u, d) != NO_ZONE {
      if Ref(w, c) != NO_ZONE {
        assert Ref(u, Child(d, q.i)) != NO_ZONE;
      } else {
        ChildlessSame(w, u, d);
      }
    }
  }

  /** The zones that leak when one is stored over `z`. */
  ghost function Leak(z: nat): set<nat> {
    if z == NO_ZONE then {} else {z}
  }

  lemma UnpendZone(v: Volume, z: nat, inUse: set<nat>, others: set<nat>)
    requires Owned(v, inUse, others, {z})
    ensures Owned(v, inUse - {z}, others, {})
  {
  }

  ghost predicate KeepsOthers(v: Volume, w: Volume, others: set<nat>) {
    forall z :: z in others && z in v.disk ==> z in w.disk && w.disk[z] == v.disk[z]
  }

  lemma FailedMapBytes(v: Volume, w: Volume, others: set<nat>)
    requires Separate(v) && Separate(w) && MapFailed(v, w) && KeepsData(v, w, others)
    ensures SameBytes(v, w)
  {
    forall n: nat, o: nat ensures ByteAt(w, n, o) == ByteAt(v, n, o) {
      if !Mappable(n) {
        NoPlace(v, n);
        NoPlace(w, n);
      }
    }
  }

  lemma MapBytes(v: Volume, w: Volume, others: set<nat>, n: nat, z: nat)
    requires Separate(v) && Separate(w) && KeepsData(v, w, others)
    requires Mappable(n) && Maps(v, w, PlaceOf(n), z)
    ensures forall m: nat, o: nat :: m != n ==> ByteAt(w, m, o) == ByteAt(v, m, o)
  {
    forall m: nat, o: nat | m != n ensures ByteAt(w, m, o) == ByteAt(v, m, o) {
      if !Mappable(m) {
        NoPlace(v, m);
        NoPlace(w, m);
      } else if PlaceOf(m) == PlaceOf(n) {
        PlaceOfInjective(m, n);
      }
    }
  }

  /** The three ways in which taking a zone `z` for block `n` of the file can end. */
  lemma FailedFresh(v: Volume, w: Volume, before: set<nat>, after: set<nat>, others: set<nat>, z: nat, n: nat)
    requires Owned(v, before, others, {}) && Owned(w, after, others, {z}) && MapFailed(v, w) && KeepsData(v, w, others)
    requires Ref(v, PlaceOf(n)) == NO_ZONE && Room(after) == 0 < Lacking(w, n)
    ensures SameBytes(v, w) && KeepsOthers(v, w, others) && Owned(w, after - {z}, others, {})
    ensures OutOfRoom(w, after - {z}, n)
  {
    GiveBack(after, z);
    if !Mappable(n) {
      NoPlace(w, n);
    }
    UnpendZone(w, z, after, others);
    FailedMapBytes(v, w, others);
  }

  lemma RefusedFresh(v: Volume, w: Volume, before: set<nat>, after: set<nat>, z: nat, n: nat)
    requires !Mappable(n) && StaleDouble(v, w) && z !in before
    requires exists s :: StaleZone(v, w, before + {z}, s) && after == s - {z}
    ensures Refused(v, w, before, after, n)
  {
  }

  lemma MappedFresh(v: Volume, w: Volume, before: set<nat>, after: set<nat>, others: set<nat>, n: nat, z: nat)
    requires Owned(v, before, others, {}) && Owned(w, after, others, {}) && z != NO_ZONE
    requires Mappable(n) && Maps(v, w, PlaceOf(n), z) && KeepsData(v, w, others)
    ensures Ref(w, PlaceOf(n)) == z && KeepsOthers(v, w, others)
    ensures forall m: nat, o: nat :: m != n ==> ByteAt(w, m, o) == ByteAt(v, m, o)
    ensures Ref(v, PlaceOf(n)) == NO_ZONE && Room(after) == Room(before) - 1 - Lacking(v, n) ==> Paid(v, w, before, after, n)
  {
    MapBytes(v, w, others, n, z);
    NeedsOfOne(v, n);
    MapsFills(v, w, n, z);
  }

  lemma MapsFills(v: Volume, w: Volume, n: nat, z: nat)
    requires Maps(v, w, PlaceOf(n), z) && z != NO_ZONE
    ensures Ref(v, PlaceOf(n)) == NO_ZONE ==> Fills(v, w, n)
  {
    hide Ref;
    if Ref(v, PlaceOf(n)) == NO_ZONE {
      forall p | InBounds(p)
        ensures if p in WayTo(n) then Ref(w, p) != NO_ZONE && (Ref(v, p) != NO_ZONE ==> Ref(w, p) == Ref(v, p))
                else Ref(w, p) == Ref(v, p)
      {
        WayToIs(n, p);
        hide WayTo, PlaceOf;
      }
    }
  }

  /** A block that was mapped, or has just been paid for, stays so when contents change. */
  lemma PaidThen(v: Volume, w: Volume, u: Volume, before: set<nat>, after: set<nat>, n: nat)
    requires SameRefs(w, u) && Mappable(n)
    requires Paid(v, w, before, after, n) || (v == w && before == after && Ref(v, PlaceOf(n)) != NO_ZONE)
    ensures Paid(v, u, before, after, n)
  {
    if Paid(v, w, before, after, n) {
      FillsThen(v, w, u, n);
    } else {
      NeedsOfOne(v, n);
      FillsNothing(v, u, n);
    }
  }

  lemma MappedBlock(v: Volume, n: nat, inUse: set<nat>, others: set<nat>)
    requires Owned(v, inUse, others, {}) && Mappable(n)
    ensures Ref(v, PlaceOf(n)) != NO_ZONE ==> HasBlock(v, Ref(v, PlaceOf(n)))
  {
  }

  /** Reading a run inside one block gives the bytes of those positions; a hole gives zeros. */
  lemma ChunkRead(v: Volume, position: nat, chunk: nat, out: seq<byte>)
    requires OffsetOf(position) + chunk <= BLOCK_SIZE
    requires var b, off := Ref(v, PlaceOf(BlockOf(position))), OffsetOf(position);
             if b == NO_ZONE then out == Zeros(chunk) else HasBlock(v, b) && out == v.disk[b][off..off + chunk]
    ensures |out| == chunk && forall i :: 0 <= i < chunk ==> out[i] == Byte(v, position + i)
  {
    forall i | 0 <= i < chunk ensures out[i] == Byte(v, position + i) {
      SameBlockAhead(position, i);
    }
  }

  lemma SplicesFrom(v: Volume, u: Volume, w: Volume, pos: nat, d: seq<byte>)
    requires SameBytes(v, u) && Splices(u, w, pos, d)
    ensures Splices(v, w, pos, d)
  {
    forall p: nat ensures Byte(w, p) == if pos <= p < pos + |d| then d[p - pos] else Byte(v, p) {
      assert Byte(u, p) == Byte(v, p);
    }
  }

  /** A hole that has become a zeroed block reads as before. */
  lemma HoleZeroed(v: Volume, w: Volume, n: nat)
    requires BlockBecomes(v, w, n, Zeros(BLOCK_SIZE)) && Ref(v, PlaceOf(n)) == NO_ZONE
    ensures SameBytes(v, w) && forall o: nat :: o < BLOCK_SIZE ==> ByteAt(w, n, o) == 0
  {
  }

  /** Zeroing the block just found or mapped for block `n` of the file. */
  lemma ZeroedBlock(v: Volume, w: Volume, n: nat, inUse: set<nat>, others: set<nat>)
    requires Owned(w, inUse, others, {}) && Ref(w, PlaceOf(n)) != NO_ZONE && KeepsOthers(v, w, others)
    requires forall m: nat, o: nat :: m != n ==> ByteAt(w, m, o) == ByteAt(v, m, o)
    ensures Mappable(n) && HasBlock(w, Ref(w, PlaceOf(n)))
    ensures var u := w.(disk := w.disk[Ref(w, PlaceOf(n)) := Zeros(BLOCK_SIZE)]);
            && Owned(u, inUse, others, {}) && KeepsOthers(v, u, others) && Ref(u, PlaceOf(n)) == Ref(w, PlaceOf(n))
            && SameRefs(w, u)
            && BlockBecomes(v, u, n, Zeros(BLOCK_SIZE))
  {
    if !Mappable(n) {
      NoPlace(w, n);
    }
    OverwriteBlock(w, n, Zeros(BLOCK_SIZE), inUse, others);
  }

  /** What moving `moved` bytes from `start` on does, by operation: a write replaces those bytes, a
      read returns them, and a peek changes no byte. */
  ghost predicate Moved(op: Op, v: Volume, w: Volume, start: nat, data: seq<byte>, out: seq<byte>, moved: nat) {
    match op
    case Writing => moved <= |data| && Splices(v, w, start, data[..moved])
    case Peeking => forall p: nat :: Byte(w, p) == Byte(v, p)
    case Reading => w == v && |out| == moved && forall i :: 0 <= i < moved ==> out[i] == Byte(v, start + i)
  }

  lemma MovedStep(op: Op, v: Volume, w: Volume, u: Volume, start: nat, data: seq<byte>, out: seq<byte>, moved: nat,
                  position: nat, piece: seq<byte>, bytes: seq<byte>, chunk: nat)
    requires position == start + moved
    requires Moved(op, v, w, start, data, out, moved) && Moved(op, w, u, position, piece, bytes, chunk)
    requires op == Writing ==> moved + chunk <= |data| && piece == data[moved..moved + chunk]
    ensures Moved(op, v, u, start, data, out + bytes, moved + chunk)
  {
    if op == Writing {
      SplicesAppend(v, w, u, start, data[..moved], piece);
      assert piece[..chunk] == piece && data[..moved] + piece == data[..moved + chunk];
    }
  }

  lemma MovedSame(op: Op, v: Volume, w: Volume, u: Volume, start: nat, data: seq<byte>, out: seq<byte>, moved: nat)
    requires Moved(op, v, w, start, data, out, moved) && SameBytes(w, u) && op != Reading
    ensures Moved(op, v, u, start, data, out, moved)
  {
    assert forall p: nat :: Byte(u, p) == Byte(w, p);
  }

  lemma IndexWritable(v: Volume, c: Place, inUse: set<nat>, others: set<nat>, pending: set<nat>)
    requires Owned(v, inUse, others, pending) && InBounds(c) && IsIndex(c)
    requires c.Middle? ==> Ref(v, Slot(NR_DZONES + 1)) != NO_ZONE
    ensures Writable(v, c)
  {
  }

  /** Room and needs are in balance where the transfer stands: `left` bytes from `position` on remain,
      up to block `e`. */
  ghost predicate InBalance(v: Volume, before: set<nat>, a: nat, w: Volume, after: set<nat>, position: nat, left: nat, e: nat) {
    && Balanced(v, before, a, w, after, if left == 0 then e else BlockOf(position), e)
    && (left > 0 ==> EndBlock(position, left) == e && forall m :: BlockOf(position) <= m < e ==> Mappable(m))
  }

  lemma BalanceStart(v: Volume, inUse: set<nat>, start: nat, count: nat)
    ensures Fits(start + count) ==>
              InBalance(v, inUse, BlockOf(start), v, inUse, start, count, EndBlock(start, count))
  {
    if Fits(start + count) {
      RangeFits(start, count);
    }
  }

  /** The blocks of a range that fits can all be mapped. */
  lemma BlocksFit(start: nat, count: nat)
    requires Fits(start + count) && count > 0
    ensures forall m :: BlockOf(start) <= m < EndBlock(start, count) ==> Mappable(m)
  {
    var last := BlockOf(start + count - 1);
    assert Mappable(last);
    forall m | BlockOf(start) <= m < EndBlock(start, count) ensures Mappable(m) {
      MappableIff(last);
      MappableIff(m);
    }
  }

  lemma BalanceEnds(v: Volume, before: set<nat>, a: nat, w: Volume, after: set<nat>, position: nat, e: nat)
    requires InBalance(v, before, a, w, after, position, 0, e)
    ensures |Needs(v, a, e)| <= Room(before)
  {
    assert Needs(w, e, e) == {};
  }

  /** One chunk keeps the balance, or shows that there was too little room from the start. */
  lemma BalanceChunk(v: Volume, before: set<nat>, a: nat, w: Volume, taken: set<nat>, position: nat, left: nat, chunk: nat,
                     e: nat, u: Volume, after: set<nat>, r: Status)
    requires InBalance(v, before, a, w, taken, position, left, e)
    requires 0 < chunk <= left && chunk == if left < BLOCK_SIZE - OffsetOf(position) then left else BLOCK_SIZE - OffsetOf(position)
    requires r == OK ==> Paid(w, u, taken, after, BlockOf(position))
    requires r != OK ==> OutOfRoom(w, taken, BlockOf(position))
    ensures r == OK ==> InBalance(v, before, a, u, after, position + chunk, left - chunk, e)
    ensures r != OK ==> Room(before) < |Needs(v, a, e)|
  {
    hide Balanced, Paid, OutOfRoom, Mappable;
    AfterChunk(position, left, chunk);
    AtLeastOne(position, left);
    if r == OK {
      BalanceStep(v, before, a, w, taken, BlockOf(position), e, u, after);
    } else {
      BalanceFails(v, before, a, w, taken, BlockOf(position), e);
    }
  }

  lemma FitsBelow(a: nat, b: nat)
    requires Fits(b) && a <= b
    ensures Fits(a)
  {
  }

  lemma OwnedArea(v: Volume, inUse: set<nat>, others: set<nat>)
    requires Owned(v, inUse, others, {})
    ensures |v.area| == AREA_SIZE
  {
  }

  /** The places a write of `n` bytes has to fill: the holes in its range and the index blocks missing
      on the way. An immediate file needs none while it fits in the inode; when it outgrows that,
      it starts from an empty tree and needs block 0 for its old bytes as well. */
  ghost function Demand(mode: Mode, v: Volume, position: nat, n: nat): set<Place> {
    var a, b := BlockOf(position), EndBlock(position, n);
    if mode == Regular then Needs(v, a, b)
    else if position + n <= IMMEDIATE_MAX then {}
    else Needs(Volume(Zeros(AREA_SIZE), v.disk), a, b) + {Slot(0)}
  }

  lemma OutgrownDemand(v: Volume, position: nat, n: nat)
    requires position + n > IMMEDIATE_MAX
    ensures |Demand(Immediate, v, position, n)| > 0
  {
    assert Slot(0) in Demand(Immediate, v, position, n);
  }

  /** With block 0 paid for, the rest of the write needs what is left of the demand. */
  lemma OutgrownNeeds(v: Volume, w: Volume, before: set<nat>, after: set<nat>, position: nat, n: nat)
    requires Paid(Volume(Zeros(AREA_SIZE), v.disk), w, before, after, 0) && position + n > IMMEDIATE_MAX && Fits(position + n)
    ensures |Needs(w, BlockOf(position), EndBlock(position, n))| <= Room(after)
            <==> |Demand(Immediate, v, position, n)| <= Room(before)
  {
    hide Needs, EndBlock, Mappable, Quotient, Fits, Fills, Room;
    var e, a, b := Volume(Zeros(AREA_SIZE), v.disk), BlockOf(position), EndBlock(position, n);
    FirstBlockNeeds(e);
    RangeFits(position, n);
    FillStep(e, w, 0, a, b);
    assert Needs(e, a, b) + {Slot(0)} == Needs(w, a, b) + {Slot(0)};
  }

  lemma FirstBlockNeeds(v: Volume)
    requires v.area == Zeros(AREA_SIZE)
    ensures Needs(v, 0, 1) == {Slot(0)}
  {
    EmptyTree(v, Slot(0));
    OneWay(0);
  }

  lemma RangeFits(start: nat, count: nat)
    requires Fits(start + count)
    ensures forall m :: BlockOf(start) <= m < EndBlock(start, count) ==> Mappable(m)
  {
    if count > 0 {
      BlocksFit(start, count);
    }
  }

  /** A new mapping shows at every position of its block and at no other position. */
  lemma MapsPositions(v: Volume, w: Volume, position: nat, z: nat, p: nat)
    requires Maps(v, w, PlaceOf(BlockOf(position)), z) && Mappable(BlockOf(p))
    ensures Ref(w, PlaceOf(BlockOf(p))) ==
            if BlockOf(p) == BlockOf(position) then z else Ref(v, PlaceOf(BlockOf(p)))
  {
    if PlaceOf(BlockOf(p)) == PlaceOf(BlockOf(position)) {
      PlaceOfInjective(BlockOf(p), BlockOf(position));
    }
  }

  /** Refusing a block past the end of the tree after linking a double indirect block keeps
      ownership only if that never-zeroed block happens to hold no zone number. */
  lemma StaleDoubleSound(v: Volume, w: Volume, inUse: set<nat>, others: set<nat>, pending: set<nat>)
    requires Owned(v, inUse, others, pending) && Ref(v, Slot(NR_DZONES + 1)) == NO_ZONE
    requires StaleDouble(v, w) && Ref(w, Slot(NR_DZONES + 1)) !in inUse
    ensures var z := Ref(w, Slot(NR_DZONES + 1));
            Owned(w, inUse + {z}, others, pending) <==> NoEntries(w, z)
  {
    var d := Slot(NR_DZONES + 1);
    var z := Ref(w, d);
    assert forall k: nat :: Entry(w, z, k) == Entry(v, z, k);
    if NoEntries(w, z) {
      PendZone(v, z, inUse, others, pending);
      AttachOwned(v, d, z, inUse + {z}, others, pending + {z});
      assert pending + {z} - {z} == pending;
    } else {
      var i :| 0 <= i < NR_INDIRECTS && Entry(w, z, i) != NO_ZONE;
      StaleEntry(v, w, inUse, others, pending, z, i);
    }
  }

  /** Before the call: linking a double indirect block without zeroing it is sound, whichever free
      zone is picked, exactly if no free zone holds a zone number. */
  lemma StaleDoubleSafe(v: Volume, inUse: set<nat>, others: set<nat>, pending: set<nat>)
    requires Owned(v, inUse, others, pending) && Ref(v, Slot(NR_DZONES + 1)) == NO_ZONE
    ensures (forall z :: z in FreeZones(inUse) ==> Owned(SetRef(v, Slot(NR_DZONES + 1), z), inUse + {z}, others, pending))
            <==> (forall z :: z in FreeZones(inUse) ==> NoEntries(v, z))
  {
    var d := Slot(NR_DZONES + 1);
    forall z | z in FreeZones(inUse)
      ensures Owned(SetRef(v, d, z), inUse + {z}, others, pending) <==> NoEntries(v, z)
    {
      var w := SetRef(v, d, z);
      SlotAfterSet(v, d, z, NR_DZONES + 1);
      assert forall k: nat :: Entry(w, z, k) == Entry(v, z, k);
      StaleDoubleSound(v, w, inUse, others, pending);
    }
  }

  lemma StaleEntry(v: Volume, w: Volume, inUse: set<nat>, others: set<nat>, pending: set<nat>, z: nat, i: nat)
    requires Owned(v, inUse, others, pending) && Ref(v, Slot(NR_DZONES + 1)) == NO_ZONE && z !in inUse && IsDataZone(z)
    requires w == SetRef(v, Slot(NR_DZONES + 1), z) && i < NR_INDIRECTS && Entry(w, z, i) != NO_ZONE
    ensures !Owned(w, inUse + {z}, others, pending)
  {
    var d := Slot(NR_DZONES + 1);
    SlotAfterSet(v, d, z, NR_DZONES + 1);
    var x := Ref(w, Middle(i));
    assert InBounds(Middle(i)) && x == Entry(w, z, i);
    if x in inUse && x !in others && x !in pending {
      var p :| InBounds(p) && Ref(v, p) == x;
      assert p.Slot? || p.Single?;
      if p.Slot? {
        SlotAfterSet(v, d, z, p.i);
      } else {
        SlotAfterSet(v, d, z, NR_DZONES);
      }
      assert Ref(w, p) == Ref(w, Middle(i));
    } else {
      assert x == z ==> Ref(w, d) == Ref(w, Middle(i));
    }
  }

  /** No index block on the way to `q` hangs in the tree without an entry. */
  ghost predicate NoEmptyIndex(v: Volume, q: Place) {
    forall p :: Ancestor(p, q) && Ref(v, p) != NO_ZONE ==> !Childless(v, p)
  }

  /** Mapping a hole and unmapping it restores every reference exactly if that was so. */
  lemma MapUnmap(v: Volume, w: Volume, u: Volume, q: Place, z: nat)
    requires InBounds(q) && !IsIndex(q) && Ref(v, q) == NO_ZONE
    requires Maps(v, w, q, z) && Unmaps(w, u, q)
    ensures SameRefs(v, u) <==> NoEmptyIndex(v, q)
  {
    if NoEmptyIndex(v, q) {
      MapUnmapRestores(v, w, u, q, z);
    } else {
      var p :| Ancestor(p, q) && Ref(v, p) != NO_ZONE && Childless(v, p);
      if SameRefs(v, u) {
        ChildlessSame(u, v, p);
      }
    }
  }

  lemma MapUnmapRestores(v: Volume, w: Volume, u: Volume, q: Place, z: nat)
    requires InBounds(q) && !IsIndex(q) && Ref(v, q) == NO_ZONE && NoEmptyIndex(v, q)
    requires Maps(v, w, q, z) && Unmaps(w, u, q)
    ensures SameRefs(v, u)
  {
    hide Ref, NoEmptyIndex;
    if !q.Slot? {
      var c, d := Container(q), Slot(NR_DZONES + 1);
      MapUnmapAncestor(v, w, u, q, z, c);
      if q.Leaf? {
        MapUnmapAncestor(v, w, u, q, z, d);
      }
    }
  }

  /** An index block on the way survives exactly if it was there before. */
  lemma MapUnmapAncestor(v: Volume, w: Volume, u: Volume, q: Place, z: nat, c: Place)
    requires InBounds(q) && !q.Slot? && !IsIndex(q) && Ref(v, q) == NO_ZONE && NoEmptyIndex(v, q)
    requires Maps(v, w, q, z) && Unmaps(w, u, q)
    requires Ancestor(c, q) && (q.Leaf? && c.Slot? ==> Ref(u, Container(q)) == Ref(v, Container(q)))
    ensures Ref(u, c) == Ref(v, c)
  {
    hide Ref;
    if Ref(v, c) == NO_ZONE {
      forall j | 0 <= j < NR_INDIRECTS ensures Ref(u, Child(c, j)) == NO_ZONE {
        ChildOfAbsent(v, c, j);
      }
    } else {
      var j :| 0 <= j < NR_INDIRECTS && Ref(v, Child(c, j)) != NO_ZONE;
      ChildOfAbsent(u, c, j);
    }
  }

  lemma ChildOfAbsent(v: Volume, c: Place, j: nat)
    requires IsIndex(c)
    ensures Ref(v, c) == NO_ZONE ==> Ref(v, Child(c, j)) == NO_ZONE
  {
  }

  class Inode {
    var mode: Mode
    var area: seq<byte>              // the bytes of i_zone
    var size: nat
    var zsearch: nat
    var disk: map<nat, seq<byte>>    // block contents, cache and device together
    var inUse: set<nat>              // the zone bitmap
    const maxSize: nat
    const readOnly: bool
    ghost const others: set<nat>     // zones of other files

    /** Between requests. A regular file owns its tree and reads as zero past its end; an
        immediate file fits in the inode, is zero past its end and owns no zone. */
    ghost predicate Valid() reads this {
      && |area| == AREA_SIZE && Fits(maxSize)
      && (mode == Regular ==> Owns({}) && ZeroFrom(Vol(), size) && size <= maxSize)
      && (mode == Immediate ==>
            && size <= IMMEDIATE_MAX && (forall i :: size <= i < AREA_SIZE ==> area[i] == 0)
            && inUse == others && Formatted(Vol()) && NO_ZONE !in inUse)
    }

    ghost function Contents(): (c: seq<byte>) reads this
      requires |area| == AREA_SIZE && (mode == Immediate ==> size <= IMMEDIATE_MAX)
      ensures |c| == size && forall i :: 0 <= i < size ==> c[i] == if mode == Immediate then area[i] else Byte(Vol(), i)
    {
      if mode == Immediate then area[..size] else Prefix(Vol(), size)
    }

    /** A newly created, empty file on a volume whose zones belong to others. */
    constructor (mode: Mode, disk: map<nat, seq<byte>>, inUse: set<nat>, maxSize: nat, readOnly: bool)
      requires Fits(maxSize) && NO_ZONE !in inUse && Formatted(Volume(Zeros(AREA_SIZE), disk))
      ensures Valid() && Contents() == [] && this.mode == mode && others == inUse
      ensures Vol() == Volume(Zeros(AREA_SIZE), disk) && this.inUse == inUse
      ensures this.maxSize == maxSize && this.readOnly == readOnly
    {
      this.mode, this.area, this.size, this.zsearch := mode, Zeros(AREA_SIZE), 0, NO_ZONE;
      this.disk, this.inUse, this.maxSize, this.readOnly := disk, inUse, maxSize, readOnly;
      this.others := inUse;
      EmptyTreeOwned(Volume(Zeros(AREA_SIZE), disk), inUse);
    }

    function Vol(): Volume reads this {
      Volume(area, disk)
    }

    ghost predicate Owns(pending: set<nat>) reads this {
      Owned(Vol(), inUse, others, pending)
    }

    /** Any free data zone; fails exactly if there is none. */
    method AllocZone() returns (z: nat)
      modifies this`inUse
      ensures z == NO_ZONE <==> Room(old(inUse)) == 0
      ensures z == NO_ZONE ==> inUse == old(inUse)
      ensures z != NO_ZONE ==> IsDataZone(z) && z !in old(inUse) && inUse == old(inUse) + {z}
      ensures z != NO_ZONE ==> Room(inUse) == Room(old(inUse)) - 1
    {
      if y: nat :| FIRST_DATA_ZONE <= y < NR_ZONES && y !in inUse {
        TakeZone(inUse, y);
        z := y;
        inUse := inUse + {z};
      } else {
        NoRoom(inUse);
        z := NO_ZONE;
      }
    }

    method FreeZone(z: nat)
      modifies this`inUse
      ensures inUse == old(inUse) - {z}
    {
      inUse := inUse - {z};
    }

    /** A buffer taken without reading the device may hold anything. */
    method GetBlockNoRead(z: nat)
      requires HasBlock(Vol(), z)
      modifies this`disk
      ensures HasBlock(Vol(), z)
      ensures disk == old(disk)[z := disk[z]]
    {
      var b: seq<byte> := *;
      if |b| == BLOCK_SIZE {
        disk := disk[z := b];
      }
    }

    method ZeroBlock(z: nat)
      requires HasBlock(Vol(), z)
      modifies this`disk
      ensures disk == old(disk)[z := Zeros(BLOCK_SIZE)]
    {
      disk := disk[z := Zeros(BLOCK_SIZE)];
    }

    /** Whether index block `z` holds only NO_ZONE. */
    method EmptyIndirect(z: nat) returns (empty: bool)
      requires z != NO_ZONE && HasBlock(Vol(), z)
      ensures empty <==> forall j :: 0 <= j < NR_INDIRECTS ==> Entry(Vol(), z, j) == NO_ZONE
    {
      var i := 0;
      while i < NR_INDIRECTS
        invariant 0 <= i <= NR_INDIRECTS
        invariant forall j :: 0 <= j < i ==> Entry(Vol(), z, j) == NO_ZONE
      {
        if Word(disk[z], i) != NO_ZONE {
          assert Entry(Vol(), z, i) != NO_ZONE;
          return false;
        }
        i := i + 1;
      }
      return true;
    }

    /** Writes zone number `z` at place `q`: a store into the inode or one wr_indir. */
    method Store(q: Place, z: nat)
      requires Writable(Vol(), q)
      modifies this`area, this`disk
      ensures Vol() == SetRef(old(Vol()), q, z)
    {
      if q.Slot? {
        area := SetWord(area, q.i, z);
      } else {
        var c := Ref(Vol(), Container(q));
        disk := disk[c := SetWord(disk[c], Index(q), z)];
      }
    }

    /** Allocates an index block for `q` and links it, contents still unknown. */
    method LinkIndex(q: Place) returns (z: nat)
      requires Writable(Vol(), q)
      modifies this`area, this`disk, this`inUse
      ensures z == NO_ZONE ==> Vol() == old(Vol()) && inUse == old(inUse)
      ensures z != NO_ZONE ==> Vol() == SetRef(old(Vol()), q, z)
      ensures z != NO_ZONE ==> IsDataZone(z) && z !in old(inUse) && inUse == old(inUse) + {z}
      ensures z == NO_ZONE <==> Room(old(inUse)) == 0
      ensures z != NO_ZONE ==> Room(inUse) == Room(old(inUse)) - 1
    {
      z := AllocZone();
      if z != NO_ZONE {
        Store(q, z);
      }
    }

    /** Zeroes a block linked by LinkIndex; from here on it is an empty index block of the tree. */
    method ZeroIndex(q: Place, z: nat, ghost v: Volume, ghost pending: set<nat>)
      requires IsIndex(q) && Writable(v, q) && Ref(v, q) == NO_ZONE
      requires IsDataZone(z) && z in inUse && Owned(v, inUse - {z}, others, pending)
      requires Vol() == SetRef(v, q, z)
      modifies this`disk
      ensures Owns(pending) && OnlyChanges(v, Vol(), q, z) && KeepsData(v, Vol(), others)
    {
      GetBlockNoRead(z);
      ZeroBlock(z);
      ghost var w := FreshIndex(v, q, z, inUse - {z}, others, pending);
      assert Vol() == w && inUse - {z} + {z} == inUse;
    }

    /** Makes sure there is an index block at `q`, creating an empty one if needed. */
    method EnsureIndex(q: Place, ghost pending: set<nat>) returns (z: nat)
      requires Owns(pending) && InBounds(q) && IsIndex(q) && Writable(Vol(), q)
      modifies this`area, this`disk, this`inUse
      ensures Owns(pending) && KeepsData(old(Vol()), Vol(), others)
      ensures z == NO_ZONE ==> Vol() == old(Vol())
      ensures z != NO_ZONE ==> OnlyChanges(old(Vol()), Vol(), q, z)
      ensures old(Ref(Vol(), q)) != NO_ZONE ==> z == old(Ref(Vol(), q))
      ensures z == NO_ZONE <==> old(Ref(Vol(), q)) == NO_ZONE && Room(old(inUse)) == 0
      ensures z == NO_ZONE ==> inUse == old(inUse)
      ensures z != NO_ZONE ==> Room(inUse) == Room(old(inUse)) - Bit(old(Ref(Vol(), q)) == NO_ZONE)
    {
      z := Ref(Vol(), q);
      if z == NO_ZONE {
        z := LinkIndex(q);
        if z != NO_ZONE {
          assert inUse - {z} == old(inUse);
          ZeroIndex(q, z, old(Vol()), pending);
        }
      }
    }

    /** The double indirect half of write_map: finds or creates the double indirect block, and
        refuses an index past its end only after linking a new one. */
    method EnsureDouble(i: nat, ghost pending: set<nat>) returns (r: Status)
      requires Owns(pending)
      modifies this`area, this`disk, this`inUse
      ensures r in {OK, ENOSPC, EFBIG}
      ensures r == EFBIG <==> i >= NR_INDIRECTS && r != ENOSPC
      ensures r == EFBIG ==> StaleDouble(old(Vol()), Vol()) && StaleZone(old(Vol()), Vol(), old(inUse), inUse)
      ensures r != EFBIG ==> Owns(pending) && KeepsData(old(Vol()), Vol(), others) && MapFailed(old(Vol()), Vol())
      ensures r == OK ==> Ref(Vol(), Slot(NR_DZONES + 1)) != NO_ZONE
      ensures r == ENOSPC <==> Room(old(inUse)) < Bit(old(Ref(Vol(), Slot(NR_DZONES + 1))) == NO_ZONE)
      ensures r == OK ==> Room(inUse) == Room(old(inUse)) - Bit(old(Ref(Vol(), Slot(NR_DZONES + 1))) == NO_ZONE)
      ensures r == ENOSPC ==> Vol() == old(Vol()) && Room(inUse) == 0
    {
      var d := Slot(NR_DZONES + 1);
      var z := Ref(Vol(), d);
      var newDouble := z == NO_ZONE;
      if newDouble {
        z := LinkIndex(d);
        if z == NO_ZONE {
          return ENOSPC;
        }
      }
      if i >= NR_INDIRECTS {
        if newDouble {
          SlotAfterSet(old(Vol()), d, z, NR_DZONES + 1);
        }
        return EFBIG;
      }
      if newDouble {
        assert inUse - {z} == old(inUse);
        ZeroIndex(d, z, old(Vol()), pending);
      }
      return OK;
    }

    /** Stores a pending zone at a data place whose index block exists. A zone that was there stays
        in use without being referenced: it leaks. */
    method Hang(q: Place, z: nat)
      requires Owns({z}) && Writable(Vol(), q) && !IsIndex(q)
      modifies this`area, this`disk
      ensures Owns(Leak(old(Ref(Vol(), q))))
      ensures OnlyChanges(old(Vol()), Vol(), q, z) && KeepsData(old(Vol()), Vol(), others)
    {
      ghost var v := Vol();
      Store(q, z);
      if Ref(v, q) == NO_ZONE {
        AttachOwned(v, q, z, inUse, others, {z});
        assert {z} - {z} == {};
      } else {
        ReplaceOwned(v, q, z, inUse, others, {z});
        assert {z} - {z} + {Ref(v, q)} == {Ref(v, q)};
      }
      SetRefKeepsData(v, q, z, others);
    }

    /** write_map storing a zone that the inode itself cannot hold. */
    method MapIndirect(zone: nat, newZone: nat) returns (r: Status)
      requires Owns({newZone}) && NR_DZONES <= zone
      modifies this`area, this`disk, this`inUse
      ensures MapOutcome(old(Vol()), Vol(), others, zone, newZone, r)
      ensures r == ENOSPC <==> Room(old(inUse)) < Lacking(old(Vol()), zone)
      ensures r == ENOSPC ==> Room(inUse) == 0 < Lacking(Vol(), zone)
      ensures r == OK ==> Room(inUse) == Room(old(inUse)) - Lacking(old(Vol()), zone)
      ensures r == OK ==> Owns(Leak(old(Ref(Vol(), PlaceOf(zone)))))
      ensures r == ENOSPC ==> Owns({newZone})
      ensures r == EFBIG ==> StaleZone(old(Vol()), Vol(), old(inUse), inUse)
    {
      hide Owned, KeepsData, StaleDouble, StaleZone, Writable;
      ghost var v := Vol();
      var excess := zone - NR_DZONES;
      var c := Slot(NR_DZONES);
      if excess >= NR_INDIRECTS {
        excess := excess - NR_INDIRECTS;
        r := EnsureDouble(Quotient(excess, NR_INDIRECTS), {newZone});
        if r != OK {
          return;
        }
        c := Middle(Quotient(excess, NR_INDIRECTS));
        excess := Remainder(excess, NR_INDIRECTS);
      }
      var q := Child(c, excess);
      assert q == PlaceOf(zone);
      IndexWritable(Vol(), c, inUse, others, {newZone});
      ghost var w := Vol();
      r := MapUnder(c, excess, newZone);
      MapOutcomeStep(v, w, Vol(), others, c, q, newZone, r);
    }

    /** Stores `z` as entry `j` of the index block at `c`, creating that block if needed. */
    method MapUnder(c: Place, j: nat, z: nat) returns (r: Status)
      requires Owns({z}) && InBounds(c) && IsIndex(c) && Writable(Vol(), c)
      requires j < NR_INDIRECTS && !IsIndex(Child(c, j))
      modifies this`area, this`disk, this`inUse
      ensures KeepsData(old(Vol()), Vol(), others)
      ensures r == ENOSPC ==> Vol() == old(Vol()) && Owns({z})
      ensures r == OK ==> Owns(Leak(old(Ref(Vol(), Child(c, j))))) && MapsUnder(old(Vol()), Vol(), c, Child(c, j), z)
      ensures r == OK || r == ENOSPC
      ensures r == ENOSPC <==> Room(old(inUse)) < Bit(old(Ref(Vol(), c)) == NO_ZONE)
      ensures r == ENOSPC ==> inUse == old(inUse)
      ensures r == OK ==> Room(inUse) == Room(old(inUse)) - Bit(old(Ref(Vol(), c)) == NO_ZONE)
    {
      ghost var v := Vol();
      var z1 := EnsureIndex(c, {z});
      if z1 == NO_ZONE {
        return ENOSPC;
      }
      ghost var w := Vol();
      Hang(Child(c, j), z);
      KeepsDataStep(v, w, Vol(), others);
      return OK;
    }

    /** Clears a childless place and frees the zone it held, if any. */
    method Drop(q: Place)
      requires Owns({}) && Writable(Vol(), q) && Childless(Vol(), q) && Ref(Vol(), q) != NO_ZONE
      modifies this`area, this`disk, this`inUse
      ensures Owns({}) && OnlyChanges(old(Vol()), Vol(), q, NO_ZONE) && KeepsData(old(Vol()), Vol(), others)
    {
      ghost var v := Vol();
      FreeZone(Ref(Vol(), q));
      Store(q, NO_ZONE);
      DetachOwned(v, q, old(inUse), others, {});
      SetRefKeepsData(v, q, NO_ZONE, others);
    }

    /** Takes the index block at `q` out of the tree when its last entry is gone. */
    method DropIfEmpty(q: Place)
      requires Owns({}) && Writable(Vol(), q) && IsIndex(q) && Ref(Vol(), q) != NO_ZONE
      modifies this`area, this`disk, this`inUse
      ensures Owns({}) && KeepsData(old(Vol()), Vol(), others)
      ensures OnlyChanges(old(Vol()), Vol(), q, if old(Childless(Vol(), q)) then NO_ZONE else old(Ref(Vol(), q)))
    {
      var empty := EmptyIndirect(Ref(Vol(), q));
      assert forall j :: 0 <= j < NR_INDIRECTS ==> Entry(Vol(), Ref(Vol(), q), j) == Ref(Vol(), Child(q, j));
      if empty {
        Drop(q);
      }
    }

    /** write_map with WMAP_FREE for a zone that the inode itself does not hold. */
    method FreeIndirect(zone: nat) returns (r: Status)
      requires Owns({}) && NR_DZONES <= zone
      modifies this`area, this`disk, this`inUse
      ensures Owns({}) && FreeOutcome(old(Vol()), Vol(), others, zone, r)
    {
      ghost var v := Vol();
      var excess := zone - NR_DZONES;
      var c := Slot(NR_DZONES);
      if excess >= NR_INDIRECTS {
        excess := excess - NR_INDIRECTS;
        if Quotient(excess, NR_INDIRECTS) >= NR_INDIRECTS {
          return EFBIG;
        }
        c := Middle(Quotient(excess, NR_INDIRECTS));
        excess := Remainder(excess, NR_INDIRECTS);
      }
      var q := Child(c, excess);
      assert q == PlaceOf(zone);
      if Ref(Vol(), c) != NO_ZONE {
        FreeEntry(q);
      }
      ghost var u := Vol();
      assert UnmapsUnder(v, u, q);
      var d := Slot(NR_DZONES + 1);
      if c != Slot(NR_DZONES) && Ref(Vol(), c) == NO_ZONE && Ref(Vol(), d) != NO_ZONE {
        DropIfEmpty(d);
        KeepsDataStep(v, u, Vol(), others);
      }
      UnmapsStep(v, u, Vol(), q);
      return OK;
    }

    /** Clears entry `q` and then its index block if that was the last entry. */
    method FreeEntry(q: Place)
      requires Owns({}) && Writable(Vol(), q) && !q.Slot? && !IsIndex(q)
      modifies this`area, this`disk, this`inUse
      ensures Owns({}) && KeepsData(old(Vol()), Vol(), others)
      ensures UnmapsUnder(old(Vol()), Vol(), q)
    {
      hide Owned;
      ghost var v := Vol();
      var c := Container(q);
      if Ref(Vol(), q) != NO_ZONE {
        Drop(q);
      }
      ghost var u := Vol();
      DropIfEmpty(c);
      KeepsDataStep(v, u, Vol(), others);
      if Ref(Vol(), c) != NO_ZONE {
        ChildlessSame(u, Vol(), c);
      }
    }

    /** Hangs `newZone` at the position's place, or, with `free`, frees the zone there and the
        index blocks this empties. Hanging over a zone leaks that zone. */
    method WriteMap(position: nat, newZone: nat, free: bool) returns (r: Status)
      requires mode == Regular ==> Owns(if free then {} else {newZone})
      requires free ==> newZone == NO_ZONE
      modifies this`area, this`disk, this`inUse
      ensures mode == Immediate ==> r == OK && Vol() == old(Vol()) && inUse == old(inUse)
      ensures mode == Regular && free ==>
                Owns({}) && FreeOutcome(old(Vol()), Vol(), others, BlockOf(position), r)
      ensures mode == Regular && !free ==>
                MapOutcome(old(Vol()), Vol(), others, BlockOf(position), newZone, r)
      ensures mode == Regular && !free && r == OK ==> Owns(Leak(old(Ref(Vol(), PlaceOf(BlockOf(position))))))
      ensures mode == Regular && !free ==>
                (r == ENOSPC <==> Room(old(inUse)) < Lacking(old(Vol()), BlockOf(position)))
      ensures mode == Regular && !free && r == ENOSPC ==> Room(inUse) == 0 < Lacking(Vol(), BlockOf(position))
      ensures mode == Regular && !free && r == OK ==>
                Room(inUse) == Room(old(inUse)) - Lacking(old(Vol()), BlockOf(position))
      ensures mode == Regular && !free && r == ENOSPC ==> Owns({newZone})
      ensures mode == Regular && !free && r == EFBIG ==> StaleZone(old(Vol()), Vol(), old(inUse), inUse)
      ensures mode == Regular ==> |old(area)| == AREA_SIZE
      ensures mode == Regular && r == OK ==>
                |area| == AREA_SIZE && FetchChanges(old(Vol()), Vol(), BlockNumber(position), newZone)
    {
      if mode == Immediate {
        return OK;
      }
      hide Owned, KeepsData, Fetch, BlockNumber, FreeOutcome, MapOutcome, FetchChanges, StaleZone, Lacking, Room;
      r := MapOrFree(position, newZone, free);
      if r == OK {
        PlacedAt(old(Vol()), Vol(), others, position, newZone, free, r);
      }
    }

    /** write_map on a regular file. */
    method MapOrFree(position: nat, newZone: nat, free: bool) returns (r: Status)
      requires mode == Regular && Owns(if free then {} else {newZone})
      requires free ==> newZone == NO_ZONE
      modifies this`area, this`disk, this`inUse
      ensures |old(area)| == |area| == AREA_SIZE
      ensures free ==> Owns({}) && FreeOutcome(old(Vol()), Vol(), others, BlockOf(position), r)
      ensures !free ==> MapOutcome(old(Vol()), Vol(), others, BlockOf(position), newZone, r)
      ensures !free && r == OK ==> Owns(Leak(old(Ref(Vol(), PlaceOf(BlockOf(position))))))
      ensures !free ==> (r == ENOSPC <==> Room(old(inUse)) < Lacking(old(Vol()), BlockOf(position)))
      ensures !free && r == ENOSPC ==> Room(inUse) == 0 < Lacking(Vol(), BlockOf(position))
      ensures !free && r == OK ==> Room(inUse) == Room(old(inUse)) - Lacking(old(Vol()), BlockOf(position))
      ensures !free && r == ENOSPC ==> Owns({newZone})
      ensures !free && r == EFBIG ==> StaleZone(old(Vol()), Vol(), old(inUse), inUse)
    {
      var zone := BlockOf(position);
      if zone < NR_DZONES {
        if free {
          if Ref(Vol(), Slot(zone)) != NO_ZONE {
            Drop(Slot(zone));
          }
        } else {
          Hang(Slot(zone), newZone);
        }
        return OK;
      }
      if free {
        r := FreeIndirect(zone);
      } else {
        r := MapIndirect(zone, newZone);
      }
    }

    /** The block that holds `position`, or NO_ZONE. Index NR_INDIRECTS itself is not refused by
        the range test, so a caller must not ask for it while a double indirect block exists. */
    method ReadMap(position: nat) returns (b: nat)
      requires |area| == AREA_SIZE
      requires !PastDouble(BlockOf(position)) || Ref(Vol(), Slot(NR_DZONES + 1)) == NO_ZONE
      ensures b == Ref(Vol(), PlaceOf(BlockOf(position)))
      ensures b == Fetch(Vol(), BlockNumber(position))
    {
      BlockIsQuotient(position);
      RefIsFetch(Vol(), BlockOf(position));
      hide Fetch, BlockNumber, ByteNumber;
      var zone := BlockOf(position);
      if zone < NR_DZONES {
        return SlotWord(Vol(), zone);
      }
      var excess := zone - NR_DZONES;
      var z;
      if excess < NR_INDIRECTS {
        z := SlotWord(Vol(), NR_DZONES);
      } else {
        z := SlotWord(Vol(), NR_DZONES + 1);
        if z == NO_ZONE {
          return NO_ZONE;
        }
        excess := excess - NR_INDIRECTS;
        var index := Quotient(excess, NR_INDIRECTS);
        if index > NR_INDIRECTS {
          return NO_ZONE;
        }
        z := Entry(Vol(), z, index);
        excess := Remainder(excess, NR_INDIRECTS);
      }
      if z == NO_ZONE {
        return NO_ZONE;
      }
      return Entry(Vol(), z, excess);
    }

    /** A zeroed block for `position`, newly mapped if there was a hole there. */
    method NewBlock(position: nat) returns (r: Status, b: nat)
      requires mode == Regular && Owns({})
      requires !PastDouble(BlockOf(position)) || Ref(Vol(), Slot(NR_DZONES + 1)) == NO_ZONE
      modifies this`area, this`disk, this`inUse, this`zsearch
      ensures r in {OK, ENOSPC, EFBIG} && (r == OK ==> Mappable(BlockOf(position)))
      ensures r != EFBIG ==> Owns({}) && KeepsOthers(old(Vol()), Vol(), others)
      ensures r == OK ==> b == Ref(Vol(), PlaceOf(BlockOf(position))) != NO_ZONE
      ensures r == OK ==> BlockBecomes(old(Vol()), Vol(), BlockOf(position), Zeros(BLOCK_SIZE))
      ensures r == ENOSPC ==> SameBytes(old(Vol()), Vol())
      ensures r == ENOSPC <==> OutOfRoom(old(Vol()), old(inUse), BlockOf(position))
      ensures r == ENOSPC ==> OutOfRoom(Vol(), inUse, BlockOf(position))
      ensures r == EFBIG ==> Refused(old(Vol()), Vol(), old(inUse), inUse, BlockOf(position))
      ensures r == OK ==> Paid(old(Vol()), Vol(), old(inUse), inUse, BlockOf(position))
    {
      hide Owned, Refused, Mappable, ByteAt, BlockBecomes, Lacking, Ref, Paid, SameRefs;
      ghost var v, n := Vol(), BlockOf(position);
      OwnedArea(v, inUse, others);
      b := ReadMap(position);
      if b == NO_ZONE {
        r, b := MapFresh(position);
        if r != OK {
          return;
        }
      }
      ghost var w := Vol();
      ZeroedBlock(v, w, n, inUse, others);
      GetBlockNoRead(b);
      ZeroBlock(b);
      assert Vol() == w.(disk := w.disk[b := Zeros(BLOCK_SIZE)]);
      PaidThen(v, w, Vol(), old(inUse), inUse, n);
      r := OK;
    }

    /** The allocating half of new_block: a zone is taken and hung in the tree, or given back. */
    method MapFresh(position: nat) returns (r: Status, z: nat)
      requires mode == Regular && Owns({}) && Ref(Vol(), PlaceOf(BlockOf(position))) == NO_ZONE
      modifies this`area, this`disk, this`inUse, this`zsearch
      ensures r in {OK, ENOSPC, EFBIG} && (r == OK ==> Mappable(BlockOf(position)))
      ensures r != EFBIG ==> Owns({}) && KeepsOthers(old(Vol()), Vol(), others)
      ensures r == OK ==> z == Ref(Vol(), PlaceOf(BlockOf(position))) != NO_ZONE
      ensures r != EFBIG ==> forall m: nat, o: nat :: r != OK || m != BlockOf(position) ==>
                ByteAt(Vol(), m, o) == old(ByteAt(Vol(), m, o))
      ensures r == ENOSPC <==> OutOfRoom(old(Vol()), old(inUse), BlockOf(position))
      ensures r == ENOSPC ==> OutOfRoom(Vol(), inUse, BlockOf(position))
      ensures r == EFBIG ==> Refused(old(Vol()), Vol(), old(inUse), inUse, BlockOf(position))
      ensures r == OK ==> Paid(old(Vol()), Vol(), old(inUse), inUse, BlockOf(position))
    {
      hide Owned, Maps, MapFailed, KeepsData, StaleDouble, StaleZone, Refused, Mappable, ByteAt, Lacking, Ref, Paid;
      ghost var v := Vol();
      z := AllocZone();
      if z == NO_ZONE {
        return ENOSPC, z;
      }
      zsearch := z;
      PendZone(v, z, old(inUse), others, {});
      assert {} + {z} == {z};
      r := WriteMap(position, z, false);
      if r != OK {
        ghost var taken := inUse;
        FreeZone(z);
        if r == ENOSPC {
          FailedFresh(v, Vol(), old(inUse), taken, others, z, BlockOf(position));
        } else {
          RefusedFresh(v, Vol(), old(inUse), inUse, z, BlockOf(position));
        }
        return;
      }
      MappedFresh(v, Vol(), old(inUse), inUse, others, BlockOf(position), z);
    }

    /** Copies `data` into the mapped block of `position`. The buffer is taken unread when all of
        it, or all that lies before the end of the file, is about to be overwritten. */
    method CopyIn(position: nat, b: nat, data: seq<byte>, isNew: bool)
      requires Owns({}) && Mappable(BlockOf(position)) && b == Ref(Vol(), PlaceOf(BlockOf(position))) != NO_ZONE
      requires 0 < |data| <= BLOCK_SIZE - OffsetOf(position)
      requires isNew || (OffsetOf(position) == 0 && position >= size) ==>
        forall o :: 0 <= o < OffsetOf(position) || OffsetOf(position) + |data| <= o < BLOCK_SIZE ==>
          ByteAt(Vol(), BlockOf(position), o) == 0
      modifies this`disk
      ensures Owns({}) && KeepsOthers(old(Vol()), Vol(), others)
      ensures Splices(old(Vol()), Vol(), position, data) && SameRefs(old(Vol()), Vol())
    {
      ghost var v, n := Vol(), BlockOf(position);
      var off, chunk := OffsetOf(position), |data|;
      if !isNew && (chunk == BLOCK_SIZE || (off == 0 && position >= size)) {
        GetBlockNoRead(b);
      }
      if chunk != BLOCK_SIZE && position >= size && off == 0 {
        ZeroBlock(b);
      }
      var block := disk[b][..off] + data + disk[b][off + chunk..];
      disk := disk[b := block];
      OverwriteBlock(v, n, block, inUse, others);
      assert Vol() == v.(disk := v.disk[b := block]);
      SpliceInBlock(v, Vol(), position, data, block);
    }

    /** The block for a write or peek at `position`, mapped and zeroed first if there was a hole. */
    method BlockFor(position: nat) returns (r: Status, b: nat, hole: bool)
      requires mode == Regular && Owns({}) && Mappable(BlockOf(position))
      modifies this`area, this`disk, this`inUse, this`zsearch
      ensures Owns({}) && KeepsOthers(old(Vol()), Vol(), others) && SameBytes(old(Vol()), Vol())
      ensures r == OK || r == ENOSPC
      ensures r != OK ==> old(Ref(Vol(), PlaceOf(BlockOf(position)))) == NO_ZONE
      ensures r == OK ==> b == Ref(Vol(), PlaceOf(BlockOf(position))) != NO_ZONE
      ensures r == OK && hole ==> forall o: nat :: o < BLOCK_SIZE ==> ByteAt(Vol(), BlockOf(position), o) == 0
      ensures r == OK ==> Paid(old(Vol()), Vol(), old(inUse), inUse, BlockOf(position))
      ensures r == ENOSPC <==> OutOfRoom(old(Vol()), old(inUse), BlockOf(position))
      ensures r == ENOSPC ==> OutOfRoom(Vol(), inUse, BlockOf(position))
    {
      hide Owned, Paid, Room, Lacking, Fetch, BlockNumber, ByteAt, BlockBecomes;
      ghost var v := Vol();
      OwnedArea(v, inUse, others);
      b := ReadMap(position);
      hole := b == NO_ZONE;
      if hole {
        r, b := NewBlock(position);
        if r == OK {
          HoleZeroed(v, Vol(), BlockOf(position));
        }
      } else {
        r := OK;
        PaidThen(v, v, v, inUse, inUse, BlockOf(position));
      }
    }

    /** Reads, writes or peeks at a run of bytes inside one block. */
    method RwChunk(position: nat, chunk: nat, op: Op, data: seq<byte>) returns (r: Status, out: seq<byte>)
      requires mode == Regular && Owns({}) && Mappable(BlockOf(position))
      requires 0 < chunk <= BLOCK_SIZE - OffsetOf(position)
      requires op == Writing ==> |data| == chunk
      requires op == Writing && OffsetOf(position) == 0 && position >= size ==>
        forall o :: chunk <= o < BLOCK_SIZE ==> ByteAt(Vol(), BlockOf(position), o) == 0
      modifies this`area, this`disk, this`inUse, this`zsearch
      ensures Owns({}) && KeepsOthers(old(Vol()), Vol(), others)
      ensures r == OK || (r == ENOSPC && op != Reading)
      ensures r == OK ==> Moved(op, old(Vol()), Vol(), position, data, out, chunk)
      ensures r != OK ==> SameBytes(old(Vol()), Vol()) && old(Ref(Vol(), PlaceOf(BlockOf(position)))) == NO_ZONE
      ensures r == ENOSPC <==> op != Reading && OutOfRoom(old(Vol()), old(inUse), BlockOf(position))
      ensures r == ENOSPC ==> OutOfRoom(Vol(), inUse, BlockOf(position))
      ensures r == OK && op != Reading ==> Paid(old(Vol()), Vol(), old(inUse), inUse, BlockOf(position))
    {
      hide Paid, OutOfRoom, Fetch, BlockNumber, Splices, ByteAt;
      ghost var v := Vol();
      out := [];
      if op == Reading {
        MappedBlock(v, BlockOf(position), inUse, others);
        var b := ReadMap(position);
        out := if b == NO_ZONE then Zeros(chunk) else disk[b][OffsetOf(position)..OffsetOf(position) + chunk];
        ChunkRead(v, position, chunk, out);
        return OK, out;
      }
      hide Owned;
      var b, hole;
      r, b, hole := BlockFor(position);
      if r != OK {
        return;
      }
      ghost var u := Vol();
      if op == Writing {
        CopyIn(position, b, data, hole);
        SplicesFrom(v, u, Vol(), position, data);
        assert data[..chunk] == data;
      }
      PaidThen(v, u, Vol(), old(inUse), inUse, BlockOf(position));
    }

    /** One turn of the chunk loop, continuing a transfer that has `v` behind it. */
    method MoveChunk(op: Op, start: nat, moved: nat, chunk: nat, data: seq<byte>, soFar: seq<byte>, ghost v: Volume)
      returns (r: Status, out: seq<byte>)
      requires mode == Regular && Owns({}) && KeepsOthers(v, Vol(), others) && Mappable(BlockOf(start + moved))
      requires 0 < chunk <= BLOCK_SIZE - OffsetOf(start + moved)
      requires op == Writing ==> moved + chunk <= |data|
      requires op == Writing ==> chunk < BLOCK_SIZE - OffsetOf(start + moved) ==> moved + chunk == |data|
      requires op == Writing ==> forall p: nat :: p >= start + |data| && p >= size ==> Byte(v, p) == 0
      requires Moved(op, v, Vol(), start, data, soFar, moved)
      modifies this`area, this`disk, this`inUse, this`zsearch
      ensures Owns({}) && KeepsOthers(v, Vol(), others)
      ensures r == OK || (r == ENOSPC && op != Reading && old(Ref(Vol(), PlaceOf(BlockOf(start + moved)))) == NO_ZONE)
      ensures Moved(op, v, Vol(), start, data, out, if r == OK then moved + chunk else moved)
      ensures r == ENOSPC ==> OutOfRoom(Vol(), inUse, BlockOf(start + moved))
      ensures r == ENOSPC ==> OutOfRoom(old(Vol()), old(inUse), BlockOf(start + moved))
      ensures r == OK && op != Reading ==> Paid(old(Vol()), Vol(), old(inUse), inUse, BlockOf(start + moved))
    {
      hide Paid, OutOfRoom;
      ghost var w := Vol();
      var position := start + moved;
      if op == Writing && OffsetOf(position) == 0 && position >= size {
        TailStaysZero(v, w, start, data[..moved], position, chunk, start + |data|, size);
      }
      var piece := if op == Writing then data[moved..moved + chunk] else [];
      var bytes;
      r, bytes := RwChunk(position, chunk, op, piece);
      if r == OK {
        MovedStep(op, v, w, Vol(), start, data, soFar, moved, position, piece, bytes, chunk);
        out := soFar + bytes;
      } else {
        MovedSame(op, v, w, Vol(), start, data, soFar, moved);
        out := soFar;
      }
    }

    /** The chunk loop of fs_readwrite. `fileSize` is the size on entry, which differs from `size`
        only while an immediate file is being turned into a regular one. */
    method Transfer(op: Op, start: nat, count: nat, data: seq<byte>, fileSize: nat)
      returns (r: Status, out: seq<byte>, moved: nat)
      requires mode == Regular && Owns({}) && Fits(if op == Reading then fileSize else start + count)
      requires op == Writing ==> |data| == count
      requires op == Writing ==> forall p: nat :: p >= start + count && p >= size ==> Byte(Vol(), p) == 0
      modifies this`area, this`disk, this`inUse, this`zsearch
      ensures Owns({}) && KeepsOthers(old(Vol()), Vol(), others)
      ensures moved <= count && (r == OK || (r == ENOSPC && op != Reading))
      ensures Moved(op, old(Vol()), Vol(), start, data, out, moved)
      ensures op == Writing && r == OK ==> moved == count
      ensures r == ENOSPC ==> moved < count && OutOfRoom(Vol(), inUse, BlockOf(start + moved))
      ensures op != Reading ==>
                (r == OK <==> |Needs(old(Vol()), BlockOf(start), EndBlock(start, count))| <= Room(old(inUse)))
      ensures old(Ref(Vol(), PlaceOf(BlockOf(start)))) != NO_ZONE && op == Writing ==>
                moved == count || moved >= BLOCK_SIZE - OffsetOf(start)
      ensures op == Reading ==>
                moved == if start >= fileSize then 0 else if start + count <= fileSize then count else fileSize - start
    {
      hide Owned, Paid, OutOfRoom, Balanced, EndBlock;
      ghost var v, a, e := Vol(), BlockOf(start), EndBlock(start, count);
      BalanceStart(v, inUse, start, count);
      r, out, moved := OK, [], 0;
      var position: nat, left: nat := start, count;
      while left > 0
        invariant position == start + moved && left + moved == count
        invariant Owns({}) && KeepsOthers(v, Vol(), others) && r == OK
        invariant Moved(op, v, Vol(), start, data, out, moved)
        invariant op == Reading ==> moved > 0 ==> position <= fileSize
        invariant moved == 0 ==> Vol() == v
        invariant op == Writing ==> moved == 0 || left == 0 || moved >= BLOCK_SIZE - OffsetOf(start)
        invariant op != Reading ==> InBalance(v, old(inUse), a, Vol(), inUse, position, left, e)
      {
        var off := OffsetOf(position);
        var chunk := if left < BLOCK_SIZE - off then left else BLOCK_SIZE - off;
        if op == Reading {
          if position >= fileSize {
            break;
          }
          if chunk > fileSize - position {
            chunk := fileSize - position;
          }
        }
        ghost var w, taken := Vol(), inUse;
        r, out := MoveChunk(op, start, moved, chunk, data, out, v);
        if op != Reading {
          BalanceChunk(v, old(inUse), a, w, taken, position, left, chunk, e, Vol(), inUse, r);
        }
        if r != OK {
          break;
        }
        left := left - chunk;
        moved := moved + chunk;
        position := position + chunk;
      }
      if r == OK && op != Reading {
        BalanceEnds(v, old(inUse), a, Vol(), inUse, position, e);
      }
    }

    /** fs_readwrite serving a read. */
    method Read(position: nat, count: nat) returns (r: Status, out: seq<byte>)
      requires Valid()
      modifies this`area, this`disk, this`inUse, this`zsearch
      ensures Valid() && Vol() == old(Vol()) && r == OK
      ensures mode == Regular ==> out == ReadAt(Contents(), position, count)
      ensures mode == Immediate ==> out == if position < size then Contents() else []
      ensures mode == Immediate ==>
                (out == ReadAt(Contents(), position, count) <==> position >= size || (position == 0 && count >= size))
    {
      hide Owned;
      if mode == Immediate {
        WholeReadAgrees(Contents(), position, count);
      }
      if mode == Immediate {
        return OK, if position < size then area[..size] else [];
      }
      var moved;
      FitsBelow(size, maxSize);
      r, out, moved := Transfer(Reading, position, count, [], size);
      ReadIsReadAt(Vol(), size, position, count, out);
    }

    /** fs_readwrite serving a peek: holes may be filled with zeroed blocks, but no byte changes. */
    method Peek(position: nat, count: nat) returns (r: Status)
      requires Valid() && mode == Regular && Fits(position + count)
      modifies this`area, this`disk, this`inUse, this`zsearch
      ensures Valid() && Contents() == old(Contents())
      ensures KeepsOthers(old(Vol()), Vol(), others)
      ensures r == OK <==> |Demand(Regular, old(Vol()), position, count)| <= Room(old(inUse))
    {
      hide Owned;
      var out, moved;
      r, out, moved := Transfer(Peeking, position, count, [], size);
      OwnedArea(Vol(), inUse, others);
    }

    /** fs_readwrite serving a write to a regular file. */
    method WriteRegular(position: nat, data: seq<byte>) returns (r: Status, moved: nat)
      requires Valid() && mode == Regular && position + |data| <= maxSize
      modifies this`area, this`disk, this`inUse, this`zsearch, this`size
      ensures Valid() && KeepsOthers(old(Vol()), Vol(), others)
      ensures moved <= |data| && (r == OK <==> moved == |data|) && (r == OK || r == ENOSPC)
      ensures r == ENOSPC ==> OutOfRoom(Vol(), inUse, BlockOf(position + moved))
      ensures r == OK <==> |Demand(Regular, old(Vol()), position, |data|)| <= Room(old(inUse))
      ensures Contents() == WriteAt(old(Contents()), position, data[..moved])
    {
      hide Owned;
      ghost var v := Vol();
      var out;
      FitsBelow(position + |data|, maxSize);
      r, out, moved := Transfer(Writing, position, |data|, data, size);
      OwnedArea(Vol(), inUse, others);
      SpliceIsWriteAt(v, Vol(), size, position, data[..moved]);
      if position + moved > size {
        size := position + moved;
      }
    }

    /** fs_readwrite serving a write that an immediate file has room for. */
    method WriteImmediate(position: nat, data: seq<byte>)
      requires Valid() && mode == Immediate && position + |data| <= IMMEDIATE_MAX
      modifies this`area, this`size
      ensures Valid() && Contents() == WriteAt(old(Contents()), position, data)
    {
      hide Owned, ZeroFrom, Fits, Prefix;
      area := area[..position] + data + area[position + |data|..];
      if position + |data| > size {
        size := position + |data|;
      }
    }

    /** removeInodeEntry: the inode maps nothing and has size zero. */
    method RemoveEntry()
      requires Valid() && mode == Immediate
      modifies this`area, this`size
      ensures area == Zeros(AREA_SIZE) && size == 0
      ensures Owns({}) && forall n: nat, o: nat :: ByteAt(Vol(), n, o) == 0
    {
      size := 0;
      area := Zeros(AREA_SIZE);
      EmptyTreeOwned(Vol(), others);
    }

    /** Turns an immediate file into a regular one with the same bytes in block 0. The size is
        left at zero for the caller to set. Without a free zone the bytes are lost. */
    method Outgrow() returns (r: Status)
      requires Valid() && mode == Immediate
      modifies this`area, this`disk, this`inUse, this`zsearch, this`size, this`mode
      ensures mode == Regular && size == 0 && |area| == AREA_SIZE
      ensures Owns({}) && KeepsOthers(old(Vol()), Vol(), others)
      ensures r == OK || r == ENOSPC
      ensures r == ENOSPC <==> Room(old(inUse)) == 0
      ensures r == OK ==> Paid(Volume(Zeros(AREA_SIZE), old(disk)), Vol(), old(inUse), inUse, 0)
      ensures r == OK ==> Ref(Vol(), PlaceOf(0)) != NO_ZONE && ZeroFrom(Vol(), old(size))
      ensures r == OK ==> Prefix(Vol(), old(size)) == old(Contents())
      ensures r != OK ==> ZeroFrom(Vol(), 0)
    {
      hide Paid;
      var buffer := area[..size];
      RemoveEntry();
      mode := Regular;
      var b;
      ghost var v := Vol();
      r, b := NewBlock(0);
      if r == OK {
        assert InBounds(PlaceOf(0));
        ghost var w := Vol();
        if buffer != [] {
          CopyIn(0, b, buffer, true);
        }
        PaidThen(v, w, Vol(), old(inUse), inUse, 0);
      }
    }

    /** A write that turns an immediate file into a regular one. */
    method WriteOutgrowing(position: nat, data: seq<byte>) returns (r: Status, moved: nat, lost: bool)
      requires Valid() && mode == Immediate && IMMEDIATE_MAX < position + |data| <= maxSize
      modifies this`area, this`disk, this`inUse, this`zsearch, this`size, this`mode
      ensures Valid() && mode == Regular && KeepsOthers(old(Vol()), Vol(), others)
      ensures moved <= |data| && (r == OK <==> moved == |data| && !lost) && (r == OK || r == ENOSPC)
      ensures r == ENOSPC && !lost ==> OutOfRoom(Vol(), inUse, BlockOf(position + moved))
      ensures lost <==> Room(old(inUse)) == 0
      ensures r == OK <==> |Demand(Immediate, old(Vol()), position, |data|)| <= Room(old(inUse))
      ensures lost ==> moved == 0 && Contents() == []
      ensures !lost ==> Contents() == WriteAt(old(Contents()), position, data[..moved])
    {
      hide Owned, Paid, OutOfRoom, Needs, Demand, Room, Fits, Formatted;
      var fileSize := size;
      OutgrownDemand(Vol(), position, |data|);
      r := Outgrow();
      if r != OK {
        return r, 0, true;
      }
      lost := false;
      ghost var v := Vol();
      var out;
      FitsBelow(position + |data|, maxSize);
      OutgrownNeeds(old(Vol()), v, old(inUse), inUse, position, |data|);
      r, out, moved := Transfer(Writing, position, |data|, data, fileSize);
      OwnedArea(Vol(), inUse, others);
      SpliceIsWriteAt(v, Vol(), fileSize, position, data[..moved]);
      if position < BLOCK_SIZE {
        assert BlockOf(position) == 0 && OffsetOf(position) == position;
      }
      if position + moved > fileSize {
        size := position + moved;
      }
    }

    /** fs_readwrite serving a write. `lost` tells that an immediate file outgrew its inode with no
        zone to be had; exactly then, and if it had any bytes, old bytes are gone. */
    method Write(position: nat, data: seq<byte>) returns (r: Status, moved: nat, lost: bool)
      requires Valid() && |data| <= maxSize
      modifies this`area, this`disk, this`inUse, this`zsearch, this`size, this`mode
      ensures Valid() && KeepsOthers(old(Vol()), Vol(), others)
      ensures moved <= |data| && (r == OK ==> moved == |data| && !lost)
      ensures r == ENOSPC && !lost ==> moved < |data| && OutOfRoom(Vol(), inUse, BlockOf(position + moved))
      ensures r == OK <==> !readOnly && position + |data| <= maxSize &&
                           |Demand(old(mode), old(Vol()), position, |data|)| <= Room(old(inUse))
      ensures r == EROFS <==> readOnly
      ensures r == EFBIG <==> !readOnly && position + |data| > maxSize
      ensures r in {EROFS, EFBIG} ==> Contents() == old(Contents()) && mode == old(mode) && moved == 0 && !lost
      ensures !lost && r !in {EROFS, EFBIG} ==> Contents() == WriteAt(old(Contents()), position, data[..moved])
      ensures lost <==> !readOnly && position + |data| <= maxSize && old(mode) == Immediate &&
                        position + |data| > IMMEDIATE_MAX && Room(old(inUse)) == 0
      ensures r == ENOSPC ==> old(mode) == Regular || position + |data| > IMMEDIATE_MAX
      ensures lost ==> r == ENOSPC && Contents() == []
      ensures |Contents()| < |old(Contents())| <==> lost && old(size) > 0
      ensures mode == if old(mode) == Immediate && (r in {EROFS, EFBIG} || position + |data| <= IMMEDIATE_MAX)
                      then Immediate else Regular
    {
      hide Owned, OutOfRoom, ZeroFrom, Fits, Formatted, Room, Needs;
      if readOnly {
        return EROFS, 0, false;
      }
      if position + |data| > maxSize {
        return EFBIG, 0, false;
      }
      if mode == Regular {
        r, moved := WriteRegular(position, data);
        lost := false;
      } else if position + |data| > IMMEDIATE_MAX {
        r, moved, lost := WriteOutgrowing(position, data);
      } else {
        WriteImmediate(position, data);
        assert data[..|data|] == data;
        return OK, |data|, false;
      }
    }

    /** Any run of successful writes leaves the same bytes whether the file began immediate or
        regular: those a plain byte sequence would hold. */
    method WriteAll(reqs: seq<Request>) returns (ok: bool)
      requires Valid() && forall i :: 0 <= i < |reqs| ==> |reqs[i].data| <= maxSize
      modifies this`area, this`disk, this`inUse, this`zsearch, this`size, this`mode
      ensures Valid() && KeepsOthers(old(Vol()), Vol(), others)
      ensures ok ==> Contents() == WriteSeq(old(Contents()), reqs)
    {
      hide Owned, ZeroFrom, Fits, Formatted, Prefix, WriteAt;
      ok := true;
      var i := 0;
      while i < |reqs|
        invariant 0 <= i <= |reqs| && ok
        invariant Valid() && KeepsOthers(old(Vol()), Vol(), others)
        invariant Contents() == WriteSeq(old(Contents()), reqs[..i])
      {
        var r, moved, lost := Write(reqs[i].pos, reqs[i].data);
        if r != OK {
          return false;
        }
        assert reqs[i].data[..moved] == reqs[i].data;
        assert reqs[..i + 1][..i] == reqs[..i];
        i := i + 1;
      }
      assert reqs[..i] == reqs;
    }

    /** Mapping a fresh zone into a hole and freeing it again restores every reference and the
        zone bitmap, exactly if no empty index block hung on the way. */
    method MapThenFree(position: nat, z: nat) returns (r: Status)
      requires mode == Regular && Owns({z}) && Mappable(BlockOf(position))
      requires Ref(Vol(), PlaceOf(BlockOf(position))) == NO_ZONE
      modifies this`area, this`disk, this`inUse
      ensures r == OK ==> Owns({})
      ensures r == OK ==> (SameRefs(old(Vol()), Vol()) <==> NoEmptyIndex(old(Vol()), PlaceOf(BlockOf(position))))
      ensures r == OK && SameRefs(old(Vol()), Vol()) ==> inUse == old(inUse) - {z}
      ensures r == OK || (r == ENOSPC && Room(old(inUse)) < Lacking(old(Vol()), BlockOf(position)))
    {
      hide Owned, Ref;
      ghost var v, q := Vol(), PlaceOf(BlockOf(position));
      r := WriteMap(position, z, false);
      if r == OK {
        ghost var w := Vol();
        r := WriteMap(position, NO_ZONE, true);
        MapUnmap(v, w, Vol(), q, z);
        if SameRefs(v, Vol()) {
          SameRefsSameZones(v, Vol(), old(inUse), inUse, others, {z});
        }
      }
    }
  }

  /** An input that loses bytes: on a full device, one byte written to a new immediate file is gone
      after a write at position 32 that fails with ENOSPC. */
  method LosingWrites(disk: map<nat, seq<byte>>, inUse: set<nat>, maxSize: nat) returns (f: Inode, ghost kept: seq<byte>)
    requires Fits(maxSize) && maxSize > IMMEDIATE_MAX && NO_ZONE !in inUse && Room(inUse) == 0
    requires Formatted(Volume(Zeros(AREA_SIZE), disk))
    ensures f.Valid() && kept == [7] && f.Contents() == []
  {
    hide Owned, ZeroFrom, Fits, Formatted, Prefix, Room, KeepsOthers;
    f := new Inode(Immediate, disk, inUse, maxSize, false);
    var r, moved, lost := f.Write(0, [7]);
    kept := f.Contents();
    assert [7][..moved] == [7];
    r, moved, lost := f.Write(IMMEDIATE_MAX, [8]);
  }

  /** An input that breaks the tree: with old zone numbers left in every free zone, asking a new file
      for a block past the end of the tree links one of those zones as a double indirect block. */
  method StaleBlock(disk: map<nat, seq<byte>>, inUse: set<nat>, maxSize: nat, position: nat) returns (f: Inode)
    requires Fits(maxSize) && NO_ZONE !in inUse && Room(inUse) >= 2 && !Mappable(BlockOf(position))
    requires Formatted(Volume(Zeros(AREA_SIZE), disk))
    requires forall z :: z in FreeZones(inUse) ==> !NoEntries(Volume(Zeros(AREA_SIZE), disk), z)
    ensures f.mode == Regular && !f.Owns({})
  {
    hide Owned, ZeroFrom, Fits, Prefix, Room, KeepsOthers;
    f := new Inode(Regular, disk, inUse, maxSize, false);
    ghost var v, d := f.Vol(), Slot(NR_DZONES + 1);
    EmptyTree(v, d);
    var r, b := f.NewBlock(position);
    ghost var z := Ref(f.Vol(), d);
    assert z in FreeZones(inUse) && f.inUse == inUse + {z};
    assert forall k: nat :: Entry(f.Vol(), z, k) == Entry(v, z, k);
    StaleDoubleSound(v, f.Vol(), inUse, inUse, {});
  }
}
