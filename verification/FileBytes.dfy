/** The file as a flat run of bytes: what a volume says at each position, and what a write to a
    plain byte sequence means. */
module FileBytes {
  import opened Words
  import opened ZoneTree
  import opened ZoneOwner

  /** Byte `o` of the file's block `n`; a hole reads as zero. */
  function ByteAt(v: Volume, n: nat, o: nat): byte {
    var z := Ref(v, PlaceOf(n));
    if z != NO_ZONE && HasBlock(v, z) && o < BLOCK_SIZE then v.disk[z][o] else 0
  }

  /** The byte at a file position. */
  function Byte(v: Volume, p: nat): byte {
    ByteAt(v, BlockOf(p), OffsetOf(p))
  }

  /** A byte of the file is the byte at its offset in the block that the layout names; a hole is zero. */
  lemma ByteIsOnDisk(v: Volume, p: nat)
    requires Separate(v)
    ensures var z := Fetch(v, BlockNumber(p));
            if z == NO_ZONE then Byte(v, p) == 0
            else HasBlock(v, z) && ByteNumber(p) < BLOCK_SIZE && Byte(v, p) == v.disk[z][ByteNumber(p)]
  {
    hide Fetch, BlockNumber, ByteNumber, Quotient, Remainder, Ref;
    BlockIsQuotient(p);
    RefIsFetch(v, BlockOf(p));
    if !Mappable(BlockOf(p)) {
      NoPlace(v, BlockOf(p));
    }
  }

  ghost predicate SameBytes(v: Volume, w: Volume) {
    forall n: nat, o: nat :: ByteAt(w, n, o) == ByteAt(v, n, o)
  }

  /** `w` reads like `v` except that block `n` holds `b`. */
  ghost predicate BlockBecomes(v: Volume, w: Volume, n: nat, b: seq<byte>)
    requires |b| == BLOCK_SIZE
  {
    forall m: nat, o: nat :: o < BLOCK_SIZE ==> ByteAt(w, m, o) == if m == n then b[o] else ByteAt(v, m, o)
  }

  /** `w` reads like `v` except for `d` from position `pos` on. */
  ghost predicate Splices(v: Volume, w: Volume, pos: nat, d: seq<byte>) {
    forall p: nat :: Byte(w, p) == if pos <= p < pos + |d| then d[p - pos] else Byte(v, p)
  }

  lemma SplicesAppend(v: Volume, w: Volume, u: Volume, pos: nat, d: seq<byte>, e: seq<byte>)
    requires Splices(v, w, pos, d) && Splices(w, u, pos + |d|, e)
    ensures Splices(v, u, pos, d + e)
  {
    forall p: nat ensures Byte(u, p) == if pos <= p < pos + |d + e| then (d + e)[p - pos] else Byte(v, p) {
      assert Byte(w, p) == if pos <= p < pos + |d| then d[p - pos] else Byte(v, p);
    }
  }

  /** Zeros past the end of a write survive every part of the write before them. */
  lemma TailStaysZero(v: Volume, w: Volume, start: nat, d: seq<byte>, position: nat, chunk: nat, end: nat, size: nat)
    requires Splices(v, w, start, d) && start + |d| <= position && size <= position && position + chunk <= end
    requires OffsetOf(position) == 0 && (chunk < BLOCK_SIZE ==> position + chunk == end)
    requires forall p: nat :: p >= end && p >= size ==> Byte(v, p) == 0
    ensures forall o: nat :: chunk <= o < BLOCK_SIZE ==> ByteAt(w, BlockOf(position), o) == 0
  {
    forall o: nat | chunk <= o < BLOCK_SIZE ensures ByteAt(w, BlockOf(position), o) == 0 {
      SameBlockAhead(position, o);
      assert Byte(w, position + o) == Byte(v, position + o);
    }
  }

  /** Every position before `end` has a place in the zone tree. */
  ghost predicate Fits(end: nat) {
    forall p: nat :: p < end ==> Mappable(BlockOf(p))
  }

  ghost predicate ZeroFrom(v: Volume, end: nat) {
    forall p: nat :: p >= end ==> Byte(v, p) == 0
  }

  /** A write of `d` at `pos` to a plain sequence of bytes, zero-filling any gap. */
  function WriteAt(c: seq<byte>, pos: nat, d: seq<byte>): (r: seq<byte>)
    ensures |r| == if pos + |d| > |c| then pos + |d| else |c|
  {
    var len := if pos + |d| > |c| then pos + |d| else |c|;
    seq(len, i requires 0 <= i < len => if pos <= i < pos + |d| then d[i - pos] else if i < |c| then c[i] else 0)
  }

  /** A read of `n` bytes at `pos` stops at the end of the sequence. */
  function ReadAt(c: seq<byte>, pos: nat, n: nat): seq<byte> {
    if pos >= |c| then [] else if pos + n <= |c| then c[pos..pos + n] else c[pos..]
  }

  /** A write is read back exactly, leaves the rest alone and turns the gap into zeros. */
  lemma ReadBack(c: seq<byte>, pos: nat, d: seq<byte>)
    ensures ReadAt(WriteAt(c, pos, d), pos, |d|) == d
    ensures pos <= |c| ==> ReadAt(WriteAt(c, pos, d), 0, pos) == c[..pos]
    ensures pos > |c| ==> ReadAt(WriteAt(c, pos, d), 0, pos) == c + Zeros(pos - |c|)
    ensures pos + |d| <= |c| ==> WriteAt(c, pos, d)[pos + |d|..] == c[pos + |d|..]
  {
  }

  /** A write of nothing, as when space runs out at once, leaves the file as it was exactly if it
      begins within the file; past the end it moves the end. */
  lemma EmptyWrite(c: seq<byte>, pos: nat)
    ensures WriteAt(c, pos, []) == c <==> pos <= |c|
    ensures pos > |c| ==> WriteAt(c, pos, []) == c + Zeros(pos - |c|)
  {
  }

  lemma {:induction false} BlockStart(p: nat)
    ensures p == BLOCK_SIZE * BlockOf(p) + OffsetOf(p)
  {
    QuotientRemainder(p, BLOCK_SIZE);
  }

  /** Past the end of a block comes the next one. */
  lemma {:induction false} NextBlock(p: nat)
    ensures BlockOf(p + (BLOCK_SIZE - OffsetOf(p))) == BlockOf(p) + 1
    decreases p
  {
    if p >= BLOCK_SIZE {
      NextBlock(p - BLOCK_SIZE);
    } else {
      assert OffsetOf(p) == p && BlockOf(0) == 0;
    }
  }

  /** The block after the last one that a run of `n` bytes from `p` on touches. */
  function EndBlock(p: nat, n: nat): nat {
    if n == 0 then BlockOf(p) else BlockOf(p + n - 1) + 1
  }

  lemma {:induction false} BlocksGrow(p: nat, q: nat)
    requires p <= q
    ensures BlockOf(p) <= BlockOf(q)
    decreases p
  {
    if p >= BLOCK_SIZE {
      BlocksGrow(p - BLOCK_SIZE, q - BLOCK_SIZE);
    }
  }

  lemma AtLeastOne(p: nat, n: nat)
    requires n > 0
    ensures BlockOf(p) < EndBlock(p, n)
  {
    BlocksGrow(p, p + n - 1);
  }

  /** Where a run goes on after its first chunk. */
  lemma AfterChunk(p: nat, left: nat, chunk: nat)
    requires 0 < chunk <= left && chunk == if left < BLOCK_SIZE - OffsetOf(p) then left else BLOCK_SIZE - OffsetOf(p)
    ensures chunk < left ==> BlockOf(p + chunk) == BlockOf(p) + 1
    ensures chunk == left ==> EndBlock(p, left) == BlockOf(p) + 1
    ensures EndBlock(p + chunk, left - chunk) == EndBlock(p, left) || chunk == left
  {
    if chunk == left {
      SameBlockAhead(p, left - 1);
    } else {
      NextBlock(p);
    }
  }

  /** Positions from `p` to the end of its block share that block. */
  lemma {:induction false} SameBlockAhead(p: nat, k: nat)
    requires OffsetOf(p) + k < BLOCK_SIZE
    ensures BlockOf(p + k) == BlockOf(p) && OffsetOf(p + k) == OffsetOf(p) + k
    decreases p
  {
    if p >= BLOCK_SIZE {
      SameBlockAhead(p - BLOCK_SIZE, k);
    }
  }

  /** Within one block, distance between positions is distance between offsets. */
  lemma SameBlockDistance(p: nat, q: nat)
    requires BlockOf(p) == BlockOf(q)
    ensures p - q == OffsetOf(p) - OffsetOf(q)
  {
    BlockStart(p);
    BlockStart(q);
  }

  /** Replacing `d` inside one block replaces the same run of positions. */
  lemma SpliceInBlock(v: Volume, w: Volume, pos: nat, d: seq<byte>, b: seq<byte>)
    requires OffsetOf(pos) + |d| <= BLOCK_SIZE && |b| == BLOCK_SIZE
    requires forall o :: 0 <= o < BLOCK_SIZE ==>
      b[o] == if OffsetOf(pos) <= o < OffsetOf(pos) + |d| then d[o - OffsetOf(pos)]
              else ByteAt(v, BlockOf(pos), o)
    requires BlockBecomes(v, w, BlockOf(pos), b)
    ensures Splices(v, w, pos, d)
  {
    forall p: nat ensures Byte(w, p) == if pos <= p < pos + |d| then d[p - pos] else Byte(v, p) {
      if pos <= p < pos + |d| {
        SameBlockAhead(pos, p - pos);
      } else if BlockOf(p) == BlockOf(pos) {
        SameBlockDistance(p, pos);
      }
    }
  }

  /** Overwriting the zone of block `n` changes that block of the file and no other. */
  lemma OverwriteBlock(v: Volume, n: nat, b: seq<byte>, inUse: set<nat>, others: set<nat>)
    requires Owned(v, inUse, others, {}) && Mappable(n) && Ref(v, PlaceOf(n)) != NO_ZONE && |b| == BLOCK_SIZE
    ensures var w := v.(disk := v.disk[Ref(v, PlaceOf(n)) := b]);
            && Owned(w, inUse, others, {}) && SameRefs(v, w) && BlockBecomes(v, w, n, b)
  {
    var z := Ref(v, PlaceOf(n));
    var w := v.(disk := v.disk[z := b]);
    OverwriteOwned(v, z, b, inUse, others, {});
    forall m: nat, o: nat | o < BLOCK_SIZE
      ensures ByteAt(w, m, o) == if m == n then b[o] else ByteAt(v, m, o)
    {
      if Mappable(m) {
        if m != n && PlaceOf(m) == PlaceOf(n) {
          PlaceOfInjective(m, n);
        }
      } else {
        NoPlace(v, m);
        NoPlace(w, m);
      }
    }
  }

  /** The first `size` bytes of the file. */
  function Prefix(v: Volume, size: nat): (c: seq<byte>)
    ensures |c| == size
  {
    seq(size, p requires 0 <= p < size => Byte(v, p))
  }

  function Larger(a: nat, b: nat): nat {
    if a > b then a else b
  }

  /** Splicing into a zero-padded volume is a write to the plain sequence it stands for. */
  lemma SpliceIsWriteAt(v: Volume, w: Volume, size: nat, pos: nat, d: seq<byte>)
    requires Splices(v, w, pos, d) && ZeroFrom(v, size)
    ensures ZeroFrom(w, Larger(size, pos + |d|))
    ensures Prefix(w, Larger(size, pos + |d|)) == WriteAt(Prefix(v, size), pos, d)
  {
    var l, r := Prefix(w, Larger(size, pos + |d|)), WriteAt(Prefix(v, size), pos, d);
    forall i | 0 <= i < |l| ensures l[i] == r[i] {
      assert Byte(w, i) == if pos <= i < pos + |d| then d[i - pos] else Byte(v, i);
    }
  }

  lemma ReadIsReadAt(v: Volume, size: nat, pos: nat, n: nat, out: seq<byte>)
    requires |out| == if pos >= size then 0 else if pos + n <= size then n else size - pos
    requires forall i :: 0 <= i < |out| ==> out[i] == Byte(v, pos + i)
    ensures out == ReadAt(Prefix(v, size), pos, n)
  {
  }

  /** An inode whose zone array is all zeros maps nothing. */
  lemma EmptyTree(v: Volume, p: Place)
    requires v.area == Zeros(AREA_SIZE) && InBounds(p)
    ensures Ref(v, p) == NO_ZONE
  {
    forall i: nat | i < NR_TZONES ensures SlotWord(v, i) == NO_ZONE {
      WordOfZeros(v.area, i);
    }
  }

  lemma EmptyTreeOwned(v: Volume, others: set<nat>)
    requires v.area == Zeros(AREA_SIZE) && Formatted(v) && NO_ZONE !in others
    ensures Owned(v, others, others, {})
    ensures forall n: nat, o: nat :: ByteAt(v, n, o) == 0
  {
    forall p | InBounds(p) ensures Ref(v, p) == NO_ZONE {
      EmptyTree(v, p);
    }
    forall n: nat, o: nat ensures ByteAt(v, n, o) == 0 {
      if !Mappable(n) {
        NoPlace(v, n);
      }
    }
  }

  /** An immediate file hands back all of itself to a read below its end, whatever was asked; that
      is the right answer exactly when the whole file was asked for. */
  lemma WholeReadAgrees(c: seq<byte>, pos: nat, n: nat)
    ensures (if pos < |c| then c else []) == ReadAt(c, pos, n) <==> pos >= |c| || (pos == 0 && n >= |c|)
  {
    if pos < |c| && (pos > 0 || n < |c|) {
      assert |ReadAt(c, pos, n)| != |c|;
    }
  }

  datatype Request = Request(pos: nat, data: seq<byte>)

  /** The plain sequence after a run of writes. */
  function WriteSeq(c: seq<byte>, reqs: seq<Request>): seq<byte> {
    if reqs == [] then c
    else WriteAt(WriteSeq(c, reqs[..|reqs| - 1]), reqs[|reqs| - 1].pos, reqs[|reqs| - 1].data)
  }
}
