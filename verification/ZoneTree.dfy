/** The zone tree of one inode: seven direct slots, a single indirect block and a double
    indirect block, held in the inode's zone array and in index blocks on the disk. */
module ZoneTree {
  import opened Words

  type BlockSize = n: nat | n > 32 && n % 4 == 0 witness 4096
  type ZoneCount = n: nat | n <= WORD_LIMIT
  type FirstZone = n: nat | n > 0 witness 1

  // Superblock fields; every result holds for every value they may take.
  const BLOCK_SIZE: BlockSize
  const NR_ZONES: ZoneCount
  const FIRST_DATA_ZONE: FirstZone

  const NR_DZONES := 7
  const NR_TZONES := 10
  const AREA_SIZE := 4 * NR_TZONES
  const NR_INDIRECTS := BLOCK_SIZE / 4

  const NO_ZONE := 0

  /** The bytes of the inode's zone array and the contents of the disk blocks. */
  datatype Volume = Volume(area: seq<byte>, disk: map<nat, seq<byte>>)

  /** A place that holds a zone number: a slot of the inode, an entry of the single indirect
      block, an entry of the double indirect block, or an entry of one of its children. */
  datatype Place = Slot(i: nat) | Single(j: nat) | Middle(i: nat) | Leaf(i: nat, j: nat)

  predicate InBounds(p: Place) {
    match p
    case Slot(i) => i < NR_DZONES + 2
    case Single(j) => j < NR_INDIRECTS
    case Middle(i) => i < NR_INDIRECTS
    case Leaf(i, j) => i < NR_INDIRECTS && j < NR_INDIRECTS
  }

  predicate IsIndex(p: Place) {
    p == Slot(NR_DZONES) || p == Slot(NR_DZONES + 1) || p.Middle?
  }

  function Container(p: Place): Place
    requires !p.Slot?
  {
    match p
    case Single(_) => Slot(NR_DZONES)
    case Middle(_) => Slot(NR_DZONES + 1)
    case Leaf(i, _) => Middle(i)
  }

  function Index(p: Place): nat
    requires !p.Slot?
  {
    match p
    case Single(j) => j
    case Middle(i) => i
    case Leaf(_, j) => j
  }

  function Child(p: Place, j: nat): (c: Place)
    requires IsIndex(p)
    ensures !c.Slot? && Container(c) == p && Index(c) == j
  {
    match p
    case Slot(i) => if i == NR_DZONES then Single(j) else Middle(j)
    case Middle(i) => Leaf(i, j)
  }

  /** `p` holds an index block on the way to place `q`. */
  predicate Ancestor(p: Place, q: Place) {
    !q.Slot? && (p == Container(q) || (q.Leaf? && p == Slot(NR_DZONES + 1)))
  }

  predicate HasBlock(v: Volume, z: nat) {
    z in v.disk && |v.disk[z]| == BLOCK_SIZE
  }

  /** Entry `j` of index block `z`; an absent block has no entries. */
  function Entry(v: Volume, z: nat, j: nat): nat {
    if z != NO_ZONE && HasBlock(v, z) && j < NR_INDIRECTS then Word(v.disk[z], j) else NO_ZONE
  }

  function SlotWord(v: Volume, i: nat): nat {
    if |v.area| == AREA_SIZE && i < NR_TZONES then Word(v.area, i) else NO_ZONE
  }

  /** The zone number at a place, `NO_ZONE` when the index block that would hold it is absent. */
  function Ref(v: Volume, p: Place): nat {
    match p
    case Slot(i) => SlotWord(v, i)
    case Single(j) => Entry(v, SlotWord(v, NR_DZONES), j)
    case Middle(i) => Entry(v, SlotWord(v, NR_DZONES + 1), i)
    case Leaf(i, j) => Entry(v, Entry(v, SlotWord(v, NR_DZONES + 1), i), j)
  }

  ghost predicate Referenced(v: Volume, z: nat) {
    exists p :: InBounds(p) && Ref(v, p) == z
  }

  /** No zone is referenced twice, and every referenced zone has a block of its own. */
  ghost predicate Separate(v: Volume) {
    && |v.area| == AREA_SIZE
    && (forall p :: InBounds(p) && Ref(v, p) != NO_ZONE ==>
          FIRST_DATA_ZONE <= Ref(v, p) < NR_ZONES && HasBlock(v, Ref(v, p)))
    && (forall p, q :: InBounds(p) && InBounds(q) && p != q && Ref(v, p) != NO_ZONE ==>
          Ref(v, p) != Ref(v, q))
  }

  predicate Writable(v: Volume, q: Place) {
    |v.area| == AREA_SIZE && InBounds(q) &&
    (q.Slot? || (Ref(v, Container(q)) != NO_ZONE && HasBlock(v, Ref(v, Container(q)))))
  }

  /** The volume after writing zone number `z` at place `q`. */
  function SetRef(v: Volume, q: Place, z: nat): Volume
    requires Writable(v, q)
  {
    if q.Slot? then
      v.(area := SetWord(v.area, q.i, z))
    else
      var c := Ref(v, Container(q));
      v.(disk := v.disk[c := SetWord(v.disk[c], Index(q), z)])
  }

  predicate ZeroedAt(v: Volume, z: nat) {
    HasBlock(v, z) && v.disk[z] == Zeros(BLOCK_SIZE)
  }

  ghost predicate Childless(v: Volume, q: Place) {
    IsIndex(q) ==> forall j :: 0 <= j < NR_INDIRECTS ==> Ref(v, Child(q, j)) == NO_ZONE
  }

  lemma EntryAfterSet(v: Volume, q: Place, z: nat, c: nat, k: nat)
    requires Writable(v, q) && z < WORD_LIMIT && c != NO_ZONE
    ensures Entry(SetRef(v, q, z), c, k) ==
            if !q.Slot? && c == Ref(v, Container(q)) && k == Index(q) then z else Entry(v, c, k)
  {
    var v' := SetRef(v, q, z);
    if !q.Slot? && HasBlock(v, c) && k < NR_INDIRECTS && c == Ref(v, Container(q)) {
      WordOfSetWord(v.disk[c], Index(q), z, k);
    }
  }

  lemma SlotAfterSet(v: Volume, q: Place, z: nat, k: nat)
    requires Writable(v, q) && z < WORD_LIMIT && k < NR_TZONES
    ensures SlotWord(SetRef(v, q, z), k) == if q == Slot(k) then z else SlotWord(v, k)
  {
    if q.Slot? {
      WordOfSetWord(v.area, q.i, z, k);
    }
  }

  /** Block `z`, read as an index block, holds no zone number. */
  ghost predicate NoEntries(v: Volume, z: nat) {
    forall k :: 0 <= k < NR_INDIRECTS ==> Entry(v, z, k) == NO_ZONE
  }

  lemma ZeroedEntries(v: Volume, z: nat)
    requires ZeroedAt(v, z)
    ensures NoEntries(v, z)
  {
    forall k: nat | k < NR_INDIRECTS ensures Entry(v, z, k) == NO_ZONE {
      WordOfZeros(v.disk[z], k);
    }
  }

  ghost predicate Attachable(v: Volume, q: Place, z: nat) {
    && Writable(v, q) && z < WORD_LIMIT
    && Childless(v, q)
    && (z != NO_ZONE ==> !Referenced(v, z))
    && (z != NO_ZONE && IsIndex(q) ==> NoEntries(v, z))
  }

  /** Writing a zone number at one place changes what is referenced there and nowhere else,
      provided the place has no children and a new index block starts out empty. */
  lemma SetRefAt(v: Volume, q: Place, z: nat, p: Place)
    requires Separate(v) && Attachable(v, q, z) && InBounds(p)
    ensures Ref(SetRef(v, q, z), p) == if p == q then z else Ref(v, p)
  {
    var v' := SetRef(v, q, z);
    if p.Slot? {
      SlotAfterSet(v, q, z, p.i);
    } else {
      var c := Container(p);
      assert Ref(v', c) == (if c == q then z else Ref(v, c)) by { SetRefContainer(v, q, z, c); }
      assert Ref(v', p) == Entry(v', Ref(v', c), Index(p));
      assert Ref(v, p) == Entry(v, Ref(v, c), Index(p));
      if c == q {
        assert Child(q, Index(p)) == p && Ref(v, p) == NO_ZONE;
        if z != NO_ZONE {
          EntryAfterSet(v, q, z, z, Index(p));
        }
      } else if Ref(v, c) != NO_ZONE {
        EntryAfterSet(v, q, z, Ref(v, c), Index(p));
      }
    }
  }

  /** The case of SetRefAt that its own induction needs: a place that can hold an index block. */
  lemma SetRefContainer(v: Volume, q: Place, z: nat, c: Place)
    requires Separate(v) && Attachable(v, q, z) && InBounds(c) && IsIndex(c)
    ensures Ref(SetRef(v, q, z), c) == if c == q then z else Ref(v, c)
  {
    if c.Slot? {
      SlotAfterSet(v, q, z, c.i);
    } else {
      SlotAfterSet(v, q, z, NR_DZONES + 1);
      var d := Slot(NR_DZONES + 1);
      if d == q {
        assert Ref(v, c) == Ref(v, Child(q, Index(c))) == NO_ZONE;
        if z != NO_ZONE {
          EntryAfterSet(v, q, z, z, Index(c));
        }
      } else if Ref(v, d) != NO_ZONE {
        EntryAfterSet(v, q, z, Ref(v, d), Index(c));
      }
    }
  }

  /** Changing the contents of a block that no index reference leads to keeps every reference. */
  lemma OverwriteAt(v: Volume, z: nat, b: seq<byte>, p: Place)
    requires |b| == BLOCK_SIZE && z != NO_ZONE && InBounds(p)
    requires forall c :: InBounds(c) && IsIndex(c) ==> Ref(v, c) != z
    ensures Ref(v.(disk := v.disk[z := b]), p) == Ref(v, p)
  {
    var v' := v.(disk := v.disk[z := b]);
    if !p.Slot? {
      var c := Container(p);
      assert Ref(v, c) != z;
      if !c.Slot? {
        assert Ref(v, Container(c)) != z;
      }
    }
  }
}
