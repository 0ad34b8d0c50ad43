/** The fixed-size-block allocator: blocks of 512 units inside word arrays, with the list of free units
    threaded through the units themselves and a tag word that names the owning block. */
module FSBAllocator {
  import opened Helpers

  const WORD_LIMIT: nat := 0x1_0000_0000_0000_0000
  const NONE: Word := 0xFFFF_FFFF_FFFF_FFFF
  const BLOCK_ELEMENTS: nat := 512

  type Word = w: nat | w < WORD_LIMIT

  /** Where unit u starts in a block whose units take up `unit` words. */
  function At(unit: nat, u: nat): nat {
    if u == 0 then 0 else At(unit, u - 1) + unit
  }

  lemma {:induction false} AtIsProduct(unit: nat, u: nat)
    ensures At(unit, u) == unit * u
  {
    if u > 0 {
      AtIsProduct(unit, u - 1);
      assert unit * u == unit * (u - 1) + unit;
    }
  }

  lemma {:induction false} UnitsInOrder(unit: nat, u: nat, v: nat)
    requires u < v
    ensures At(unit, u) + unit <= At(unit, v)
    decreases v
  {
    if u < v - 1 {
      UnitsInOrder(unit, u, v - 1);
    }
  }

  lemma UnitsApart(unit: nat)
    ensures forall u: nat, v: nat | u < v :: At(unit, u) + unit <= At(unit, v)
  {
    forall u: nat, v: nat | u < v ensures At(unit, u) + unit <= At(unit, v) {
      UnitsInOrder(unit, u, v);
    }
  }

  // ---------- a block, on values ----------

  /** The words of a block, the units handed out, and the units on the free list, first to last. */
  datatype Layout = Layout(words: seq<Word>, live: set<nat>, free: seq<nat>) {
    /** How many units have been handed out for the first time since the block was last empty. */
    ghost function Bumped(): nat {
      |live| + |free|
    }
  }

  /** The word that position i of a free list is reached through. */
  ghost function LinkTo(unit: nat, list: seq<nat>, i: nat): nat {
    if i < |list| then At(unit, list[i]) else NONE
  }

  ghost predicate CountsOk(b: Layout) {
    && b.Bumped() <= BLOCK_ELEMENTS
    && (b.live == {} ==> b.free == [])
    && (forall u | u in b.live :: u < b.Bumped())
    && (forall i | 0 <= i < |b.free| :: b.free[i] < b.Bumped() && b.free[i] !in b.live)
    && (forall i, j | 0 <= i < j < |b.free| :: b.free[i] != b.free[j])
  }

  ghost predicate SizeOk(unit: nat, b: Layout) {
    && 1 < unit && |b.words| == At(unit, BLOCK_ELEMENTS) < NONE
    && forall u: nat | u < BLOCK_ELEMENTS :: At(unit, u) + unit <= |b.words|
  }

  /** The first word of every free unit leads to the next one. */
  ghost predicate LinksOk(unit: nat, b: Layout)
    requires SizeOk(unit, b) && CountsOk(b)
  {
    forall i | 0 <= i < |b.free| :: b.words[At(unit, b.free[i])] == LinkTo(unit, b.free, i + 1)
  }

  /** The last word of every unit ever handed out names the block. */
  ghost predicate TagsOk(unit: nat, b: Layout, index: Word)
    requires SizeOk(unit, b) && CountsOk(b)
  {
    forall u: nat | u < b.Bumped() :: b.words[At(unit, u) + unit - 1] == index
  }

  ghost predicate BlockOk(unit: nat, b: Layout, index: Word) {
    SizeOk(unit, b) && CountsOk(b) && LinksOk(unit, b) && TagsOk(unit, b, index)
  }

  /** The words of a unit that belong to its user. */
  ghost function UserWords(unit: nat, b: Layout, u: nat): seq<Word>
  {
    if 0 < unit && At(unit, u) + unit <= |b.words| then b.words[At(unit, u)..At(unit, u) + unit - 1] else []
  }

  ghost predicate SameUserWords(unit: nat, b: Layout, b': Layout, units: set<nat>) {
    forall u | u in units && u < BLOCK_ELEMENTS :: UserWords(unit, b', u) == UserWords(unit, b, u)
  }

  /** Taking a unit that was never handed out since the block was empty. */
  lemma BumpKeepsOk(unit: nat, b: Layout, index: Word)
    requires BlockOk(unit, b, index) && b.free == [] && |b.live| < BLOCK_ELEMENTS
    ensures |b.live| !in b.live && At(unit, |b.live|) + unit <= |b.words|
    ensures var b' := Layout(b.words[At(unit, |b.live|) + unit - 1 := index], b.live + {|b.live|}, []);
      BlockOk(unit, b', index) && SameUserWords(unit, b, b', b.live)
  {
    UnitsApart(unit);
  }

  /** Taking the first unit of the free list. */
  lemma ReuseKeepsOk(unit: nat, b: Layout, index: Word)
    requires BlockOk(unit, b, index) && b.free != []
    ensures var b' := Layout(b.words, b.live + {b.free[0]}, b.free[1..]);
      BlockOk(unit, b', index) && SameUserWords(unit, b, b', b.live) && b'.Bumped() == b.Bumped()
    ensures b.free[0] !in b.live && b.free[0] < BLOCK_ELEMENTS && At(unit, b.free[0]) < |b.words|
    ensures b.words[At(unit, b.free[0])] == LinkTo(unit, b.free[1..], 0)
  {
    var b' := Layout(b.words, b.live + {b.free[0]}, b.free[1..]);
    assert b'.Bumped() == b.Bumped();
    hide At;
    forall i | 0 <= i < |b'.free| ensures b'.words[At(unit, b'.free[i])] == LinkTo(unit, b'.free, i + 1) {
      assert b'.free[i] == b.free[i + 1];
    }
  }

  /** The block after u has been put at the front of its free list. */
  ghost function Freed(unit: nat, b: Layout, u: nat): Layout
    requires SizeOk(unit, b) && CountsOk(b) && u < BLOCK_ELEMENTS
  {
    assert At(unit, u) + unit <= |b.words|;
    assert forall i | 0 <= i < |b.free| :: At(unit, b.free[i]) + unit <= |b.words|;
    Layout(b.words[At(unit, u) := LinkTo(unit, b.free, 0)], b.live - {u}, [u] + b.free)
  }

  lemma FreeKeepsCounts(unit: nat, b: Layout, u: nat)
    requires SizeOk(unit, b) && CountsOk(b) && u in b.live && |b.live| > 1
    ensures var b' := Freed(unit, b, u);
      SizeOk(unit, b') && CountsOk(b') && b'.Bumped() == b.Bumped()
  {
    hide At, LinkTo;
    var b' := Freed(unit, b, u);
    assert b'.live == b.live - {u} && b'.free == [u] + b.free;
    assert |b'.live| == |b.live| - 1;
    assert forall i | 0 <= i < |b.free| :: b'.free[i + 1] == b.free[i];
  }

  /** Putting a unit at the front of the free list. */
  lemma FreeKeepsOk(unit: nat, b: Layout, index: Word, u: nat)
    requires BlockOk(unit, b, index) && u in b.live && |b.live| > 1
    ensures BlockOk(unit, Freed(unit, b, u), index)
    ensures Freed(unit, b, u).Bumped() == b.Bumped()
  {
    hide At, SizeOk, CountsOk;
    FreeFacts(unit, b, u);
    FreeKeepsCounts(unit, b, u);
    var b' := Freed(unit, b, u);
    UnitsApart(unit);
    hide Freed, Layout.Bumped, LinkTo;
    assert LinksOk(unit, b') by {
      forall i | 0 <= i < |b'.free| ensures b'.words[At(unit, b'.free[i])] == LinkTo(unit, b'.free, i + 1) {
        LinkShift(unit, u, b.free, i);
        if i > 0 {
          var f := b.free[i - 1];
          assert b'.free[i] == f && f != u;
          assert At(unit, f) != At(unit, u);
          assert b.words[At(unit, f)] == LinkTo(unit, b.free, i);
        }
      }
    }
    assert TagsOk(unit, b', index) by {
      forall v: nat | v < b'.Bumped() ensures b'.words[At(unit, v) + unit - 1] == index {
        assert b.words[At(unit, v) + unit - 1] == index;
        assert At(unit, v) + unit - 1 != At(unit, u);
      }
    }
  }

  lemma LinkShift(unit: nat, u: nat, free: seq<nat>, i: nat)
    ensures LinkTo(unit, [u] + free, i + 1) == LinkTo(unit, free, i)
  {
  }

  lemma FreeFacts(unit: nat, b: Layout, u: nat)
    requires SizeOk(unit, b) && CountsOk(b) && u in b.live
    ensures unit > 1 && u < BLOCK_ELEMENTS
    ensures Freed(unit, b, u).live == b.live - {u} && Freed(unit, b, u).free == [u] + b.free
    ensures LinkTo(unit, b.free, 0) < WORD_LIMIT
    ensures Freed(unit, b, u).words == b.words[At(unit, u) := LinkTo(unit, b.free, 0)]
    ensures forall v: nat | v < BLOCK_ELEMENTS :: At(unit, v) + unit <= |b.words|
    ensures b.Bumped() <= BLOCK_ELEMENTS
    ensures At(unit, u) + unit <= |b.words|
    ensures forall i | 0 <= i < |b.free| :: b.free[i] != u && b.free[i] < BLOCK_ELEMENTS
  {
    hide At;
    assert b.free != [] ==> At(unit, b.free[0]) + unit <= |b.words|;
  }

  /** What is written into one unit shows in no other. */
  lemma WriteStaysInside(unit: nat, b: Layout, u: nat, i: nat, w: Word, v: nat)
    requires SizeOk(unit, b) && u < BLOCK_ELEMENTS && v < BLOCK_ELEMENTS && u != v && i < unit
    ensures At(unit, u) + unit <= |b.words|
    ensures SizeOk(unit, b.(words := b.words[At(unit, u) + i := w]))
    ensures UserWords(unit, b.(words := b.words[At(unit, u) + i := w]), v) == UserWords(unit, b, v)
  {
    hide At;
    UnitsApart(unit);
    assert At(unit, v) + unit <= |b.words|;
    if u < v {
      assert At(unit, u) + unit <= At(unit, v);
    } else {
      assert At(unit, v) + unit <= At(unit, u);
    }
  }

  /** Whatever a user writes into a unit, the block stays in order. */
  lemma WriteKeepsOk(unit: nat, b: Layout, index: Word, u: nat, i: nat, w: Word)
    requires BlockOk(unit, b, index) && u in b.live && i < unit - 1
    ensures At(unit, u) + unit <= |b.words|
    ensures BlockOk(unit, b.(words := b.words[At(unit, u) + i := w]), index)
    ensures UserWords(unit, b.(words := b.words[At(unit, u) + i := w]), u) == UserWords(unit, b, u)[i := w]
  {
    hide At, LinkTo;
    FreeFacts(unit, b, u);
    UnitsApart(unit);
    var b' := b.(words := b.words[At(unit, u) + i := w]);
    assert CountsOk(b') && b'.Bumped() == b.Bumped() by { hide SizeOk; }
    assert SizeOk(unit, b');
    hide CountsOk;
    assert LinksOk(unit, b') by {
      forall j | 0 <= j < |b.free| ensures b'.words[At(unit, b.free[j])] == LinkTo(unit, b.free, j + 1) {
        var f := b.free[j];
        assert f < u || u < f;
        assert At(unit, f) != At(unit, u) + i;
      }
    }
    assert TagsOk(unit, b', index) by {
      forall v: nat | v < b'.Bumped() ensures b'.words[At(unit, v) + unit - 1] == index {
        assert b.words[At(unit, v) + unit - 1] == index;
        assert At(unit, v) + unit - 1 != At(unit, u) + i;
      }
    }
  }

  lemma AtStep(unit: nat, u: nat)
    ensures At(unit, 0) == 0 && At(unit, u + 1) == At(unit, u) + unit
  {
  }

  lemma EndOfList(unit: nat, b: Layout)
    requires SizeOk(unit, b) && CountsOk(b)
    ensures |b.live| <= BLOCK_ELEMENTS
    ensures b.live == {} ==> b.free == []
    ensures LinkTo(unit, b.free, 0) == NONE <==> b.free == []
    ensures forall u | u in b.live :: u < BLOCK_ELEMENTS && At(unit, u) + unit <= |b.words|
  {
    hide At;
    assert b.free != [] ==> At(unit, b.free[0]) + unit <= |b.words|;
  }

  /** The last unit handed back: the block is as good as new. */
  lemma EmptyIsOk(unit: nat, words: seq<Word>, index: Word)
    requires SizeOk(unit, Layout(words, {}, []))
    ensures BlockOk(unit, Layout(words, {}, []), index)
  {
  }

  lemma NobodyElse(unit: nat, b: Layout, b': Layout)
    requires SizeOk(unit, b) && SizeOk(unit, b')
    ensures SameUserWords(unit, b, b', {})
  {
  }

  lemma FreeKeepsUserWords(unit: nat, b: Layout, u: nat)
    requires SizeOk(unit, b) && CountsOk(b) && u in b.live
    ensures SameUserWords(unit, b, Freed(unit, b, u), b.live - {u})
  {
    hide At, CountsOk, UserWords, LinkTo;
    FreeFacts(unit, b, u);
    var w: Word := LinkTo(unit, b.free, 0);
    var b' := Freed(unit, b, u);
    forall v | v in b.live - {u} && v < BLOCK_ELEMENTS ensures UserWords(unit, b', v) == UserWords(unit, b, v) {
      WriteStaysInside(unit, b, u, 0, w, v);
      WordsDecide(unit, b.(words := b.words[At(unit, u) + 0 := w]), b', v);
    }
  }

  lemma WordsDecide(unit: nat, b: Layout, b': Layout, u: nat)
    requires SizeOk(unit, b) && b.words == b'.words && u < BLOCK_ELEMENTS
    ensures SizeOk(unit, b') && UserWords(unit, b', u) == UserWords(unit, b, u)
  {
  }

  /** The fields of a block agree with what it holds. */
  ghost predicate FieldsOk(unit: nat, b: Layout, index: Word, amount: nat, first: Word, end: nat) {
    && BlockOk(unit, b, index)
    && amount == |b.live|
    && first == LinkTo(unit, b.free, 0)
    && (b.live != {} ==> end == At(unit, b.Bumped()))
  }

  lemma Bumping(unit: nat, b: Layout, index: Word, amount: nat, end: nat)
    requires FieldsOk(unit, b, index, amount, NONE, end) && amount != BLOCK_ELEMENTS
    ensures var start := if amount == 0 then 0 else end;
      && start == At(unit, amount) && start + unit <= |b.words| && 1 < unit && amount < BLOCK_ELEMENTS
      && amount !in b.live && b.free == []
      && var b' := Layout(b.words[start + unit - 1 := index], b.live + {amount}, []);
         FieldsOk(unit, b', index, amount + 1, NONE, start + unit) && SameUserWords(unit, b, b', b.live)
  {
    hide At, CountsOk, LinksOk, TagsOk, UserWords, SameUserWords;
    EndOfList(unit, b);
    BumpKeepsOk(unit, b, index);
    AtStep(unit, amount);
    var b' := Layout(b.words[At(unit, amount) + unit - 1 := index], b.live + {amount}, []);
    assert b'.Bumped() == amount + 1;
  }

  lemma Reusing(unit: nat, b: Layout, index: Word, amount: nat, first: Word, end: nat)
    requires FieldsOk(unit, b, index, amount, first, end) && first != NONE
    ensures b.free != [] && b.free[0] !in b.live && b.free[0] < BLOCK_ELEMENTS
    ensures first == At(unit, b.free[0]) && first < |b.words|
    ensures var b' := Layout(b.words, b.live + {b.free[0]}, b.free[1..]);
      FieldsOk(unit, b', index, amount + 1, b.words[first], end) && SameUserWords(unit, b, b', b.live)
  {
    hide At, CountsOk, LinksOk, TagsOk, UserWords, SameUserWords;
    EndOfList(unit, b);
    ReuseKeepsOk(unit, b, index);
  }

  lemma Writing(unit: nat, b: Layout, index: Word, u: nat, i: nat, w: Word, amount: nat, first: Word, end: nat)
    requires FieldsOk(unit, b, index, amount, first, end) && u in b.live && i < unit - 1
    ensures u < BLOCK_ELEMENTS && At(unit, u) + unit <= |b.words| && |UserWords(unit, b, u)| == unit - 1
    ensures var b' := b.(words := b.words[At(unit, u) + i := w]);
      && FieldsOk(unit, b', index, amount, first, end)
      && UserWords(unit, b', u) == UserWords(unit, b, u)[i := w]
      && forall v: nat | v < BLOCK_ELEMENTS && v != u :: UserWords(unit, b', v) == UserWords(unit, b, v)
  {
    hide At, CountsOk, SizeOk, LinksOk, TagsOk, LinkTo;
    EndOfList(unit, b);
    WriteKeepsOk(unit, b, index, u, i, w);
    forall v: nat | v < BLOCK_ELEMENTS && v != u
      ensures UserWords(unit, b.(words := b.words[At(unit, u) + i := w]), v) == UserWords(unit, b, v)
    {
      WriteStaysInside(unit, b, u, i, w, v);
    }
  }

  // ---------- a block, in memory ----------

  class MemBlock {
    const unit: nat
    const block: array<Word>
    var firstFreeUnitIndex: Word
    var allocatedElementsAmount: nat
    var endIndex: nat
    ghost var live: set<nat>
    ghost var free: seq<nat>

    ghost function Now(): Layout
      reads this, block
    {
      Layout(block[..], live, free)
    }

    ghost predicate Valid(index: Word)
      reads this, block
    {
      FieldsOk(unit, Now(), index, allocatedElementsAmount, firstFreeUnitIndex, endIndex)
    }

    constructor (unit: nat)
      requires 1 < unit && At(unit, BLOCK_ELEMENTS) < NONE
      ensures this.unit == unit && live == {} && allocatedElementsAmount == 0 && fresh(block)
      ensures forall index: Word :: Valid(index)
    {
      this.unit := unit;
      block := new Word[At(unit, BLOCK_ELEMENTS)];
      firstFreeUnitIndex := NONE;
      allocatedElementsAmount := 0;
      live, free := {}, [];
      new;
      UnitsApart(unit);
    }

    predicate IsFull()
      reads `allocatedElementsAmount
    {
      allocatedElementsAmount == BLOCK_ELEMENTS
    }

    method Clear()
      modifies `firstFreeUnitIndex
      ensures firstFreeUnitIndex == NONE
    {
      firstFreeUnitIndex := NONE;
    }

    /** Hands out a unit that was not handed out; nothing that belongs to a user changes. */
    method Allocate(vectorIndex: Word) returns (retval: nat, ghost u: nat)
      requires Valid(vectorIndex) && !IsFull()
      modifies this, block
      ensures Valid(vectorIndex)
      ensures u < BLOCK_ELEMENTS && u !in old(live) && live == old(live) + {u} && retval == At(unit, u)
      ensures allocatedElementsAmount == old(allocatedElementsAmount) + 1
      ensures SameUserWords(unit, old(Now()), Now(), old(live))
    {
      hide FieldsOk, SameUserWords, At;
      ghost var b := Now();
      if firstFreeUnitIndex == NONE {
        Bumping(unit, b, vectorIndex, allocatedElementsAmount, endIndex);
        u := allocatedElementsAmount;
        if allocatedElementsAmount == 0 {
          endIndex := 0;
        }
        retval := endIndex;
        endIndex := endIndex + unit;
        block[retval + unit - 1] := vectorIndex;
        allocatedElementsAmount := allocatedElementsAmount + 1;
        live := live + {u};
        assert Now() == Layout(b.words[retval + unit - 1 := vectorIndex], b.live + {u}, []);
      } else {
        Reusing(unit, b, vectorIndex, allocatedElementsAmount, firstFreeUnitIndex, endIndex);
        u := free[0];
        retval := firstFreeUnitIndex;
        firstFreeUnitIndex := block[retval];
        allocatedElementsAmount := allocatedElementsAmount + 1;
        live, free := live + {u}, free[1..];
        assert Now() == Layout(b.words, b.live + {u}, b.free[1..]);
      }
    }

    /** Takes back a unit that was handed out; what the other units hold stays. */
    method Deallocate(ptr: nat, ghost index: Word, ghost u: nat)
      requires Valid(index) && u in live && ptr == At(unit, u)
      modifies this, block
      ensures Valid(index) && live == old(live) - {u}
      ensures allocatedElementsAmount == old(allocatedElementsAmount) - 1
      ensures SameUserWords(unit, old(Now()), Now(), live)
    {
      hide At, CountsOk, LinksOk, TagsOk, UserWords, SameUserWords, Freed;
      ghost var b := Now();
      EndOfList(unit, b);
      FreeFacts(unit, b, u);
      FreeKeepsUserWords(unit, b, u);
      block[ptr] := firstFreeUnitIndex;
      firstFreeUnitIndex := ptr;
      allocatedElementsAmount := allocatedElementsAmount - 1;
      live, free := live - {u}, [u] + free;
      assert Now() == Freed(unit, b, u);
      if allocatedElementsAmount == 0 {
        Clear();
        free := [];
        EmptyIsOk(unit, block[..], index);
        NobodyElse(unit, b, Now());
      } else {
        FreeKeepsOk(unit, b, index, u);
      }
    }
  }

  // ---------- the allocator ----------

  datatype Ptr = Null | Ptr(block: array<Word>, offset: nat)

  datatype Allocation = Allocated(ptr: Ptr) | TooManyBlocks

  /** Which unit of which block a pointer stands for. */
  datatype Place = Place(block: nat, u: nat)

  /** Every block with room is listed once and no full block is listed; lives[i] are the units of block i in use. */
  ghost predicate RoomOk(lives: seq<set<nat>>, room: seq<nat>) {
    && (forall k | 0 <= k < |room| :: room[k] < |lives|)
    && (forall k, l | 0 <= k < l < |room| :: room[k] != room[l])
    && (forall i | 0 <= i < |lives| :: i in room <==> |lives[i]| != BLOCK_ELEMENTS)
  }

  ghost predicate AllFull(lives: seq<set<nat>>) {
    forall i | 0 <= i < |lives| :: |lives[i]| == BLOCK_ELEMENTS
  }

  lemma NoRoom(lives: seq<set<nat>>, room: seq<nat>)
    requires RoomOk(lives, room)
    ensures room == [] <==> AllFull(lives)
  {
    assert room != [] ==> room[0] in room;
  }

  lemma RoomInNewBlock(lives: seq<set<nat>>)
    requires RoomOk(lives, [])
    ensures RoomOk(lives + [{}], [|lives|])
  {
  }

  lemma RoomAfterTaking(lives: seq<set<nat>>, room: seq<nat>, s: set<nat>)
    requires RoomOk(lives, room) && room != []
    ensures room[|room| - 1] < |lives| && |lives[room[|room| - 1]]| != BLOCK_ELEMENTS
    ensures RoomOk(lives[room[|room| - 1] := s], if |s| == BLOCK_ELEMENTS then room[..|room| - 1] else room)
  {
    var i := room[|room| - 1];
    assert i in room;
    var room' := if |s| == BLOCK_ELEMENTS then room[..|room| - 1] else room;
    forall j | 0 <= j < |lives| && j != i ensures j in room' <==> j in room {
      if j in room {
        var k :| 0 <= k < |room| && room[k] == j;
        assert room'[k] == j;
      }
    }
  }

  lemma RoomAfterGiving(lives: seq<set<nat>>, room: seq<nat>, i: nat, s: set<nat>)
    requires RoomOk(lives, room) && i < |lives| && |s| != BLOCK_ELEMENTS
    ensures RoomOk(lives[i := s], if |lives[i]| == BLOCK_ELEMENTS then room + [i] else room)
  {
  }

  /** The live pointers are exactly the units in use. */
  ghost predicate PointersOk(unit: nat, arrays: seq<array<Word>>, lives: seq<set<nat>>, live: map<Ptr, Place>) {
    && |arrays| == |lives|
    && (forall p | p in live :: live[p].block < |arrays| && live[p].u in lives[live[p].block]
          && p == Ptr(arrays[live[p].block], At(unit, live[p].u)))
    && (forall i, u | 0 <= i < |arrays| && u in lives[i] ::
          Ptr(arrays[i], At(unit, u)) in live && live[Ptr(arrays[i], At(unit, u))] == Place(i, u))
  }

  lemma PointersInNewBlock(unit: nat, arrays: seq<array<Word>>, lives: seq<set<nat>>, live: map<Ptr, Place>,
                           a: array<Word>)
    requires PointersOk(unit, arrays, lives, live)
    ensures PointersOk(unit, arrays + [a], lives + [{}], live)
  {
    hide At;
  }

  lemma NamedByPlace(unit: nat, arrays: seq<array<Word>>, lives: seq<set<nat>>, live: map<Ptr, Place>, at: Place)
    requires PointersOk(unit, arrays, lives, live) && Distinct(arrays) && 0 < unit
    requires at.block < |lives| && Ptr(arrays[at.block], At(unit, at.u)) in live
    ensures at.u in lives[at.block]
  {
    hide At;
    UnitsApart(unit);
    var q := live[Ptr(arrays[at.block], At(unit, at.u))];
    assert q.block == at.block;
    assert !(q.u < at.u) && !(at.u < q.u);
  }

  lemma PointersAfterTaking(unit: nat, arrays: seq<array<Word>>, lives: seq<set<nat>>, live: map<Ptr, Place>, at: Place)
    requires PointersOk(unit, arrays, lives, live) && Distinct(arrays) && 0 < unit
    requires at.block < |lives| && at.u !in lives[at.block]
    ensures Ptr(arrays[at.block], At(unit, at.u)) !in live
    ensures PointersOk(unit, arrays, lives[at.block := lives[at.block] + {at.u}],
                       live[Ptr(arrays[at.block], At(unit, at.u)) := at])
  {
    hide At;
    UnitsApart(unit);
    if Ptr(arrays[at.block], At(unit, at.u)) in live {
      NamedByPlace(unit, arrays, lives, live, at);
    }
  }

  lemma PointersAfterGiving(unit: nat, arrays: seq<array<Word>>, lives: seq<set<nat>>, live: map<Ptr, Place>, p: Ptr)
    requires PointersOk(unit, arrays, lives, live) && p in live
    ensures live[p].block < |lives|
    ensures PointersOk(unit, arrays, lives[live[p].block := lives[live[p].block] - {live[p].u}], live - {p})
  {
    hide At;
  }

  lemma PointersDistinct(unit: nat, arrays: seq<array<Word>>, lives: seq<set<nat>>, live: map<Ptr, Place>, p: Ptr)
    requires PointersOk(unit, arrays, lives, live) && p in live
    ensures forall q | q in live && q != p && live[q].block == live[p].block :: live[q].u != live[p].u
  {
    hide At;
  }

  /** Two live pointers name memory that does not overlap. */
  lemma LiveUnitsDoNotOverlap(unit: nat, arrays: seq<array<Word>>, lives: seq<set<nat>>, live: map<Ptr, Place>,
                              p: Ptr, q: Ptr)
    requires PointersOk(unit, arrays, lives, live) && Distinct(arrays)
    requires p in live && q in live && p != q && p.block == q.block
    ensures p.offset + unit <= q.offset || q.offset + unit <= p.offset
  {
    hide At;
    UnitsApart(unit);
    assert live[p].block == live[q].block;
    assert live[p].u < live[q].u || live[q].u < live[p].u;
  }

  class Allocator {
    const unit: nat
    const maxElem: nat
    var blocks: seq<MemBlock>
    var blocksWithFree: seq<nat>
    ghost var arrays: seq<array<Word>>
    ghost var lives: seq<set<nat>>
    ghost var live: map<Ptr, Place>

    ghost predicate BlockAt(i: nat)
      requires i < |blocks| == |arrays| == |lives| && i < WORD_LIMIT
      reads `blocks, `arrays, `lives, blocks[i], blocks[i].block
    {
      && blocks[i].unit == unit && blocks[i].block == arrays[i] && blocks[i].live == lives[i]
      && blocks[i].allocatedElementsAmount == |lives[i]| && blocks[i].Valid(i)
    }

    ghost predicate BlocksOk()
      reads `blocks, `arrays, `lives, blocks, arrays
    {
      && |arrays| == |lives| == |blocks| < WORD_LIMIT && Distinct(blocks) && Distinct(arrays)
      && (forall i | 0 <= i < |blocks| :: blocks[i].block == arrays[i])
      && (forall i | 0 <= i < |blocks| :: BlockAt(i))
    }

    ghost predicate Sound()
      reads `blocks, `arrays, `lives, `live, blocks, arrays
    {
      1 < unit && At(unit, BLOCK_ELEMENTS) < NONE && BlocksOk() && PointersOk(unit, arrays, lives, live)
    }

    ghost predicate Valid()
      reads this, blocks, arrays
    {
      Sound() && RoomOk(lives, blocksWithFree)
    }

    constructor (elemSize: nat, maxElem: nat)
      requires 0 < elemSize && ((elemSize + 7) / 8 + 1) * BLOCK_ELEMENTS < NONE
      ensures Valid() && live == map[] && blocks == [] && this.maxElem == maxElem
      ensures (unit - 1) * 8 >= elemSize > (unit - 2) * 8
    {
      AtIsProduct((elemSize + 7) / 8 + 1, BLOCK_ELEMENTS);
      unit := (elemSize + 7) / 8 + 1;
      this.maxElem := maxElem;
      blocks, blocksWithFree, arrays, lives, live := [], [], [], [], map[];
    }

    method AddBlock()
      requires Valid() && |blocks| < WORD_LIMIT - 1 && blocksWithFree == []
      modifies `blocks, `blocksWithFree, `arrays, `lives
      ensures Valid() && |blocks| == old(|blocks|) + 1 && blocks[..old(|blocks|)] == old(blocks)
      ensures blocksWithFree == [old(|blocks|)]
      ensures arrays[..old(|blocks|)] == old(arrays)
      ensures fresh(blocks[old(|blocks|)]) && fresh(arrays[old(|blocks|)])
    {
      hide FieldsOk, At, RoomOk, PointersOk, MemBlock.Valid;
      RoomInNewBlock(lives);
      blocksWithFree := [|blocks|];
      var b := new MemBlock(unit);
      PointersInNewBlock(unit, arrays, lives, live, b.block);
      blocks := blocks + [b];
      arrays, lives := arrays + [b.block], lives + [{}];
      forall i | 0 <= i < |blocks| ensures BlockAt(i) {
        assert i < |blocks| - 1 ==> old(BlockAt(i));
      }
    }

    /** The words the user of a pointer may write. */
    ghost function Words(p: Ptr): seq<Word>
      reads if p.Ptr? then {p.block} else {}
    {
      if p.Ptr? && 0 < unit && p.offset + unit <= p.block.Length then p.block[p.offset..p.offset + unit - 1] else []
    }

    lemma PlaceFits(p: Ptr)
      requires Sound() && p in live
      ensures var at := live[p];
        && at.block < |blocks| && at.u in blocks[at.block].live && at.u < BLOCK_ELEMENTS
        && p == Ptr(arrays[at.block], At(unit, at.u)) && p.offset + unit <= p.block.Length
        && |lives[at.block]| <= BLOCK_ELEMENTS
        && blocks[at.block].unit == unit && SizeOk(unit, blocks[at.block].Now())
        && Words(p) == UserWords(unit, blocks[at.block].Now(), at.u)
    {
      hide At;
      var at := live[p];
      assert BlockAt(at.block);
      EndOfList(unit, blocks[at.block].Now());
    }

    /** The last word of a live unit is the number of its block. */
    lemma ReadTag(p: Ptr)
      requires Valid() && p in live
      ensures p.Ptr? && unit > 0 && p.offset + unit <= p.block.Length
      ensures p.block[p.offset + unit - 1] == live[p].block < |blocks|
    {
      hide At;
      PlaceFits(p);
      var at := live[p];
      assert BlockAt(at.block);
      assert TagsOk(unit, blocks[at.block].Now(), at.block);
    }

    lemma NullIsNotLive()
      requires Valid()
      ensures Null !in live
    {
    }

    method TakeUnit(index: nat) returns (p: Ptr)
      requires Sound() && index < |blocks| && |lives[index]| != BLOCK_ELEMENTS
      modifies `lives, `live, blocks[index], arrays[index]
      ensures Sound() && |lives| == old(|lives|) && lives == old(lives)[index := lives[index]]
      ensures blocks[index].IsFull() <==> |lives[index]| == BLOCK_ELEMENTS
      ensures p.Ptr? && p !in old(live) && live.Keys == old(live.Keys) + {p}
      ensures forall q | q in old(live) :: Words(q) == old(Words(q))
    {
      hide At, FieldsOk, PointersOk, RoomOk, MemBlock.Valid, UserWords, SizeOk;
      ghost var l := live;
      assert BlockAt(index);
      forall q | q in live && live[q].block == index
        ensures Words(q) == UserWords(unit, blocks[index].Now(), live[q].u) && live[q].u in blocks[index].live
      {
        PlaceFits(q);
      }
      label Before:
      var retval, u := blocks[index].Allocate(index);
      p := Ptr(blocks[index].block, retval);
      PointersAfterTaking(unit, arrays, lives, live, Place(index, u));
      live := live[p := Place(index, u)];
      lives := lives[index := blocks[index].live];
      forall i | 0 <= i < |blocks| ensures BlockAt(i) {
        assert old@Before(BlockAt(i));
      }
      forall q | q in l ensures Words(q) == old(Words(q)) {
        PlaceFits(q);
        assert live[q] == l[q];
        if l[q].block != index {
          assert q.block != arrays[index];
        }
      }
    }

    method GiveUnit(index: nat, p: Ptr)
      requires Sound() && p in live && live[p].block == index < |blocks| && p.Ptr?
      modifies `lives, `live, blocks[index], arrays[index]
      ensures Sound() && lives == old(lives)[index := old(lives[index] - {live[p].u})]
      ensures live == old(live) - {p}
      ensures forall q | q in live :: Words(q) == old(Words(q))
    {
      hide At, FieldsOk, PointersOk, RoomOk, MemBlock.Valid, UserWords, SizeOk;
      PlaceFits(p);
      ghost var at, l := live[p], live;
      assert BlockAt(index);
      forall q | q in live && live[q].block == index
        ensures Words(q) == UserWords(unit, blocks[index].Now(), live[q].u) && live[q].u in blocks[index].live
      {
        PlaceFits(q);
      }
      PointersDistinct(unit, arrays, lives, live, p);
      blocks[index].Deallocate(p.offset, index, at.u);
      PointersAfterGiving(unit, arrays, lives, live, p);
      live := live - {p};
      lives := lives[index := blocks[index].live];
      forall i | 0 <= i < |blocks| ensures BlockAt(i) {
        assert old(BlockAt(i));
      }
      forall q | q in live ensures Words(q) == old(Words(q)) {
        PlaceFits(q);
        assert live[q] == l[q];
        if l[q].block != index {
          assert q.block != arrays[index];
        }
      }
    }

    /** A pointer to a unit nobody holds; a new block is made only when every block is full. */
    method Allocate() returns (r: Allocation)
      requires Valid() && |blocks| < WORD_LIMIT - 1
      modifies this, blocks, arrays
      ensures Valid()
      ensures |blocks| == old(|blocks|) + if old(AllFull(lives)) then 1 else 0
      ensures r.TooManyBlocks? <==> old(AllFull(lives)) && maxElem != 0 && |blocks| * BLOCK_ELEMENTS > maxElem
      ensures old(blocks) <= blocks && old(arrays) <= arrays
      ensures forall i | old(|blocks|) <= i < |blocks| :: fresh(blocks[i]) && fresh(arrays[i])
      ensures r.TooManyBlocks? ==> live == old(live)
      ensures r.Allocated? ==> r.ptr.Ptr? && r.ptr !in old(live) && live.Keys == old(live.Keys) + {r.ptr}
      ensures forall q | q in old(live) :: Words(q) == old(Words(q))
    {
      hide At, FieldsOk, PointersOk, RoomOk, MemBlock.Valid, Words, BlockAt, AllFull;
      NoRoom(lives, blocksWithFree);
      if blocksWithFree == [] {
        AddBlock();
        if maxElem != 0 && |blocks| * BLOCK_ELEMENTS > maxElem {
          return TooManyBlocks;
        }
      }
      RoomAfterTaking(lives, blocksWithFree, {});
      var index := blocksWithFree[|blocksWithFree| - 1];
      ghost var lives0 := lives;
      var p := TakeUnit(index);
      RoomAfterTaking(lives0, blocksWithFree, lives[index]);
      if blocks[index].IsFull() {
        blocksWithFree := blocksWithFree[..|blocksWithFree| - 1];
      }
      r := Allocated(p);
    }

    /** Hands a unit back to the block its tag word names; null is ignored. */
    method Deallocate(p: Ptr)
      requires Valid() && (p.Null? || p in live)
      modifies `blocksWithFree, `lives, `live, blocks, arrays
      ensures Valid()
      ensures live == old(live) - {p}
      ensures forall q | q in live :: Words(q) == old(Words(q))
    {
      hide At, FieldsOk, PointersOk, RoomOk, MemBlock.Valid, UserWords, SizeOk;
      if p.Null? {
        NullIsNotLive();
        return;
      }
      ReadTag(p);
      PlaceFits(p);
      var index := p.block[p.offset + unit - 1];
      assert BlockAt(index);
      RoomAfterGiving(lives, blocksWithFree, index, lives[index] - {live[p].u});
      if blocks[index].IsFull() {
        blocksWithFree := blocksWithFree + [index];
      }
      GiveUnit(index, p);
    }

    /** A user writes one of the words that belong to a live unit. */
    method Store(p: Ptr, i: nat, w: Word)
      requires Valid() && p in live && p.Ptr? && i < unit - 1
      modifies p.block
      ensures Valid() && |old(Words(p))| == unit - 1 && Words(p) == old(Words(p))[i := w]
      ensures forall q | q in live && q != p :: Words(q) == old(Words(q))
    {
      hide At, PointersOk, RoomOk, UserWords, SizeOk, FieldsOk;
      ghost var at := live[p];
      PlaceFits(p);
      forall q | q in live && live[q].block == at.block
        ensures Words(q) == UserWords(unit, blocks[at.block].Now(), live[q].u) && live[q].u < BLOCK_ELEMENTS
      {
        PlaceFits(q);
      }
      assert BlockAt(at.block);
      PointersDistinct(unit, arrays, lives, live, p);
      ghost var b := blocks[at.block].Now();
      Writing(unit, b, at.block, at.u, i, w, |lives[at.block]|, blocks[at.block].firstFreeUnitIndex,
          blocks[at.block].endIndex);
      p.block[p.offset + i] := w;
      assert blocks[at.block].Now() == b.(words := b.words[At(unit, at.u) + i := w]);
      forall j | 0 <= j < |blocks| ensures BlockAt(j) {
        assert old(BlockAt(j));
      }
      forall q | q in live && q != p ensures Words(q) == old(Words(q)) {
        PlaceFits(q);
        if live[q].block != at.block {
          assert q.block != p.block;
        }
      }
      PlaceFits(p);
    }
  }
}
