/** The double-ended ring buffer of lib/ring_queue.js, which backs the pool and the command queue,
    proved to behave as a list. */
module RingQueues {
  import opened BitMasks
  import opened Maybes

  /** A JavaScript array slot: `undefined` is also a value that callers may store. */
  datatype Slot<+T> = Undefined | Item(value: T)

  const MIN_SHRINK_TAIL: nat := 10000

  predicate IsInt32(n: int) {
    -0x8000_0000 <= n < 0x8000_0000
  }

  // ---------------------------------------------------------------- list operations

  function Min(a: int, b: int): int {
    if a < b then a else b
  }

  /** `Array.prototype.splice` for a start inside the list: the list afterwards. */
  function Spliced<T>(s: seq<T>, start: nat, count: nat, items: seq<T>): seq<T>
    requires start <= |s|
  {
    s[..start] + items + s[Min(start + count, |s|)..]
  }

  /** `Array.prototype.splice`: the elements taken out. */
  function Removed<T>(s: seq<T>, start: nat, count: nat): seq<T>
    requires start <= |s|
  {
    s[start..Min(start + count, |s|)]
  }

  predicate InRange(index: int, size: nat) {
    0 <= index + size && index < size
  }

  function FromEnd(index: int, size: nat): int {
    if index < 0 then index + size else index
  }

  predicate RemoveApplies(size: nat, index: int, count: Maybe<int>) {
    && InRange(index, size)
    && (count.Just? ==> 1 <= count.value && IsInt32(count.value))
  }

  function CountOr1(count: Maybe<int>): int {
    if count.Just? then count.value else 1
  }

  /** What `splice` makes of a list: the list afterwards and the result. */
  function SpliceResult<T>(s: seq<T>, index: int, count: Maybe<int>, newItems: seq<T>): (seq<T>, Maybe<seq<T>>)
  {
    var i := FromEnd(index, |s|);
    var n := CountOr1(count);
    if !IsInt32(index) || i > |s| then (s, Nothing)
    else if newItems == [] then
      if RemoveApplies(|s|, i, count) then
        (Spliced(s, FromEnd(i, |s|), n, []), Just(Removed(s, FromEnd(i, |s|), n)))
      else (s, Nothing)
    else if i < 0 || !IsInt32(n) || n < 0 then (s, Nothing)
    else (Spliced(s, i, n, newItems), if i == |s| && n > 0 then Nothing else Just(Removed(s, i, n)))
  }

  /** Splicing the removed elements back in place of the inserted ones restores the list. */
  lemma SpliceUndo<T>(s: seq<T>, index: nat, count: nat, items: seq<T>)
    requires index <= |s| && IsInt32(index) && IsInt32(count) && items != []
    requires index < |s| || count == 0
    ensures var (after, removed) := SpliceResult(s, index, Just(count), items);
            removed.Just? && Spliced(after, index, |items|, removed.value) == s
  {
    var after := Spliced(s, index, count, items);
    assert after[..index] == s[..index];
    assert after[index + |items|..] == s[Min(index + count, |s|)..];
  }

  /** A negative index below `-|s|` is out of range for a list, yet with nothing to insert `splice`
      still removes, whatever the count: exactly down to `-2 * |s|`, because it counts from the end twice. */
  lemma SpliceCountsFromEndTwice<T>(s: seq<T>, index: int, count: Maybe<int>, items: seq<T>)
    requires IsInt32(index) && index + |s| < 0
    ensures var (after, removed) := SpliceResult(s, index, count, items);
            && (removed.Just? <==>
                items == [] && index + 2 * |s| >= 0 && (count.Just? ==> 1 <= count.value && IsInt32(count.value)))
            && (removed.Just? ==>
                  var at := index + 2 * |s|;
                  var end := Min(at + CountOr1(count), |s|);
                  removed.value == s[at..end] && after == s[..at] + s[end..])
            && (removed.Nothing? ==> after == s)
  {
    var at := index + 2 * |s|;
    if at >= 0 && (count.Just? ==> 1 <= count.value) {
      assert Removed(s, at, CountOr1(count)) == s[at..Min(at + CountOr1(count), |s|)];
      assert s[..at] + [] + s[Min(at + CountOr1(count), |s|)..] == s[..at] + s[Min(at + CountOr1(count), |s|)..];
    }
  }

  /** Such a call: the third element from the end of two. */
  lemma SpliceBeforeTheStart<T>(a: T, b: T)
    ensures SpliceResult([a, b], -3, Just(1), []) == ([a], Just([b]))
  {
    SpliceCountsFromEndTwice([a, b], -3, Just(1), []);
    assert [a, b][..1] + [a, b][2..] == [a] && [a, b][1..2] == [b];
  }

  datatype Op<T> =
    | Push(item: Slot<T>)
    | Unshift(item: Slot<T>)
    | Shift
    | Pop
    | PeekAt(index: int)
    | RemoveOne(index: int)
    | Remove(index: int, count: Maybe<int>)
    | Splice(index: int, count: Maybe<int>, newItems: seq<Slot<T>>)
    | Clear

  datatype Outcome<T> = Size(n: nat) | One(item: Slot<T>) | Many(items: Maybe<seq<Slot<T>>>) | Done

  /** The list operation each queue operation stands for, with the value it returns. */
  function ListStep<T>(s: seq<Slot<T>>, op: Op<T>): (seq<Slot<T>>, Outcome<T>) {
    match op
    case Push(item) => (s + [item], Size(|s| + 1))
    case Unshift(item) => ([item] + s, Size(|s| + 1))
    case Shift => if s == [] then (s, One(Undefined)) else (s[1..], One(s[0]))
    case Pop => if s == [] then (s, One(Undefined)) else (s[..|s| - 1], One(s[|s| - 1]))
    case PeekAt(index) => (s, One(if InRange(index, |s|) then s[FromEnd(index, |s|)] else Undefined))
    case RemoveOne(index) =>
      if InRange(index, |s|) then (Spliced(s, FromEnd(index, |s|), 1, []), One(s[FromEnd(index, |s|)]))
      else (s, One(Undefined))
    case Remove(index, count) =>
      if RemoveApplies(|s|, index, count) then
        (Spliced(s, FromEnd(index, |s|), CountOr1(count), []),
         Many(Just(Removed(s, FromEnd(index, |s|), CountOr1(count)))))
      else (s, Many(Nothing))
    case Splice(index, count, newItems) =>
      var (after, removed) := SpliceResult(s, index, count, newItems);
      (after, Many(removed))
    case Clear => ([], Done)
  }

  function ListRun<T>(s: seq<Slot<T>>, ops: seq<Op<T>>): (seq<Slot<T>>, seq<Outcome<T>>) {
    if ops == [] then (s, [])
    else
      var (before, outcomes) := ListRun(s, ops[..|ops| - 1]);
      var (after, outcome) := ListStep(before, ops[|ops| - 1]);
      (after, outcomes + [outcome])
  }

  // ---------------------------------------------------------------- the ring on values

  /** Slot of the i-th element of a ring of `cap` slots that starts at `head`. */
  function SlotAt(head: nat, i: nat, cap: nat): (slot: nat)
    requires head < cap && i < cap
    ensures slot < cap
  {
    if head + i < cap then head + i else head + i - cap
  }

  function Next(slot: nat, cap: nat): (next: nat)
    requires slot < cap
    ensures next < cap
  {
    if slot + 1 == cap then 0 else slot + 1
  }

  function Span(head: nat, tail: nat, cap: nat): nat
    requires head < cap && tail < cap
  {
    if head <= tail then tail - head else tail + cap - head
  }

  /** The first `|items|` slots from `head` hold `items`, and every other slot is empty:
      the ring keeps no reference to what it gave back. */
  ghost predicate Holds<T>(s: seq<Slot<T>>, head: nat, items: seq<Slot<T>>) {
    && head < |s| && |items| <= |s|
    && (forall i :: 0 <= i < |items| ==> s[SlotAt(head, i, |s|)] == items[i])
    && (forall i :: |items| <= i < |s| ==> s[SlotAt(head, i, |s|)] == Undefined)
  }

  lemma HoldsAt<T>(s: seq<Slot<T>>, head: nat, items: seq<Slot<T>>, i: nat)
    requires Holds(s, head, items) && i < |items| && head < |s| && i < |s|
    ensures s[SlotAt(head, i, |s|)] == items[i]
  {
  }

  lemma HoldsWithLast<T>(s: seq<Slot<T>>, head: nat, tail: nat, items: seq<Slot<T>>, item: Slot<T>)
    requires Holds(s, head, items) && |items| < |s| && tail == SlotAt(head, |items|, |s|)
    ensures Holds(s[tail := item], head, items + [item])
  {
  }

  lemma HoldsWithoutLast<T>(s: seq<Slot<T>>, head: nat, last: nat, items: seq<Slot<T>>)
    requires Holds(s, head, items) && items != [] && last == SlotAt(head, |items| - 1, |s|)
    ensures Holds(s[last := Undefined], head, items[..|items| - 1])
    ensures s[last] == items[|items| - 1]
  {
  }

  lemma HoldsWithFirst<T>(s: seq<Slot<T>>, head: nat, items: seq<Slot<T>>, item: Slot<T>)
    requires head < |s| && |items| < |s| && Holds(s, Next(head, |s|), items)
    ensures Holds(s[head := item], head, [item] + items)
  {
    var after := s[head := item];
    forall i | 0 <= i < |s|
      ensures after[SlotAt(head, i, |s|)] == if i <= |items| then ([item] + items)[i] else Undefined
    {
      if i > 0 {
        assert SlotAt(head, i, |s|) == SlotAt(Next(head, |s|), i - 1, |s|) != head;
      }
    }
  }

  lemma HoldsWithoutFirst<T>(s: seq<Slot<T>>, head: nat, items: seq<Slot<T>>)
    requires Holds(s, head, items) && items != []
    ensures Holds(s[head := Undefined], Next(head, |s|), items[1..])
    ensures s[head] == items[0]
  {
    assert SlotAt(head, 0, |s|) == head;
    var after, next := s[head := Undefined], Next(head, |s|);
    forall i | 0 <= i < |s|
      ensures after[SlotAt(next, i, |s|)] == if i < |items| - 1 then items[i + 1] else Undefined
    {
      if i < |s| - 1 {
        assert SlotAt(next, i, |s|) == SlotAt(head, i + 1, |s|) != head;
      }
    }
  }

  /** Unrolling a ring into a larger array that starts at slot 0. */
  lemma HoldsUnrolled<T>(s: seq<Slot<T>>, items: seq<Slot<T>>)
    requires 0 < |s| && |items| <= |s|
    requires forall i :: 0 <= i < |items| ==> s[i] == items[i]
    requires forall i :: |items| <= i < |s| ==> s[i] == Undefined
    ensures Holds(s, 0, items)
  {
  }

  /** Dropping the upper half loses nothing when all elements sit in the lower half. */
  lemma HoldsInHalf<T>(s: seq<Slot<T>>, head: nat, items: seq<Slot<T>>)
    requires Holds(s, head, items) && |s| % 2 == 0 && head + |items| < |s| / 2
    ensures Holds(s[..|s| / 2], head, items)
  {
    var half := s[..|s| / 2];
    forall i | 0 <= i < |half|
      ensures half[SlotAt(head, i, |half|)] == if i < |items| then items[i] else Undefined
    {
      if head + i >= |half| {
        assert SlotAt(head, i, |half|) == SlotAt(head, i + |half|, |s|);
      } else {
        assert SlotAt(head, i, |half|) == SlotAt(head, i, |s|);
      }
    }
  }

  lemma HoldsUpdated<T>(s: seq<Slot<T>>, head: nat, items: seq<Slot<T>>, i: nat, item: Slot<T>)
    requires Holds(s, head, items) && i < |items|
    ensures Holds(s[SlotAt(head, i, |s|) := item], head, items[i := item])
  {
  }

  /** The list while the gap at `i` is carried towards the front, `moves` steps from it. */
  function GapTowardFront<T>(s: seq<T>, i: nat, moves: nat): (gap: seq<T>)
    requires moves <= i < |s|
    ensures |gap| == |s|
  {
    s[..moves] + [s[moves]] + s[moves..i] + s[i + 1..]
  }

  lemma GapMovesToFront<T>(s: seq<T>, i: nat, moves: nat)
    requires 0 < moves <= i < |s|
    ensures var gap := GapTowardFront(s, i, moves);
            gap[moves := gap[moves - 1]] == GapTowardFront(s, i, moves - 1)
  {
  }

  lemma GapMovesToBack<T>(s: seq<T>, i: nat, at: nat)
    requires i <= at < |s| - 1
    ensures var gap := GapTowardBack(s, i, at);
            gap[at := gap[at + 1]] == GapTowardBack(s, i, at + 1)
  {
  }

  /** The list while the gap at `i` is carried towards the back and has come to `at`. */
  function GapTowardBack<T>(s: seq<T>, i: nat, at: nat): (gap: seq<T>)
    requires i <= at < |s|
    ensures |gap| == |s|
  {
    s[..i] + s[i + 1..at + 1] + [s[at]] + s[at + 1..]
  }

  lemma GapEnds<T>(s: seq<T>, i: nat)
    requires i < |s|
    ensures GapTowardFront(s, i, i) == s == GapTowardBack(s, i, i)
    ensures GapTowardFront(s, i, 0)[1..] == Spliced(s, i, 1, [])
    ensures GapTowardBack(s, i, |s| - 1)[..|s| - 1] == Spliced(s, i, 1, [])
  {
  }

  class RingQueue<T> {
    var list: array<Slot<T>>
    var mask: nat
    var head: nat
    var tail: nat
    ghost var contents: seq<Slot<T>>

    ghost predicate Indices()
      reads this
    {
      && 4 <= list.Length && IsPow2(list.Length)
      && mask == list.Length - 1
      && head < list.Length && tail < list.Length
    }

    ghost predicate Shape()
      reads this, list
    {
      && Indices()
      && Holds(list[..], head, contents)
    }

    /** A power-of-two ring with at least one free slot that holds exactly `contents`. */
    ghost predicate Valid()
      reads this, list
    {
      && Shape()
      && |contents| == Span(head, tail, list.Length)
    }

    constructor ()
      ensures Valid() && fresh(list) && contents == []
    {
      list := new Slot<T>[4](_ => Undefined);
      mask := 3;
      head := 0;
      tail := 0;
      contents := [];
      new;
      assert Pow2(2) == 4;
    }

    method Perform(op: Op<T>) returns (outcome: Outcome<T>)
      requires Valid()
      modifies this, list
      ensures Valid() && (list == old(list) || fresh(list))
      ensures (contents, outcome) == ListStep(old(contents), op)
    {
      match op {
        case Push(item) =>
          var n := Push(item);
          outcome := Size(n);
        case Unshift(item) =>
          var n := Unshift(item);
          outcome := Size(n);
        case Shift =>
          var item := Shift();
          outcome := One(item);
        case Pop =>
          var item := Pop();
          outcome := One(item);
        case PeekAt(index) =>
          var item := PeekAt(index);
          outcome := One(item);
        case RemoveOne(index) =>
          var item := RemoveOne(index);
          outcome := One(item);
        case Remove(index, count) =>
          var removed := Remove(index, count);
          outcome := Many(removed);
        case Splice(index, count, newItems) =>
          var removed := Splice(index, count, newItems);
          outcome := Many(removed);
        case Clear =>
          Clear();
          outcome := Done;
      }
    }

    /** After any run of operations the contents and every returned value are those of a list. */
    method Run(ops: seq<Op<T>>) returns (outcomes: seq<Outcome<T>>)
      requires Valid()
      modifies this, list
      ensures Valid() && (list == old(list) || fresh(list))
      ensures (contents, outcomes) == ListRun(old(contents), ops)
    {
      outcomes := [];
      for i := 0 to |ops|
        invariant Valid() && (list == old(list) || fresh(list))
        invariant (contents, outcomes) == ListRun(old(contents), ops[..i])
      {
        assert ops[..i + 1][..i] == ops[..i];
        var outcome := Perform(ops[i]);
        outcomes := outcomes + [outcome];
      }
      assert ops[..|ops|] == ops;
    }

    /** `x & this._mask`, for an index that left the ring by at most one lap. */
    method Masked(x: int) returns (slot: nat)
      requires IsPow2(list.Length) && mask == list.Length - 1
      requires 0 <= x + list.Length && x < 2 * list.Length
      ensures slot == if x < 0 then x + list.Length else if x < list.Length then x else x - list.Length
    {
      MaskWraps(x, list.Length);
      slot := BitAnd(x, mask);
    }

    method Length() returns (n: nat)
      requires Valid()
      ensures n == |contents|
    {
      n := Masked(tail - head);
    }

    predicate IsEmpty()
      requires Valid()
      reads this, list
      ensures IsEmpty() <==> contents == []
    {
      head == tail
    }

    method Push(item: Slot<T>) returns (n: nat)
      requires Valid()
      modifies this, list
      ensures Valid() && (list == old(list) || fresh(list))
      ensures contents == old(contents) + [item] && n == |contents|
    {
      hide Holds, IsPow2;
      HoldsWithLast(list[..], head, tail, contents, item);
      list[tail] := item;
      assert list[..] == old(list[..])[tail := item];
      contents := contents + [item];
      tail := Masked(tail + 1);
      if tail == head {
        Grow();
      }
      n := Length();
    }

    method Unshift(item: Slot<T>) returns (n: nat)
      requires Valid()
      modifies this, list
      ensures Valid() && (list == old(list) || fresh(list))
      ensures contents == [item] + old(contents) && n == |contents|
    {
      hide Holds, IsPow2;
      head := Masked(head - 1);
      HoldsWithFirst(list[..], head, contents, item);
      list[head] := item;
      assert list[..] == old(list[..])[head := item];
      contents := [item] + contents;
      if tail == head {
        Grow();
      }
      n := Length();
    }

    method Shift() returns (item: Slot<T>)
      requires Valid()
      modifies this, list
      ensures Valid() && (list == old(list) || fresh(list))
      ensures old(contents) == [] ==> item == Undefined && contents == []
      ensures old(contents) != [] ==> item == old(contents[0]) && contents == old(contents[1..])
    {
      hide Holds, IsPow2;
      var h := head;
      if h == tail {
        return Undefined;
      }
      HoldsWithoutFirst(list[..], h, contents);
      item := list[h];
      list[h] := Undefined;
      assert list[..] == old(list[..])[h := Undefined];
      contents := contents[1..];
      head := Masked(h + 1);
      if h < 2 && tail > MIN_SHRINK_TAIL && tail <= list.Length / 4 {
        Shrink();
      }
    }

    method Pop() returns (item: Slot<T>)
      requires Valid()
      modifies this, list
      ensures Valid() && (list == old(list) || fresh(list))
      ensures old(contents) == [] ==> item == Undefined && contents == []
      ensures old(contents) != [] ==>
              item == old(contents[|contents| - 1]) && contents == old(contents[..|contents| - 1])
    {
      hide Holds, IsPow2;
      var t := tail;
      if t == head {
        return Undefined;
      }
      var capacity := list.Length;
      tail := Masked(t - 1);
      HoldsWithoutLast(list[..], head, tail, contents);
      item := list[tail];
      list[tail] := Undefined;
      assert list[..] == old(list[..])[tail := Undefined];
      contents := contents[..|contents| - 1];
      if head < 2 && t > MIN_SHRINK_TAIL && t <= capacity / 4 {
        Shrink();
      }
    }

    method PeekAt(index: int) returns (item: Slot<T>)
      requires Valid()
      ensures item == if InRange(index, |contents|) then contents[FromEnd(index, |contents|)] else Undefined
    {
      var size := Length();
      if index >= 0 {
        if index >= size {
          return Undefined;
        }
        assert list[..][SlotAt(head, index, list.Length)] == contents[index];
        var slot := Masked(head + index);
        return list[slot];
      }
      if index + size < 0 {
        return Undefined;
      }
      assert list[..][SlotAt(head, index + size, list.Length)] == contents[index + size];
      var slot := Masked(head + index + size);
        return list[slot];
    }

    method Peek() returns (item: Slot<T>)
      requires Valid()
      ensures item == if contents == [] then Undefined else contents[0]
    {
      if head == tail {
        return Undefined;
      }
      assert list[..][SlotAt(head, 0, list.Length)] == contents[0];
      return list[head];
    }

    /** Takes one element out of the middle, moving whichever side is shorter. */
    method RemoveOne(index: int) returns (item: Slot<T>)
      requires Valid()
      modifies this, list
      ensures Valid() && list == old(list)
      ensures var was, size := old(contents), |old(contents)|;
              if !InRange(index, size) then item == Undefined && contents == was
              else item == was[FromEnd(index, size)] && contents == Spliced(was, FromEnd(index, size), 1, [])
    {
      var size := Length();
      if index >= size || index + size < 0 {
        return Undefined;
      }
      item := TakeOut(if index < 0 then index + size else index, size);
    }

    method TakeOut(i: nat, size: nat) returns (item: Slot<T>)
      requires Valid() && i < size == |contents|
      modifies this, list
      ensures Valid() && list == old(list)
      ensures item == old(contents[i]) && contents == Spliced(old(contents), i, 1, [])
    {
      hide Holds, IsPow2, GapTowardFront, GapTowardBack, Spliced;
      HoldsAt(list[..], head, contents, i);
      var slot := Masked(head + i);
      item := list[slot];
      ghost var was := contents;
      if 2 * i < size {
        CarryGapToFront(i, slot);
        DropHead(GapTowardFront(was, i, 0));
      } else {
        CarryGapToBack(i, slot);
        DropTail(GapTowardBack(was, i, size - 1));
      }
      GapEnds(was, i);
    }

    method CopySlot(from: nat, to: nat, ghost items: seq<Slot<T>>, ghost i: nat, ghost j: nat)
      requires head < list.Length && Holds(list[..], head, items) && i < |items| && j < |items|
      requires from == SlotAt(head, i, list.Length) && to == SlotAt(head, j, list.Length)
      modifies list
      ensures Holds(list[..], head, items[j := items[i]])
    {
      HoldsUpdated(list[..], head, items, j, items[i]);
      assert list[..][from] == items[i];
      list[to] := list[from];
      assert list[..] == old(list[..])[to := items[i]];
    }

    method DropHead(ghost items: seq<Slot<T>>)
      requires Indices() && Holds(list[..], head, items) && 0 < |items| == Span(head, tail, list.Length)
      modifies this, list
      ensures Valid() && list == old(list) && contents == items[1..]
    {
      HoldsWithoutFirst(list[..], head, items);
      list[head] := Undefined;
      assert list[..] == old(list[..])[head := Undefined];
      head := Masked(head + 1);
      contents := items[1..];
    }

    method DropTail(ghost items: seq<Slot<T>>)
      requires Indices() && Holds(list[..], head, items) && 0 < |items| == Span(head, tail, list.Length)
      modifies this, list
      ensures Valid() && list == old(list) && contents == items[..|items| - 1]
    {
      tail := Masked(tail - 1);
      HoldsWithoutLast(list[..], head, tail, items);
      list[tail] := Undefined;
      assert list[..] == old(list[..])[tail := Undefined];
      contents := items[..|items| - 1];
    }

    /** Moves the elements before `i` one slot on, which leaves the gap at the head. */
    method CarryGapToFront(i: nat, start: nat)
      requires Valid() && i < |contents| && start == SlotAt(head, i, list.Length)
      modifies list
      ensures Holds(list[..], head, GapTowardFront(contents, i, 0))
    {
      hide GapTowardFront, Holds, IsPow2;
      var moves := i;
      var slot: int := start;
      ghost var items := contents;
      GapEnds(contents, i);
      while moves > 0
        invariant 0 <= moves <= i && slot == SlotAt(head, moves, list.Length)
        invariant items == GapTowardFront(contents, i, moves)
        invariant Holds(list[..], head, items)
      {
        var previous := Masked(slot - 1);
        GapMovesToFront(contents, i, moves);
        CopySlot(previous, slot, items, moves - 1, moves);
        items := items[moves := items[moves - 1]];
        slot := previous;
        moves := moves - 1;
      }
    }

    /** Moves the elements after `i` one slot back, which leaves the gap before the tail. */
    method CarryGapToBack(i: nat, start: nat)
      requires Valid() && i < |contents| && start == SlotAt(head, i, list.Length)
      modifies list
      ensures Holds(list[..], head, GapTowardBack(contents, i, |contents| - 1))
    {
      hide GapTowardBack, Holds, IsPow2;
      var size := Length();
      var moves := size - 1 - i;
      var slot: int := start;
      ghost var items, at := contents, i;
      GapEnds(contents, i);
      while moves > 0
        invariant i <= at < size && at == size - 1 - moves && slot == SlotAt(head, at, list.Length)
        invariant items == GapTowardBack(contents, i, at)
        invariant Holds(list[..], head, items)
      {
        var next := Masked(slot + 1);
        GapMovesToBack(contents, i, at);
        CopySlot(next, slot, items, at + 1, at);
        items, at := items[at := items[at + 1]], at + 1;
        slot := next;
        moves := moves - 1;
      }
    }

    method Remove(index: int, count: Maybe<int>) returns (removed: Maybe<seq<Slot<T>>>)
      requires Valid()
      modifies this, list
      ensures Valid() && (list == old(list) || fresh(list))
      ensures var was, size := old(contents), |old(contents)|;
              if !RemoveApplies(size, index, count) then removed == Nothing && contents == was
              else
                && removed == Just(Removed(was, FromEnd(index, size), CountOr1(count)))
                && contents == Spliced(was, FromEnd(index, size), CountOr1(count), [])
    {
      hide Holds, IsPow2;
      if head == tail {
        return Nothing;
      }
      var size := Length();
      if index >= size || index + size < 0 || (count.Just? && count.value < 1) {
        return Nothing;
      }
      var i := if index < 0 then index + size else index;
      if count.Nothing? || count.value == 1 {
        var item := RemoveOne(i);
        assert Removed(old(contents), i, 1) == [item];
        return Just([item]);
      }
      if !IsInt32(count.value) {
        return Nothing;
      }
      var items := RemoveRun(i, count.value, size);
      return Just(items);
    }

    method RemoveRun(i: nat, count: nat, size: nat) returns (removed: seq<Slot<T>>)
      requires Valid() && i < size == |contents|
      modifies this, list
      ensures Valid() && fresh(list)
      ensures removed == Removed(old(contents), i, count)
      ensures contents == Spliced(old(contents), i, count, [])
    {
      hide Holds, IsPow2;
      var n := if i + count > size then size - i else count;
      var items := ToArray();
      removed := items[i..i + n];
      assert items[..i] + items[i + n..] == Spliced(items, i, count, []);
      Rebuild(items[..i] + items[i + n..]);
    }

    /** A negative index counts from the end; when it is still negative and nothing is
        inserted, `Remove` counts it from the end once more. */
    method Splice(index: int, count: Maybe<int>, newItems: seq<Slot<T>>) returns (removed: Maybe<seq<Slot<T>>>)
      requires Valid()
      modifies this, list
      ensures Valid() && (list == old(list) || fresh(list))
      ensures (contents, removed) == SpliceResult(old(contents), index, count, newItems)
    {
      hide Holds, IsPow2;
      if !IsInt32(index) {
        return Nothing;
      }
      var size := Length();
      var i := if index < 0 then index + size else index;
      if i > size {
        return Nothing;
      }
      if |newItems| == 0 {
        removed := Remove(i, count);
        return;
      }
      if i < 0 {
        return Nothing;
      }
      var removalCount := if count.Nothing? then 1 else count.value;
      if !IsInt32(removalCount) || removalCount < 0 {
        return Nothing;
      }
      var items := ToArray();
      if removalCount == 0 {
        removed := Just([]);
        assert Removed(items, i, 0) == [];
        Rebuild(items[..i] + newItems + items[i..]);
      } else if i >= size {
        removed := Nothing;
        Rebuild(items[..i] + newItems + items[i..]);
      } else {
        var upTo := if i + removalCount > size then size else i + removalCount;
        removed := Just(items[i..upTo]);
        Rebuild(items[..i] + newItems + items[upTo..]);
      }
    }

    method Clear()
      requires Valid()
      modifies this
      ensures Valid() && fresh(list) && contents == []
    {
      list := new Slot<T>[list.Length](_ => Undefined);
      head := 0;
      tail := 0;
      contents := [];
    }

    method ToArray() returns (items: seq<Slot<T>>)
      requires Valid()
      ensures items == contents
    {
      assert forall i :: 0 <= i < |contents| ==> list[..][SlotAt(head, i, list.Length)] == contents[i];
      if head <= tail {
        return list[head..tail];
      }
      items := [];
      for slot := head to list.Length
        invariant items == list[head..slot]
      {
        items := items + [list[slot]];
      }
      for slot := 0 to tail
        invariant items == list[head..] + list[..slot]
      {
        items := items + [list[slot]];
      }
    }

    /** The elements in order at the start of an array twice as long. */
    method Unrolled() returns (grown: array<Slot<T>>)
      requires head < list.Length && head == tail
      ensures fresh(grown) && grown.Length == 2 * list.Length
      ensures forall i :: 0 <= i < list.Length ==> grown[i] == list[SlotAt(head, i, list.Length)]
      ensures forall i :: list.Length <= i < grown.Length ==> grown[i] == Undefined
    {
      var capacity := list.Length;
      grown := new Slot<T>[2 * capacity](_ => Undefined);
      if head == 0 {
        forall i | 0 <= i < capacity {
          grown[i] := list[i];
        }
      } else {
        var count := 0;
        for slot := head to capacity
          modifies grown
          invariant count == slot - head
          invariant forall i :: 0 <= i < count ==> grown[i] == list[SlotAt(head, i, capacity)]
          invariant forall i :: count <= i < grown.Length ==> grown[i] == Undefined
        {
          grown[count] := list[slot];
          count := count + 1;
        }
        for slot := 0 to tail
          modifies grown
          invariant count == capacity - head + slot
          invariant forall i :: 0 <= i < count ==> grown[i] == list[SlotAt(head, i, capacity)]
          invariant forall i :: count <= i < grown.Length ==> grown[i] == Undefined
        {
          grown[count] := list[slot];
          count := count + 1;
        }
      }
    }

    /** Called when every slot is taken, which `head == tail` would read as empty. */
    method Grow()
      requires Shape() && head == tail && |contents| == list.Length
      modifies this
      ensures Valid() && fresh(list)
      ensures contents == old(contents)
    {
      var capacity := list.Length;
      var grown := Unrolled();
      DoublePow2(capacity);
      assert forall i :: 0 <= i < capacity ==> list[..][SlotAt(head, i, capacity)] == contents[i];
      HoldsUnrolled(grown[..], contents);
      list := grown;
      head := 0;
      tail := capacity;
      mask := 2 * mask + 1;
    }

    /** Truncates to half the slots; the callers' test keeps every element in the lower half. */
    method Shrink()
      requires Valid() && head <= tail && 8 <= list.Length && tail <= list.Length / 4
      modifies this
      ensures Valid() && fresh(list)
      ensures contents == old(contents) && list.Length == old(list.Length) / 2
    {
      HalfPow2(list.Length);
      HalfPow2(list.Length / 2);
      HoldsInHalf(list[..], head, contents);
      var was := list;
      list := new Slot<T>[was.Length / 2](i requires 0 <= i < was.Length reads was => was[i]);
      assert list[..] == was[..][..was.Length / 2];
      mask := mask / 2;
    }

    method Rebuild(items: seq<Slot<T>>)
      requires Shape()
      modifies this
      ensures Valid() && fresh(list)
      ensures contents == items && list.Length >= old(list.Length)
    {
      hide IsPow2;
      var capacity := list.Length;
      while |items| >= capacity
        invariant IsPow2(capacity) && capacity >= list.Length
        decreases |items| - capacity
      {
        DoublePow2(capacity);
        capacity := 2 * capacity;
      }
      var rebuilt := new Slot<T>[capacity](_ => Undefined);
      for i := 0 to |items|
        modifies rebuilt
        invariant forall j :: 0 <= j < i ==> rebuilt[j] == items[j]
        invariant forall j :: i <= j < rebuilt.Length ==> rebuilt[j] == Undefined
      {
        rebuilt[i] := items[i];
      }
      HoldsUnrolled(rebuilt[..], items);
      list := rebuilt;
      mask := capacity - 1;
      head := 0;
      tail := |items|;
      contents := items;
    }
  }
}
