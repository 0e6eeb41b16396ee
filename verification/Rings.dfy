/** Fixed rings over an array with a head, a tail and a size
    (FixedRing in include/solar/events/facility.hpp).
 */
module Rings {
  import opened Basics

  /** Slot of the k-th element of a ring whose oldest element sits at `head`. */
  function Slot(head: nat, k: nat, capacity: nat): (i: nat)
    requires head < capacity && k <= capacity
    ensures i < capacity
  {
    if head + k < capacity then head + k else head + k - capacity
  }

  /** `Slot` is the remainder the firmware computes. */
  lemma SmallModulo(i: nat, capacity: nat)
    requires i < 2 * capacity
    ensures i % capacity == if i < capacity then i else i - capacity
  {
    if i < capacity {
      assert i / capacity == 0;
    } else {
      assert i == capacity * 1 + (i - capacity);
      assert i / capacity == 1;
    }
  }

  /** The `size` elements that start at `head`, oldest first. */
  ghost function Window<T>(cells: seq<T>, head: nat, size: nat): (r: seq<T>)
    requires size <= |cells| && (head < |cells| || |cells| == 0)
    ensures |r| == size
  {
    seq(size, k requires 0 <= k < size => cells[Slot(head, k, |cells|)])
  }

  /** Writing the slot after the newest element appends to the window. */
  lemma WindowPush<T>(cells: seq<T>, head: nat, size: nat, value: T)
    requires head < |cells| && size < |cells|
    ensures Window(cells[Slot(head, size, |cells|) := value], head, size + 1)
         == Window(cells, head, size) + [value]
  {
  }

  /** Advancing the head drops the oldest element of the window. */
  lemma WindowPop<T>(cells: seq<T>, head: nat, size: nat)
    requires head < |cells| && 0 < size <= |cells|
    ensures Window(cells, Slot(head, 1, |cells|), size - 1) == Window(cells, head, size)[1..]
  {
  }

  /** `s` is the window: what the cells from `head` on hold. */
  ghost predicate IsWindow<T>(cells: seq<T>, head: nat, s: seq<T>)
    requires |s| <= |cells| && (head < |cells| || |cells| == 0)
  {
    forall k :: 0 <= k < |s| ==> s[k] == cells[Slot(head, k, |cells|)]
  }

  lemma IsWindowPush<T>(cells: seq<T>, head: nat, s: seq<T>, value: T)
    requires head < |cells| && |s| < |cells| && IsWindow(cells, head, s)
    ensures IsWindow(cells[Slot(head, |s|, |cells|) := value], head, s + [value])
  {
  }

  lemma IsWindowPop<T>(cells: seq<T>, head: nat, s: seq<T>)
    requires head < |cells| && 0 < |s| <= |cells| && IsWindow(cells, head, s)
    ensures IsWindow(cells, Slot(head, 1, |cells|), s[1..]) && s[0] == cells[head]
  {
  }

  class FixedRing<T(0)> {
    const cells: array<T>
    var head: nat
    var tail: nat
    var size: nat

    /** What the ring holds, oldest first. */
    ghost var contents: seq<T>

    ghost predicate Valid()
      reads this, cells
    {
      && size == |contents| <= cells.Length
      && (cells.Length == 0 ==> head == tail == 0)
      && (cells.Length > 0 ==> head < cells.Length && tail == Slot(head, size, cells.Length))
      && IsWindow(cells[..], head, contents)
    }

    constructor (capacity: nat)
      ensures Valid() && fresh(cells) && cells.Length == capacity && contents == []
    {
      cells := new T[capacity];
      head, tail, size := 0, 0, 0;
      contents := [];
    }

    method Push(value: T) returns (pushed: bool)
      requires Valid()
      modifies this, cells
      ensures Valid()
      ensures pushed <==> |old(contents)| < cells.Length
      ensures contents == if pushed then old(contents) + [value] else old(contents)
    {
      if size == cells.Length {
        return false;
      }
      IsWindowPush(cells[..], head, contents, value);
      SmallModulo(tail + 1, cells.Length);
      ghost var before := cells[..];
      cells[tail] := value;
      assert cells[..] == before[tail := value];
      tail := (tail + 1) % cells.Length;
      size := size + 1;
      contents := contents + [value];
      pushed := true;
    }

    method Pop() returns (value: Option<T>)
      requires Valid()
      modifies this
      ensures Valid()
      ensures value == if old(contents) == [] then None else Some(old(contents)[0])
      ensures contents == if old(contents) == [] then [] else old(contents)[1..]
    {
      if size == 0 {
        return None;
      }
      IsWindowPop(cells[..], head, contents);
      SmallModulo(head + 1, cells.Length);
      value := Some(cells[head]);
      head := (head + 1) % cells.Length;
      size := size - 1;
      contents := contents[1..];
    }

    method Front() returns (value: Option<T>)
      requires Valid()
      ensures value == if contents == [] then None else Some(contents[0])
    {
      value := if size == 0 then None else Some(cells[head]);
    }

    /** The k-th oldest element, as for_each visits it. */
    method At(k: nat) returns (value: T)
      requires Valid() && k < |contents|
      ensures value == contents[k]
    {
      SmallModulo(head + k, cells.Length);
      value := cells[(head + k) % cells.Length];
    }

    method Clear()
      requires Valid()
      modifies this
      ensures Valid() && contents == []
    {
      head, tail, size := 0, 0, 0;
      contents := [];
    }
  }
}
