/**
 * The player's inventory (Inventory.java): a fixed array of ten slots plus a
 * `currentSize` counter. Items are appended at the tail, looked up by first
 * match and removed by shifting the later items one slot to the left.
 *
 * The abstract view of an inventory is the sequence of its first
 * `currentSize` slots (`Contents`); the reference functions `IndexOf` (from
 * `Common`), `RemoveFirst` and `AddBounded` say on that view what the array
 * operations do, and the game state works on the view directly.
 */
module Bag {
  import opened Common

  const MaxItems: int := 10

  /** The Java fields: `inventory` (null is `None`) and `currentSize`. */
  datatype Inventory<T> = Inventory(slots: seq<Option<T>>, currentSize: int)

  /** The class invariant: ten slots, the first `currentSize` filled, the rest null. */
  predicate Valid<T(==)>(inv: Inventory<T>)
  {
    && |inv.slots| == MaxItems
    && 0 <= inv.currentSize <= MaxItems
    && (forall i :: 0 <= i < inv.currentSize ==> inv.slots[i].Some?)
    && (forall i :: inv.currentSize <= i < MaxItems ==> inv.slots[i] == None)
  }

  /** The items held, in slot order. */
  function Contents<T(==)>(inv: Inventory<T>): (items: seq<T>)
    requires Valid(inv)
    ensures |items| == inv.currentSize
    ensures forall i :: 0 <= i < inv.currentSize ==> inv.slots[i] == Some(items[i])
  {
    seq(inv.currentSize, i requires 0 <= i < inv.currentSize && Valid(inv) => inv.slots[i].value)
  }

  // ---------------------------------------------------------------------
  // Reference definitions on the abstract view
  // ---------------------------------------------------------------------

  /** `s` without its first occurrence of `x` (unchanged when `x` is absent). */
  function RemoveFirst<T(==)>(s: seq<T>, x: T): (r: seq<T>)
    ensures x !in s ==> r == s
    ensures x in s ==> |r| == |s| - 1
  {
    if s == [] then []
    else if s[0] == x then s[1..]
    else
      assert s == [s[0]] + s[1..];
      [s[0]] + RemoveFirst(s[1..], x)
  }

  /** The element removed is the first occurrence: the result is `s` spliced
      around position `IndexOf(s, x)`. */
  lemma {:induction false} RemoveFirstSplice<T>(s: seq<T>, x: T)
    requires x in s
    ensures RemoveFirst(s, x) == s[..IndexOf(s, x)] + s[IndexOf(s, x) + 1..]
  {
    if s[0] == x {
      assert IndexOf(s, x) == 0;
      assert s[..0] + s[1..] == s[1..];
    } else {
      var t := s[1..];
      assert x in t by {
        assert s == [s[0]] + t;
      }
      RemoveFirstSplice(t, x);
      SpliceCons(s[0], t, IndexOf(t, x));
      assert s == [s[0]] + t;
    }
  }

  /** Splicing position k+1 out of `h :: t` is `h` followed by `t` spliced at k. */
  lemma SpliceCons<T>(h: T, t: seq<T>, k: int)
    requires 0 <= k < |t|
    ensures ([h] + t)[..k + 1] + ([h] + t)[k + 2..] == [h] + (t[..k] + t[k + 1..])
  {
    assert ([h] + t)[..k + 1] == [h] + t[..k];
    assert ([h] + t)[k + 2..] == t[k + 1..];
  }

  /** Removal takes exactly one copy of `x` out of the bag and nothing else. */
  lemma {:induction false} RemoveFirstMultiset<T>(s: seq<T>, x: T)
    ensures multiset(RemoveFirst(s, x)) == multiset(s) - multiset{x}
  {
    if s != [] {
      assert s == [s[0]] + s[1..];
      if s[0] != x {
        RemoveFirstMultiset(s[1..], x);
        assert RemoveFirst(s, x) == [s[0]] + RemoveFirst(s[1..], x);
      }
    }
  }

  /** Append at the tail unless the bag already holds `MaxItems` items. */
  function AddBounded<T(==)>(s: seq<T>, x: T): (r: seq<T>)
    ensures |s| < MaxItems ==> r == s + [x]
    ensures |s| >= MaxItems ==> r == s
  {
    if |s| >= MaxItems then s else s + [x]
  }

  /** Adding below capacity puts one more copy of `x` in the bag; lookup still
      finds the first copy, or the new tail slot when `x` was absent; and
      removing a newly added item gives back the old contents. */
  lemma AddBoundedThenFind<T>(s: seq<T>, x: T)
    requires |s| < MaxItems
    ensures multiset(AddBounded(s, x)) == multiset(s) + multiset{x}
    ensures IndexOf(AddBounded(s, x), x) == if x in s then IndexOf(s, x) else |s|
    ensures x !in s ==> RemoveFirst(AddBounded(s, x), x) == s
  {
    var r := s + [x];
    assert AddBounded(s, x) == r;
    assert multiset(r) == multiset(s) + multiset{x};
    if x in s {
      FirstMatchOfAppend(s, x);
    } else {
      FirstMatchOfAppend(s, x);
      RemoveFirstSplice(r, x);
      assert r[..|s|] == s;
      assert r[|s| + 1..] == [];
    }
  }

  /** Appending `x` keeps the first match inside `s` when there is one. */
  lemma FirstMatchOfAppend<T>(s: seq<T>, x: T)
    ensures IndexOf(s + [x], x) == if x in s then IndexOf(s, x) else |s|
  {
    var r := s + [x];
    assert forall j :: 0 <= j < |s| ==> r[j] == s[j];
    if x in s {
      assert r[IndexOf(s, x)] == x;
    } else {
      assert r[|s|] == x;
    }
  }

  /** Removing the first occurrence keeps the relative order of everything else:
      the result is `s` with exactly one position (the first match) left out. */
  lemma {:induction false} RemoveFirstKeepsOrder<T>(s: seq<T>, x: T, i: int)
    requires x in s
    requires 0 <= i < |s| - 1
    ensures RemoveFirst(s, x)[i] == if i < IndexOf(s, x) then s[i] else s[i + 1]
  {
    var p := IndexOf(s, x);
    var r := RemoveFirst(s, x);
    RemoveFirstSplice(s, x);
    if i < p {
      assert r[i] == s[..p][i];
    } else {
      assert r[i] == s[p + 1..][i - p];
    }
  }

  // ---------------------------------------------------------------------
  // The array operations
  // ---------------------------------------------------------------------

  /** The constructor: ten null slots, size 0. */
  function NewInventory<T(==)>(): (inv: Inventory<T>)
    ensures Valid(inv)
    ensures Contents(inv) == []
  {
    Inventory(seq(MaxItems, _ => None), 0)
  }

  /** `addItem`: store at index `currentSize` and grow by one, or do nothing
      when the bag is full. `stored` tells which of the two happened. */
  function AddItem<T(==)>(inv: Inventory<T>, item: T): (r: (Inventory<T>, bool))
    requires Valid(inv)
    ensures Valid(r.0)
    ensures r.1 <==> inv.currentSize < MaxItems
    ensures r.1 ==> r.0.slots[inv.currentSize] == Some(item) && r.0.currentSize == inv.currentSize + 1
    ensures r.1 ==> forall i :: 0 <= i < MaxItems && i != inv.currentSize ==> r.0.slots[i] == inv.slots[i]
    ensures !r.1 ==> r.0 == inv
    ensures Contents(r.0) == AddBounded(Contents(inv), item)
  {
    if inv.currentSize >= MaxItems then
      (inv, false)
    else
      var next := Inventory(inv.slots[inv.currentSize := Some(item)], inv.currentSize + 1);
      assert Contents(next) == Contents(inv) + [item];
      (next, true)
  }

  /** `hasItem`: scan all ten slots and return the first index holding `item`, or -1. */
  method HasItem<T(==)>(inv: Inventory<T>, item: T) returns (index: int)
    requires Valid(inv)
    ensures index == IndexOf(Contents(inv), item)
    ensures index == -1 <==> item !in Contents(inv)
    ensures index >= 0 ==> inv.slots[index] == Some(item)
    ensures forall j :: 0 <= j < index ==> inv.slots[j] != Some(item)
  {
    var i := 0;
    while i < MaxItems
      invariant 0 <= i <= MaxItems
      invariant forall j :: 0 <= j < i ==> inv.slots[j] != Some(item)
    {
      if inv.slots[i] == Some(item) {
        return i;
      }
      i := i + 1;
    }
    return -1;
  }

  /** `removeItem`: find the first match; if there is none nothing changes,
      otherwise shift every later slot one to the left, null the last used
      slot and shrink by one. */
  method RemoveItem<T(==)>(inv: Inventory<T>, item: T) returns (r: Inventory<T>)
    requires Valid(inv)
    ensures Valid(r)
    ensures Contents(r) == RemoveFirst(Contents(inv), item)
    ensures item !in Contents(inv) ==> r == inv
    ensures item in Contents(inv) ==> r.currentSize == inv.currentSize - 1
  {
    var position := HasItem(inv, item);
    if position == -1 {
      return inv;
    }
    r := ShiftLeft(inv, position);
    ShiftLeftRemoves(inv, r, position);
    RemoveFirstSplice(Contents(inv), item);
  }

  /** The shifting loop of `removeItem`: every slot after `position` moves one
      to the left and the last used slot becomes null. */
  method ShiftLeft<T>(inv: Inventory<T>, position: int) returns (r: Inventory<T>)
    requires Valid(inv) && 0 <= position < inv.currentSize
    ensures |r.slots| == MaxItems && r.currentSize == inv.currentSize - 1
    ensures forall j :: 0 <= j < position ==> r.slots[j] == inv.slots[j]
    ensures forall j :: position <= j < r.currentSize ==> r.slots[j] == inv.slots[j + 1]
    ensures forall j :: r.currentSize <= j < MaxItems ==> r.slots[j] == None
  {
    var slots := inv.slots;
    var i := position;
    while i < inv.currentSize - 1
      invariant position <= i <= inv.currentSize - 1
      invariant |slots| == MaxItems
      invariant forall j :: 0 <= j < position ==> slots[j] == inv.slots[j]
      invariant forall j :: position <= j < i ==> slots[j] == inv.slots[j + 1]
      invariant forall j :: i <= j < MaxItems ==> slots[j] == inv.slots[j]
    {
      slots := slots[i := slots[i + 1]];
      i := i + 1;
    }
    slots := slots[inv.currentSize - 1 := None];
    r := Inventory(slots, inv.currentSize - 1);
  }

  /** Slots shifted left over position `p` hold the contents spliced at `p`. */
  lemma ShiftLeftRemoves<T>(inv: Inventory<T>, r: Inventory<T>, p: int)
    requires Valid(inv) && 0 <= p < inv.currentSize
    requires |r.slots| == MaxItems && r.currentSize == inv.currentSize - 1
    requires forall j :: 0 <= j < p ==> r.slots[j] == inv.slots[j]
    requires forall j :: p <= j < r.currentSize ==> r.slots[j] == inv.slots[j + 1]
    requires forall j :: r.currentSize <= j < MaxItems ==> r.slots[j] == None
    ensures Valid(r)
    ensures Contents(r) == Contents(inv)[..p] + Contents(inv)[p + 1..]
  {
    var before := Contents(inv);
    var after := Contents(r);
    forall j | 0 <= j < |after|
      ensures after[j] == (before[..p] + before[p + 1..])[j]
    {
      if j < p {
        assert after[j] == before[j];
      } else {
        assert after[j] == before[j + 1];
      }
    }
  }
}
