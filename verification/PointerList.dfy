/** The growing pointer array `cl_list`. */
module PointerList {
  const PTR_BYTES: nat := 8
  const MAX_LIST_SIZE: nat := 0x1_0000 / PTR_BYTES

  /** What a call gives back when an index error can end the program. */
  datatype Outcome<T> = Returned(value: T) | Exited(code: int)

  function Insert<T>(s: seq<T>, i: nat, x: T): (t: seq<T>)
    requires i <= |s|
    ensures |t| == |s| + 1 && multiset(t) == multiset(s) + multiset{x}
  {
    assert s == s[..i] + s[i..];
    s[..i] + [x] + s[i..]
  }

  function Without<T>(s: seq<T>, i: nat): (t: seq<T>)
    requires i < |s|
    ensures |t| == |s| - 1 && multiset(t) == multiset(s) - multiset{s[i]}
  {
    assert s == s[..i] + [s[i]] + s[i + 1..];
    s[..i] + s[i + 1..]
  }

  lemma InsertedAt<T>(s: seq<T>, i: nat, x: T, t: seq<T>)
    requires i <= |s| && |t| == |s| + 1 && t[i] == x
    requires forall j :: 0 <= j < i ==> t[j] == s[j]
    requires forall j :: i < j < |t| ==> t[j] == s[j - 1]
    ensures t == Insert(s, i, x)
  {
  }

  lemma ShiftedDown<T>(s: seq<T>, i: nat, t: seq<T>)
    requires i < |s| && |t| == |s| - 1
    requires forall j :: 0 <= j < |t| ==> t[j] == s[if j < i then j else j + 1]
    ensures t == Without(s, i)
  {
  }

  lemma FirstOut<T>(s: seq<T>)
    requires s != []
    ensures s == [s[0]] + Without(s, 0)
  {
  }

  /** Without its first occurrence of `x`, if any. */
  function Disconnected<T(==)>(s: seq<T>, x: T): (t: seq<T>)
    ensures multiset(t) == multiset(s) - multiset{x}
    ensures x !in s ==> t == s
  {
    if x in s then Without(s, First(s, x)) else s
  }

  function First<T(==)>(s: seq<T>, x: T): (i: nat)
    requires x in s
    ensures i < |s| && s[i] == x && forall j :: 0 <= j < i ==> s[j] != x
  {
    if s[0] == x then 0 else 1 + First(s[1..], x)
  }

  /** The limit set_limit chooses for a list of `count` items. */
  function ChosenLimit(count: nat, wanted: int): int {
    var atLeast := if wanted < count then count else wanted;
    if atLeast > MAX_LIST_SIZE then MAX_LIST_SIZE else atLeast
  }

  /** The wanted limit, but at least the number of items, and at most 8192, the most that fit. */
  lemma LimitIsClamped(count: nat, wanted: int)
    requires count <= 0x2000
    ensures var l := ChosenLimit(count, wanted);
            count <= l <= 0x2000 && (count <= wanted <= 0x2000 ==> l == wanted) && (wanted < count ==> l == count)
            && (wanted > 0x2000 ==> l == 0x2000)
  {
  }

  class List<T(0, ==)> {
    var count: nat
    var Items: array<T>
    var Limit: int
    var Delta: int

    ghost predicate Valid()
      reads this
    {
      count <= Limit == Items.Length <= MAX_LIST_SIZE
    }

    ghost function Contents(): seq<T>
      requires Valid()
      reads this, Items
    {
      Items[..count]
    }

    /** A full list can still take an item: a slot is free, or growing finds one. */
    ghost predicate HasRoom()
      reads this
    {
      count < Limit || (Delta > 0 && count < MAX_LIST_SIZE)
    }

    constructor (alimit: int, adelta: int)
      ensures Valid() && fresh(Items) && Contents() == [] && Delta == adelta
      ensures Limit == ChosenLimit(0, alimit)
    {
      count, Delta, Limit := 0, adelta, 0;
      Items := new T[0];
      new;
      SetLimit(alimit);
    }

    method SetLimit(alimit: int)
      requires Valid()
      modifies this
      ensures Valid() && Contents() == old(Contents()) && Delta == old(Delta)
      ensures Limit == ChosenLimit(count, alimit)
      ensures Items == old(Items) || fresh(Items)
    {
      var limit := alimit;
      if limit < count {
        limit := count;
      }
      if limit > MAX_LIST_SIZE {
        limit := MAX_LIST_SIZE;
      }
      if limit != Limit {
        var items := new T[limit];
        forall i | 0 <= i < count {
          items[i] := Items[i];
        }
        assert items[..count] == Items[..count];
        Items, Limit := items, limit;
      }
    }

    method At(index: int) returns (r: Outcome<T>)
      requires Valid()
      ensures 0 <= index < count ==> r == Returned(Contents()[index])
      ensures !(0 <= index < count) ==> r == Exited(1)
    {
      if index < 0 || index >= count {
        return Exited(1);
      }
      return Returned(Items[index]);
    }

    method IndexOf(item: T) returns (found: bool, idx: nat)
      requires Valid()
      ensures found <==> item in Contents()
      ensures found ==> idx < count && idx == First(Contents(), item)
    {
      var i := 0;
      while i < count
        invariant i <= count && forall j :: 0 <= j < i ==> Items[j] != item
      {
        if item == Items[i] {
          assert Contents()[i] == item;
          return true, i;
        }
        i := i + 1;
      }
      return false, 0;
    }

    method DisconnAt(index: int) returns (r: Outcome<()>)
      requires Valid()
      modifies this, Items
      ensures Valid() && Items == old(Items) && Limit == old(Limit) && Delta == old(Delta)
      ensures 0 <= index < old(count) ==> r == Returned(()) && Contents() == Without(old(Contents()), index)
      ensures !(0 <= index < old(count)) ==> r == Exited(1) && Contents() == old(Contents())
    {
      hide Without;
      if index < 0 || index >= count {
        return Exited(1);
      }
      ghost var was := Contents();
      count := count - 1;
      forall i | index <= i < count {
        Items[i] := Items[i + 1];
      }
      ShiftedDown(was, index, Items[..count]);
      return Returned(());
    }

    method Disconn(item: T)
      requires Valid()
      modifies this, Items
      ensures Valid() && Items == old(Items) && Limit == old(Limit) && Delta == old(Delta)
      ensures Contents() == Disconnected(old(Contents()), item)
    {
      var found, i := IndexOf(item);
      if found {
        var _ := DisconnAt(i);
      }
    }

    /** The memmove and the store of add_at, in an array with a free slot. */
    method OpenSlot(index: nat, item: T)
      requires Valid() && count < Limit && index <= count
      modifies `count, Items
      ensures Valid() && Contents() == Insert(old(Contents()), index, item)
    {
      ghost var was := Contents();
      forall i | index < i <= count {
        Items[i] := Items[i - 1];
      }
      Items[index] := item;
      count := count + 1;
      assert forall j :: index < j < count ==> Items[j] == was[j - 1];
      InsertedAt(was, index, item, Contents());
    }

    /** Callers pass an index of the list or its end, and have room for one more. */
    method AddAt(index: int, item: T) returns (r: Outcome<()>)
      requires Valid() && HasRoom() && index <= count
      modifies this, Items
      ensures Valid() && Delta == old(Delta) && (Items == old(Items) || fresh(Items))
      ensures index < 0 ==> r == Exited(1) && Contents() == old(Contents())
      ensures index >= 0 ==> r == Returned(()) && Contents() == Insert(old(Contents()), index, item)
    {
      if index < 0 {
        return Exited(1);
      }
      if count == Limit {
        SetLimit(count + Delta);
      }
      OpenSlot(index, item);
      return Returned(());
    }

    method Add(item: T) returns (loc: nat)
      requires Valid() && HasRoom()
      modifies this, Items
      ensures Valid() && Delta == old(Delta) && (Items == old(Items) || fresh(Items))
      ensures loc == old(count) && Contents() == old(Contents()) + [item]
    {
      loc := count;
      var _ := AddAt(count, item);
    }

    method Push(item: T)
      requires Valid() && HasRoom()
      modifies this, Items
      ensures Valid() && Delta == old(Delta) && (Items == old(Items) || fresh(Items))
      ensures Contents() == [item] + old(Contents())
    {
      if count > 0 {
        var _ := AddAt(0, item);
      } else {
        var _ := Add(item);
      }
    }

    /** The first item, taken out; `none` stands for the null pointer an empty list gives. */
    method Pop(none: T) returns (item: T)
      requires Valid()
      modifies this, Items
      ensures Valid() && Items == old(Items) && Limit == old(Limit) && Delta == old(Delta)
      ensures old(count) == 0 ==> item == none && Contents() == []
      ensures old(count) > 0 ==> old(Contents()) == [item] + Contents()
    {
      if count == 0 {
        return none;
      }
      hide Without;
      FirstOut(Contents());
      item := Items[0];
      var _ := DisconnAt(0);
    }
  }
}
