/** `cl_sorted_list` over string keys: binary search with duplicates, and ordered insertion. */
module SortedList {
  import opened PointerList

  // ---------- the order of keys ----------

  /** The sign of strcmp. */
  function Compare(a: string, b: string): int {
    if a == [] && b == [] then 0
    else if a == [] then -1
    else if b == [] then 1
    else if a[0] == b[0] then Compare(a[1..], b[1..])
    else if a[0] < b[0] then -1 else 1
  }

  /** `a` and `b` agree on `k` characters; there `a` ends and `b` does not, or `a` has the smaller character. */
  predicate SmallerAt(a: string, b: string, k: nat) {
    k <= |a| && k < |b| && a[..k] == b[..k] && (k == |a| || a[k] < b[k])
  }

  /** The order is the dictionary's: the first difference decides, a prefix comes before what it begins. */
  lemma {:induction false} CompareIsDictionary(a: string, b: string)
    ensures Compare(a, b) < 0 <==> exists k: nat :: SmallerAt(a, b, k)
    ensures Compare(a, b) in {-1, 0, 1}
  {
    if a != [] && b != [] && a[0] == b[0] {
      CompareIsDictionary(a[1..], b[1..]);
      if k: nat :| SmallerAt(a[1..], b[1..], k) {
        assert a[..k + 1] == [a[0]] + a[1..][..k] && b[..k + 1] == [b[0]] + b[1..][..k];
        assert SmallerAt(a, b, k + 1);
      }
      if k: nat :| SmallerAt(a, b, k) {
        assert k > 0;
        assert a[1..][..k - 1] == a[..k][1..] == b[..k][1..] == b[1..][..k - 1];
        assert SmallerAt(a[1..], b[1..], k - 1);
      }
    } else if b != [] && (a == [] || a[0] < b[0]) {
      assert SmallerAt(a, b, 0);
    } else if k: nat :| SmallerAt(a, b, k) {
      assert k > 0 ==> a[..k][0] == b[..k][0];
    }
  }

  predicate AtMost(a: string, b: string) {
    Compare(a, b) <= 0
  }

  lemma {:induction false} CompareZero(a: string, b: string)
    ensures Compare(a, b) == 0 <==> a == b
  {
    if a != [] && b != [] && a[0] == b[0] {
      CompareZero(a[1..], b[1..]);
      assert a == [a[0]] + a[1..] && b == [b[0]] + b[1..];
    }
  }

  lemma {:induction false} CompareSwaps(a: string, b: string)
    ensures Compare(a, b) == -Compare(b, a)
  {
    if a != [] && b != [] && a[0] == b[0] {
      CompareSwaps(a[1..], b[1..]);
    }
  }

  lemma {:induction false} AtMostTransitive(a: string, b: string, c: string)
    requires AtMost(a, b) && AtMost(b, c)
    ensures AtMost(a, c)
  {
    if a != [] && b != [] && c != [] && a[0] == b[0] == c[0] {
      AtMostTransitive(a[1..], b[1..], c[1..]);
    }
  }

  /** Below one key is below all greater ones. */
  lemma BelowTransitive(a: string, b: string, c: string)
    requires (AtMost(a, b) && Compare(b, c) < 0) || (Compare(a, b) < 0 && AtMost(b, c))
    ensures Compare(a, c) < 0
  {
    AtMostTransitive(a, b, c);
    CompareZero(a, c);
    CompareZero(a, b);
    CompareSwaps(a, b);
    CompareSwaps(b, c);
    if a == c {
      CompareZero(b, c);
    }
  }

  // ---------- sorted sequences ----------

  ghost predicate Sorted<T>(key: T -> string, s: seq<T>) {
    forall i, j :: 0 <= i < j < |s| ==> AtMost(key(s[i]), key(s[j]))
  }

  ghost predicate Distinct<T>(key: T -> string, s: seq<T>) {
    forall i, j :: 0 <= i < j < |s| ==> key(s[i]) != key(s[j])
  }

  /** `i` separates the smaller keys from the others. */
  ghost predicate Splits<T>(key: T -> string, s: seq<T>, name: string, i: int) {
    && 0 <= i <= |s|
    && (forall j :: 0 <= j < i ==> Compare(key(s[j]), name) < 0)
    && (forall j :: i <= j < |s| ==> AtMost(name, key(s[j])))
  }

  ghost predicate Present<T>(key: T -> string, s: seq<T>, name: string) {
    exists j :: 0 <= j < |s| && key(s[j]) == name
  }

  /** The leftmost place for a key. */
  function Place<T>(key: T -> string, s: seq<T>, name: string): (i: nat)
    ensures i <= |s|
  {
    if s == [] || Compare(key(s[0]), name) >= 0 then 0 else 1 + Place(key, s[1..], name)
  }

  lemma {:induction false} PlaceIsTheSplit<T>(key: T -> string, s: seq<T>, name: string, i: nat)
    requires Splits(key, s, name, i)
    ensures i == Place(key, s, name)
  {
    if i > 0 {
      PlaceIsTheSplit(key, s[1..], name, i - 1);
    } else if s != [] {
      CompareSwaps(key(s[0]), name);
    }
  }

  lemma {:induction false} PlaceSplits<T>(key: T -> string, s: seq<T>, name: string)
    requires Sorted(key, s)
    ensures Splits(key, s, name, Place(key, s, name))
  {
    if s != [] {
      if Compare(key(s[0]), name) >= 0 {
        AboveSuffix(key, s, name, 0);
      } else {
        PlaceSplits(key, s[1..], name);
      }
    }
  }

  lemma SplitFinds<T>(key: T -> string, s: seq<T>, name: string, i: int)
    requires Sorted(key, s) && Splits(key, s, name, i)
    ensures Present(key, s, name) <==> i < |s| && key(s[i]) == name
  {
    if Present(key, s, name) {
      var j :| 0 <= j < |s| && key(s[j]) == name;
      CompareZero(name, name);
      assert i <= j;
      assert i < j ==> AtMost(key(s[i]), key(s[j]));
      CompareSwaps(name, key(s[i]));
      CompareZero(key(s[i]), name);
    }
  }

  lemma BelowPrefix<T>(key: T -> string, s: seq<T>, name: string, i: int)
    requires Sorted(key, s) && 0 <= i < |s| && Compare(key(s[i]), name) < 0
    ensures forall j :: 0 <= j <= i ==> Compare(key(s[j]), name) < 0
  {
    forall j | 0 <= j < i
      ensures Compare(key(s[j]), name) < 0
    {
      BelowTransitive(key(s[j]), key(s[i]), name);
    }
  }

  lemma AboveSuffix<T>(key: T -> string, s: seq<T>, name: string, i: int)
    requires Sorted(key, s) && 0 <= i < |s| && Compare(key(s[i]), name) >= 0
    ensures forall j :: i <= j < |s| ==> AtMost(name, key(s[j]))
    ensures Compare(key(s[i]), name) > 0 ==> forall j :: i <= j < |s| ==> key(s[j]) != name
  {
    CompareSwaps(key(s[i]), name);
    CompareZero(name, name);
    forall j | i < j < |s|
      ensures AtMost(name, key(s[j])) && (Compare(key(s[i]), name) > 0 ==> key(s[j]) != name)
    {
      AtMostTransitive(name, key(s[i]), key(s[j]));
      assert AtMost(key(s[i]), key(s[j]));
    }
  }

  /** In a list without duplicates a hit is the split. */
  lemma HitSplits<T>(key: T -> string, s: seq<T>, name: string, i: int)
    requires Sorted(key, s) && Distinct(key, s) && 0 <= i < |s| && Compare(key(s[i]), name) == 0
    ensures Splits(key, s, name, i)
  {
    AboveSuffix(key, s, name, i);
    CompareZero(key(s[i]), name);
    forall j | 0 <= j < i
      ensures Compare(key(s[j]), name) < 0
    {
      assert AtMost(key(s[j]), key(s[i]));
      CompareZero(key(s[j]), name);
    }
  }

  lemma InsertionSorts<T>(key: T -> string, s: seq<T>, i: nat, x: T)
    requires Sorted(key, s) && Splits(key, s, key(x), i)
    ensures Sorted(key, Insert(s, i, x))
    ensures Distinct(key, s) && !Present(key, s, key(x)) ==> Distinct(key, Insert(s, i, x))
  {
    var t := Insert(s, i, x);
    forall j, k | 0 <= j < k < |t|
      ensures AtMost(key(t[j]), key(t[k]))
    {
      var j0, k0 := if j < i then j else j - 1, if k < i then k else k - 1;
      if j != i && k != i {
        assert t[j] == s[j0] && t[k] == s[k0];
      }
    }
  }

  // ---------- the list ----------

  class SortedList<T(0, ==)> {
    const key: T -> string
    const list: List<T>
    var Duplicates: bool

    constructor (key: T -> string, alimit: int, adelta: int, duplicates: bool)
      ensures Valid() && fresh(list) && fresh(list.Items) && Contents() == []
      ensures this.key == key && Duplicates == duplicates && list.Delta == adelta
    {
      this.key, Duplicates := key, duplicates;
      list := new List(alimit, adelta);
    }

    ghost function Contents(): seq<T>
      requires list.Valid()
      reads this, list, list.Items
    {
      list.Contents()
    }

    ghost predicate Valid()
      reads this, list, list.Items
    {
      && list.Valid()
      && Sorted(key, Contents())
      && (!Duplicates ==> Distinct(key, Contents()))
    }

    /** The leftmost place for a key, and whether the key is there. */
    method Search(name: string) returns (found: bool, index: nat)
      requires Valid()
      ensures Splits(key, Contents(), name, index)
      ensures found <==> Present(key, Contents(), name)
    {
      hide Compare;
      ghost var s := Contents();
      var l, h := 0, list.count - 1;
      found := false;
      while l <= h
        invariant 0 <= l <= h + 1 <= |s| == list.count
        invariant forall j :: 0 <= j < l ==> Compare(key(s[j]), name) < 0
        invariant (forall j :: h < j < |s| ==> AtMost(name, key(s[j]))) || (!Duplicates && Splits(key, s, name, l))
        invariant found ==> Present(key, s, name)
        invariant !found ==> forall j :: h < j < |s| ==> key(s[j]) != name
        decreases h - l
      {
        var i := (l + h) / 2;
        assert list.Items[i] == s[i];
        var c := Compare(key(list.Items[i]), name);
        if c < 0 {
          BelowPrefix(key, s, name, i);
          l := i + 1;
        } else {
          AboveSuffix(key, s, name, i);
          h := i - 1;
          if c == 0 {
            CompareZero(key(s[i]), name);
            found := true;
            if !Duplicates {
              HitSplits(key, s, name, i);
              l := i;
            }
          }
        }
      }
      index := l;
      SplitFinds(key, s, name, l);
    }

    /** Puts the item at the left end of its equals; does nothing for a duplicate key where none is allowed. */
    method Add(item: T) returns (i: nat)
      requires Valid() && list.HasRoom()
      modifies list, list.Items
      ensures Valid() && list.Delta == old(list.Delta) && (list.Items == old(list.Items) || fresh(list.Items))
      ensures Splits(key, old(Contents()), key(item), i)
      ensures Contents() == if Duplicates || !Present(key, old(Contents()), key(item))
                            then Insert(old(Contents()), i, item) else old(Contents())
    {
      var found;
      found, i := Search(key(item));
      InsertionSorts(key, Contents(), i, item);
      if !found || Duplicates {
        var _ := list.AddAt(i, item);
      }
    }

    /** The index of an item; -1 when it is not found. */
    method IndexOf(item: T) returns (index: int)
      requires Valid()
      ensures index == -1 || 0 <= index < |Contents()|
      ensures Duplicates ==> (index == -1 <==> item !in Contents())
      ensures Duplicates && index != -1 ==> index == First(Contents(), item)
      ensures !Duplicates ==> (index == -1 <==> !Present(key, Contents(), key(item)))
      ensures !Duplicates && index != -1 ==> key(Contents()[index]) == key(item)
    {
      ghost var s := Contents();
      var found, i := Search(key(item));
      SplitFinds(key, s, key(item), i);
      CompareZero(key(item), key(item));
      if !found {
        return -1;
      }
      if Duplicates {
        while i < list.count && item != list.Items[i]
          invariant i <= list.count == |s| && forall j :: 0 <= j < i ==> s[j] != item
        {
          i := i + 1;
        }
      }
      return if i < list.count then i else -1;
    }
  }
}
