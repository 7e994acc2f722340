/** `DBSet<T>`: a list of the items of one table that raises a
    `DBSetChanged` event for each change made through `Add`, `Insert`,
    `Clear`, `Remove` and `RemoveAt`. */
module DBSets {
  import opened Wrappers

  datatype DBSetChangedEventArgs = DBSetChangedEventArgs(Message: string)

  const Added := DBSetChangedEventArgs("Added an item")
  const Inserted := DBSetChangedEventArgs("Inserted an item")
  const Cleared := DBSetChangedEventArgs("Cleared all the items")
  const Removed := DBSetChangedEventArgs("Removed an item")

  /** The exception `List<T>` throws for an index outside the list. */
  datatype ListError = ArgumentOutOfRange

  /** `s` with `x` placed at `i` and the elements from `i` on shifted right. */
  function InsertAt<T>(s: seq<T>, i: nat, x: T): (r: seq<T>)
    requires i <= |s|
    ensures |r| == |s| + 1 && r[i] == x
    ensures forall j :: 0 <= j < i ==> r[j] == s[j]
    ensures forall j :: i < j < |r| ==> r[j] == s[j - 1]
  {
    s[..i] + [x] + s[i..]
  }

  /** `s` without its element at `i`, the rest in order. */
  function DeleteAt<T>(s: seq<T>, i: nat): (r: seq<T>)
    requires i < |s|
    ensures |r| == |s| - 1
    ensures forall j :: 0 <= j < i ==> r[j] == s[j]
    ensures forall j :: i <= j < |r| ==> r[j] == s[j + 1]
  {
    s[..i] + s[i + 1..]
  }

  /** Removing what was just inserted gives the list back. */
  lemma DeleteInserted<T>(s: seq<T>, i: nat, x: T)
    requires i <= |s|
    ensures DeleteAt(InsertAt(s, i, x), i) == s
  {
    var r := DeleteAt(InsertAt(s, i, x), i);
    assert forall j :: 0 <= j < |s| ==> r[j] == s[j];
  }

  /** Putting a removed element back where it was gives the list back. */
  lemma InsertDeleted<T>(s: seq<T>, i: nat)
    requires i < |s|
    ensures InsertAt(DeleteAt(s, i), i, s[i]) == s
  {
    var r := InsertAt(DeleteAt(s, i), i, s[i]);
    assert forall j :: 0 <= j < |s| ==> r[j] == s[j];
  }

  /** `List<T>.IndexOf`: the first position of `x`, or -1. */
  function FirstIndex<T(==)>(s: seq<T>, x: T): (r: int)
    ensures -1 <= r < |s|
    ensures r == -1 <==> x !in s
    ensures r >= 0 ==> s[r] == x && x !in s[..r]
  {
    if s == [] then -1
    else if s[0] == x then 0
    else
      var k := FirstIndex(s[1..], x);
      assert s == [s[0]] + s[1..];
      if k == -1 then -1
      else
        assert s[..k + 1] == [s[0]] + s[1..][..k];
        k + 1
  }

  /** `List<T>.Remove`: drops the first occurrence of `x` only. */
  function RemoveFirst<T(==)>(s: seq<T>, x: T): (r: seq<T>)
    ensures x !in s ==> r == s
    ensures x in s ==> |r| == |s| - 1 && s == r[..FirstIndex(s, x)] + [x] + r[FirstIndex(s, x)..]
    ensures multiset(r) == multiset(s) - multiset{x}
  {
    if x !in s then s
    else
      var k := FirstIndex(s, x);
      DeleteAtSplits(s, k);
      DeleteAt(s, k)
  }

  /** What `DeleteAt` drops is exactly the one element at `i`. */
  lemma DeleteAtSplits<T>(s: seq<T>, i: nat)
    requires i < |s|
    ensures s == DeleteAt(s, i)[..i] + [s[i]] + DeleteAt(s, i)[i..]
    ensures multiset(DeleteAt(s, i)) == multiset(s) - multiset{s[i]}
  {
    var r := DeleteAt(s, i);
    assert r[..i] == s[..i] && r[i..] == s[i + 1..];
    assert s == s[..i] + [s[i]] + s[i + 1..];
    assert r == s[..i] + s[i + 1..];
  }

  /** Removing an element that occurs twice leaves the later occurrence. */
  lemma RemoveFirstKeepsLaterCopies<T>(s: seq<T>, x: T)
    requires multiset(s)[x] >= 2
    ensures x in RemoveFirst(s, x)
  {
    assert multiset(RemoveFirst(s, x))[x] >= 1;
  }

  class DBSet<T(==)> {
    var items: seq<T>
    /** The `DBSetChanged` events raised so far, oldest first. */
    var raised: seq<DBSetChangedEventArgs>

    constructor ()
      ensures items == [] && raised == []
    {
      items := [];
      raised := [];
    }

    method Add(item: T)
      modifies this
      ensures items == old(items) + [item]
      ensures raised == old(raised) + [Added]
    {
      items := items + [item];
      raised := raised + [Added];
    }

    /** Out of range, the list throws before anything changes or is raised. */
    method Insert(index: int, item: T) returns (o: Outcome<ListError>)
      modifies this
      ensures o.Pass? <==> 0 <= index <= |old(items)|
      ensures o.Pass? ==> items == InsertAt(old(items), index, item) && raised == old(raised) + [Inserted]
      ensures o.Fail? ==> items == old(items) && raised == old(raised)
    {
      if !(0 <= index <= |items|) {
        return Fail(ArgumentOutOfRange);
      }
      items := InsertAt(items, index, item);
      raised := raised + [Inserted];
      return Pass;
    }

    method Clear()
      modifies this
      ensures items == []
      ensures raised == old(raised) + [Cleared]
    {
      items := [];
      raised := raised + [Cleared];
    }

    /** Raises its event first, whether or not `item` is there. */
    method Remove(item: T) returns (found: bool)
      modifies this
      ensures found <==> item in old(items)
      ensures items == RemoveFirst(old(items), item)
      ensures raised == old(raised) + [Removed]
    {
      raised := raised + [Removed];
      found := item in items;
      items := RemoveFirst(items, item);
    }

    method RemoveAt(index: int) returns (o: Outcome<ListError>)
      modifies this
      ensures o.Pass? <==> 0 <= index < |old(items)|
      ensures o.Pass? ==> items == DeleteAt(old(items), index) && raised == old(raised) + [Removed]
      ensures o.Fail? ==> items == old(items) && raised == old(raised)
    {
      if !(0 <= index < |items|) {
        return Fail(ArgumentOutOfRange);
      }
      items := DeleteAt(items, index);
      raised := raised + [Removed];
      return Pass;
    }

    /** The indexer's getter. */
    function Get(index: int): (r: Result<T, ListError>)
      reads this
      ensures r.Success? <==> 0 <= index < |items|
      ensures r.Success? ==> r.value == items[index]
    {
      if 0 <= index < |items| then Success(items[index]) else Failure(ArgumentOutOfRange)
    }

    /** The indexer's setter: replaces one element and raises nothing. */
    method Set(index: int, value: T) returns (o: Outcome<ListError>)
      modifies this
      ensures o.Pass? <==> 0 <= index < |old(items)|
      ensures o.Pass? ==> items == old(items)[index := value]
      ensures o.Fail? ==> items == old(items)
      ensures raised == old(raised)
    {
      if !(0 <= index < |items|) {
        return Fail(ArgumentOutOfRange);
      }
      items := items[index := value];
      return Pass;
    }

    function Count(): (r: nat)
      reads this
      ensures r == |items|
      ensures r == 0 <==> items == []
    {
      |items|
    }

    function IndexOf(item: T): (r: int)
      reads this
      ensures -1 <= r < Count()
      ensures r == -1 <==> item !in items
      ensures r >= 0 ==> items[r] == item && item !in items[..r]
    {
      FirstIndex(items, item)
    }

    function Contains(item: T): (b: bool)
      reads this
      ensures b <==> IndexOf(item) != -1
      ensures b <==> item in items
    {
      item in items
    }
  }
}
