/**
  The interpreter's small collection helpers: two linear searches and a
  collector that gathers a sequence of items into a pooled array, doubling
  the array whenever it fills up.
 */
module Utility {
  import opened Wrappers

  // ---------------------------------------------------------------------------
  // Searching
  // ---------------------------------------------------------------------------

  /** The index of the first occurrence of c in str, or -1 when c does not occur. */
  method IndexOfChar(str: string, c: char) returns (index: int)
    ensures index == -1 <==> c !in str
    ensures index != -1 ==> 0 <= index < |str| && str[index] == c && c !in str[..index]
  {
    for i := 0 to |str|
      invariant c !in str[..i]
    {
      if str[i] == c {
        return i;
      }
    }
    assert str[..|str|] == str;
    return -1;
  }

  /**
    An array element matches the item searched for when it is present (not
    null) and equal to the item; a null element matches nothing.
   */
  predicate Matches<T(==)>(element: Option<T>, item: Option<T>)
  {
    element.Some? && element == item
  }

  /**
    The index of the first element of items that matches item, or -1 when
    none does or there is no array at all.
   */
  method IndexOf<T(==)>(items: array?<Option<T>>, item: Option<T>) returns (index: int)
    ensures items == null ==> index == -1
    ensures items != null ==>
      (index == -1 <==> forall i :: 0 <= i < items.Length ==> !Matches(items[i], item))
    ensures index != -1 ==>
      && items != null && 0 <= index < items.Length && Matches(items[index], item)
      && forall j :: 0 <= j < index ==> !Matches(items[j], item)
  {
    if items == null {
      return -1;
    }
    for i := 0 to items.Length
      invariant forall j :: 0 <= j < i ==> !Matches(items[j], item)
    {
      if items[i].Some? && items[i] == item {
        return i;
      }
    }
    return -1;
  }

  // ---------------------------------------------------------------------------
  // Collecting into a pooled array
  // ---------------------------------------------------------------------------

  /** The pool hands out an array at least as long as asked for. */
  method Rent<T(0)>(minimumLength: nat) returns (arr: array<T>)
    ensures fresh(arr) && arr.Length >= minimumLength
  {
    arr := new T[minimumLength];
  }

  /**
    Collects items into an array rented from the pool, renting one twice the
    size and copying over whenever the array in hand is full. The first count
    cells of the array returned are the items, in order.
   */
  method ToRentedArray<T(0)>(items: seq<T>, initialSize: int) returns (arr: array<T>, count: int)
    requires initialSize >= 0
    requires |items| > 0 ==> initialSize >= 1
    ensures count == |items| <= arr.Length
    ensures arr[..count] == items
  {
    var size := initialSize;
    var i := 0;
    arr := Rent(size);
    while i < |items|
      invariant 0 <= i <= |items|
      invariant i <= size <= arr.Length
      invariant |items| > 0 ==> size >= 1
      invariant arr[..i] == items[..i]
      invariant fresh(arr)
    {
      var item := items[i];
      if i < size {
        // array can handle
        arr[i] := item;
        i := i + 1;
      } else {
        // array too small
        var newArr := Rent(size * 2);
        forall k | 0 <= k < size {
          newArr[k] := arr[k];
        }
        assert newArr[..i] == arr[..i];
        arr := newArr;
        size := newArr.Length;
        arr[i] := item;
        i := i + 1;
      }
    }
    count := i;
    assert items[..i] == items;
  }
}
