/** The kernel's growable array: data, count and capacity, elements moved in place. */
module GrowingArrays {
  import opened Options

  class Dynarray<T(0)> {
    var data: array<T>
    var count: nat

    ghost predicate Valid()
      reads this
    {
      count <= data.Length && data.Length > 0
    }

    function Contents(): (s: seq<T>)
      reads this, data
      requires Valid()
    {
      data[..count]
    }

    /** `dynarray_new`; the code's callers all ask for a positive size. */
    constructor (size: nat)
      requires size > 0
      ensures Valid() && fresh(data) && Contents() == [] && data.Length == size
    {
      data := new T[size];
      count := 0;
    }

    /** `dynarray_add`: a full array moves to one of twice the capacity. */
    method Add(x: T)
      requires Valid()
      modifies this, data
      ensures Valid() && (data == old(data) || fresh(data))
      ensures Contents() == old(Contents()) + [x]
      ensures data.Length == if old(count) == old(data.Length) then 2 * old(data.Length) else old(data.Length)
    {
      if count + 1 > data.Length {
        var bigger := new T[2 * data.Length];
        for i := 0 to data.Length
          invariant data == old(data) && data[..] == old(data[..]) && Valid() && count == old(count)
          invariant i <= data.Length && bigger[..i] == data[..i]
        {
          bigger[i] := data[i];
        }
        data := bigger;
      }
      data[count] := x;
      count := count + 1;
    }

    /** `dynarray_remove`: the elements behind move up; out of range, nothing. */
    method Remove(index: nat)
      requires Valid()
      modifies this`count, data
      ensures Valid() && data == old(data)
      ensures Contents() == if index < |old(Contents())|
                            then old(Contents())[..index] + old(Contents())[index + 1..]
                            else old(Contents())
    {
      if index >= count { return; }
      var i := index;
      while i < count - 1
        invariant index <= i <= count - 1 && count == old(count) && data == old(data)
        invariant forall k :: 0 <= k < index ==> data[k] == old(data[k])
        invariant forall k :: index <= k < i ==> data[k] == old(data[k + 1])
        invariant forall k :: i <= k < data.Length ==> data[k] == old(data[k])
      {
        data[i] := data[i + 1];
        i := i + 1;
      }
      count := count - 1;
    }

    /** `dynarray_remove_last`; an empty array has nothing to give, the code's null. */
    method RemoveLast() returns (x: Option<T>)
      requires Valid()
      modifies this`count
      ensures Valid()
      ensures old(Contents()) == [] ==> x.None? && Contents() == []
      ensures old(Contents()) != [] ==> x.Some? && old(Contents()) == Contents() + [x.value]
    {
      if count == 0 {
        x := None;
      } else {
        x := Some(data[count - 1]);
        count := count - 1;
      }
    }

    /** `dynarray_get`; null out of range. */
    method Get(i: nat) returns (x: Option<T>)
      requires Valid()
      ensures x == if i < |Contents()| then Some(Contents()[i]) else None
    {
      x := if i < count then Some(data[i]) else None;
    }
  }
}
