/** The owned array of El/LightArray.hpp: the storage under the hash map. */
module LightArray {

  class LightArray<T> {
    var elements: array<T>
    var size: nat

    ghost predicate Valid()
      reads this
    {
      size <= elements.Length
    }

    ghost function Contents(): (s: seq<T>)
      reads this, elements
      requires Valid()
      ensures |s| == size
    {
      elements[..size]
    }

    constructor ()
      ensures Valid() && fresh(elements) && Contents() == []
    {
      elements := new T[0];
      size := 0;
    }

    /** A default-constructed element is the argument initial. */
    method Resize(val: nat, noRealloc: bool, initial: T)
      requires Valid()
      modifies this, elements
      ensures Valid() && (elements == old(elements) || fresh(elements))
      ensures size == val
      ensures old(size) <= val ==> Contents() == old(Contents()) + seq(val - old(size), _ => initial)
      ensures val < old(size) ==> Contents() == old(Contents())[..val]
    {
      if size == val {
        return;
      }
      if noRealloc && val < size {
        for i := val to size
          invariant elements == old(elements) && size == old(size)
          invariant elements[..val] == old(elements[..val])
        {
          elements[i] := initial;
        }
        size := val;
      } else {
        var newElements := new T[val](_ => initial);
        var count := if val < size then val else size;
        for i := 0 to count
          invariant unchanged(this) && unchanged(elements)
          invariant newElements[..i] == elements[..i]
          invariant forall j :: i <= j < val ==> newElements[j] == initial
        {
          newElements[i] := elements[i];
        }
        assert forall j :: 0 <= j < count ==> newElements[j] == elements[..size][j];
        size := val;
        elements := newElements;
      }
    }

    /** Hand the elements over to dest and become empty. */
    method Release(dest: LightArray<T>)
      requires Valid() && dest != this
      modifies this, dest
      ensures Valid() && fresh(elements) && Contents() == []
      ensures dest.Valid() && dest.elements == old(elements) && dest.Contents() == old(Contents())
    {
      dest.elements := elements;
      dest.size := size;
      elements := new T[0];
      size := 0;
    }

    method Swap(value: LightArray<T>)
      requires Valid() && value.Valid() && value != this
      modifies this, value
      ensures Valid() && value.Valid()
      ensures elements == old(value.elements) && Contents() == old(value.Contents())
      ensures value.elements == old(elements) && value.Contents() == old(Contents())
    {
      var tmp := new LightArray<T>();
      Release(tmp);
      value.Release(this);
      tmp.Release(value);
    }
  }
}
