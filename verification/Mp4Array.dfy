/** The growable array under the lists of atoms and properties. */
module Mp4Array {
  import opened Wrappers

  class Array<T(0)> {
    var elements: array<T>
    var count: nat
    /** How many elements have been copied into larger storage so far. */
    ghost var copied: nat

    ghost predicate Valid()
      reads this
    {
      count <= elements.Length
    }

    ghost function Contents(): seq<T>
      requires Valid()
      reads this, elements
    {
      elements[..count]
    }

    constructor ()
      ensures Valid() && Contents() == [] && elements.Length == 0 && copied == 0 && fresh(elements)
    {
      elements := new T[0];
      count, copied := 0, 0;
    }

    /** Storage of another size that starts with the elements there are. */
    method Reallocate(capacity: nat)
      requires Valid() && capacity >= count
      modifies this`elements, this`copied
      ensures Valid() && elements.Length == capacity && fresh(elements)
      ensures Contents() == old(Contents()) && copied == old(copied) + count
    {
      var larger := new T[capacity];
      for i := 0 to count
        invariant elements == old(elements) && count == old(count) && copied == old(copied)
        invariant elements[..count] == old(elements[..count])
        invariant forall j :: 0 <= j < i ==> larger[j] == elements[j]
      {
        larger[i] := elements[i];
      }
      elements := larger;
      copied := copied + count;
    }

    /** Inserts before an index, or at the end; the storage doubles when it is full. */
    method Insert(element: T, index: nat) returns (ok: bool)
      requires Valid()
      modifies this, elements
      ensures Valid() && ok == (index <= old(count)) && (fresh(elements) || elements == old(elements))
      ensures ok ==> Contents() == old(Contents())[..index] + [element] + old(Contents())[index..]
      ensures !ok ==> Contents() == old(Contents()) && elements == old(elements) && copied == old(copied)
      ensures ok && old(count) < old(elements.Length) ==> elements == old(elements) && copied == old(copied)
      ensures ok && old(count) == old(elements.Length) ==>
                elements.Length == 2 * (if old(count) == 0 then 1 else old(count)) && copied == old(copied) + old(count)
    {
      if index > count {
        return false;
      }
      if count == elements.Length {
        Reallocate(2 * (if elements.Length == 0 then 1 else elements.Length));
      }
      ghost var before := Contents();
      MoveUp(index);
      elements[index] := element;
      count := count + 1;
      assert Contents() == before[..index] + [element] + before[index..];
      ok := true;
    }

    /** Moves the elements from an index on one place up, the last one first. */
    method MoveUp(index: nat)
      requires index <= count < elements.Length
      modifies elements
      ensures elements[..index] == old(elements[..index])
      ensures elements[index + 1..count + 1] == old(elements[index..count])
    {
      var k := count;
      while k > index
        invariant index <= k <= count
        invariant elements[..k] == old(elements[..k])
        invariant elements[k + 1..count + 1] == old(elements[k..count])
      {
        elements[k] := elements[k - 1];
        k := k - 1;
      }
    }

    method Add(element: T)
      requires Valid()
      modifies this, elements
      ensures Valid() && (fresh(elements) || elements == old(elements))
      ensures Contents() == old(Contents()) + [element]
      ensures old(count) < old(elements.Length) ==> elements == old(elements) && copied == old(copied)
      ensures old(count) == old(elements.Length) ==>
                elements.Length == 2 * (if old(count) == 0 then 1 else old(count)) && copied == old(copied) + old(count)
    {
      var ok := Insert(element, count);
    }

    /** Removes the element at an index by moving the ones behind it down. */
    method Delete(index: nat) returns (ok: bool)
      requires Valid()
      modifies this`count, elements
      ensures Valid() && ok == (index < old(count))
      ensures ok ==> Contents() == old(Contents())[..index] + old(Contents())[index + 1..]
      ensures !ok ==> Contents() == old(Contents())
    {
      if index >= count {
        return false;
      }
      ghost var before := Contents();
      MoveDown(index);
      count := count - 1;
      assert Contents() == before[..index] + before[index + 1..];
      ok := true;
    }

    /** Moves the elements behind an index one place down, the first one first. */
    method MoveDown(index: nat)
      requires index < count <= elements.Length
      modifies elements
      ensures forall i :: 0 <= i < index ==> elements[i] == old(elements[i])
      ensures forall i :: index <= i < count - 1 ==> elements[i] == old(elements[i + 1])
    {
      var k := index;
      while k < count - 1
        invariant index <= k <= count - 1
        invariant forall i :: 0 <= i < index || k < i < count ==> elements[i] == old(elements[i])
        invariant forall i :: index <= i < k ==> elements[i] == old(elements[i + 1])
      {
        elements[k] := elements[k + 1];
        k := k + 1;
      }
    }

    /** Cuts the array, or makes it longer by elements of any value. */
    method Resize(size: nat)
      requires Valid()
      modifies this
      ensures Valid() && count == size == elements.Length && fresh(elements)
      ensures size <= old(count) ==> Contents() == old(Contents())[..size]
      ensures size > old(count) ==> Contents()[..old(count)] == old(Contents())
    {
      if size < count {
        count := size;
      }
      Reallocate(size);
      count := size;
    }

    method Get(index: nat) returns (r: Option<T>)
      requires Valid()
      ensures r == if index < count then Some(Contents()[index]) else None
    {
      r := if index < count then Some(elements[index]) else None;
    }
  }

  /** Adding elements to an empty array copies fewer than two for each one added. */
  method AddAll<T(0)>(items: seq<T>) returns (a: Array<T>)
    ensures fresh(a) && a.Valid() && a.Contents() == items
    ensures |items| > 0 ==> a.copied < 2 * |items|
  {
    a := new Array<T>();
    for i := 0 to |items|
      invariant fresh(a) && fresh(a.elements) && a.Valid() && a.Contents() == items[..i]
      invariant i == 0 ==> a.elements.Length == 0 && a.copied == 0
      invariant i == 1 ==> a.elements.Length == 2 && a.copied == 0
      invariant i > 1 ==> a.copied == a.elements.Length - 2 && a.elements.Length <= 2 * (i - 1)
    {
      a.Add(items[i]);
      assert items[..i + 1] == items[..i] + [items[i]];
    }
    assert items[..|items|] == items;
  }
}
