/**
 * NewLang's array (array.c): a class whose first `staticCapacity` elements
 * live in a fixed inline buffer and whose further elements live in a heap
 * buffer that is reallocated as it grows. Every method is proved against the
 * value-level description in ArraySpec through `Model()`.
 */
module NewLangArray {
  import opened ArraySpec

  /** `realloc` as the array uses it: a fresh buffer of `newCapacity`
      elements whose first `live` elements are those of `src`. */
  method Reallocate<T(0)>(src: array<T>, live: nat, newCapacity: nat) returns (dst: array<T>)
    requires live <= src.Length && live <= newCapacity
    ensures fresh(dst) && dst.Length == newCapacity
    ensures dst[..live] == src[..live]
  {
    dst := new T[newCapacity];
    var i := 0;
    while i < live
      invariant 0 <= i <= live
      invariant dst[..i] == src[..i]
    {
      dst[i] := src[i];
      i := i + 1;
    }
  }

  class Array<T(0)> {
    /** static_capacity and static_elems: set up once, before `init`, and never changed. */
    const staticCapacity: nat
    const staticElems: array<T>
    var staticLength: nat

    var dynamicLength: nat
    var dynamicCapacity: nat
    /** dynamic_elems; null stands for the absent buffer. */
    var dynamicElems: array?<T>

    /** Lengths never exceed capacities, the heap buffer exists exactly when
        its capacity is positive and is never the inline buffer. */
    ghost predicate Valid()
      reads this
    {
      && staticElems.Length == staticCapacity
      && staticLength <= staticCapacity
      && dynamicLength <= dynamicCapacity
      && (dynamicElems == null <==> dynamicCapacity == 0)
      && (dynamicElems != null ==> dynamicElems.Length == dynamicCapacity && dynamicElems != staticElems)
    }

    /** dynamic_elems[0..dynamic_length). */
    ghost function DynamicPart(): seq<T>
      reads this, dynamicElems
      requires Valid()
    {
      if dynamicElems == null then [] else dynamicElems[..dynamicLength]
    }

    /** The live state of the array as a value. */
    ghost function Model(): (p: Parts<T>)
      reads this, staticElems, dynamicElems
      requires Valid()
      ensures WithinCapacity(p)
    {
      Parts(staticElems[..staticLength], staticCapacity, DynamicPart(), dynamicCapacity)
    }

    /** The stub that reserves the inline buffer and sets static_capacity,
        followed by `init`. */
    constructor (staticCapacity: nat)
      ensures Valid() && Model() == Initial(staticCapacity)
      ensures fresh(staticElems) && dynamicElems == null
    {
      this.staticCapacity := staticCapacity;
      staticElems := new T[staticCapacity];
      new;
      Init();
    }

    /** `init`: empties both parts and drops the heap buffer; the inline
        capacity stays as it was set. */
    method Init()
      requires staticElems.Length == staticCapacity
      modifies this
      ensures Valid() && Model() == Initial(staticCapacity)
      ensures dynamicElems == null && Length() == 0 && IsNormalized()
    {
      dynamicLength := 0;
      dynamicCapacity := 0;
      dynamicElems := null;
      staticLength := 0;
    }

    /** `is_normalized`: every element lies in the heap buffer. */
    predicate IsNormalized()
      reads this, staticElems, dynamicElems
      requires Valid()
      ensures IsNormalized() <==> Visit(Model()) == Model().heap
    {
      staticLength == 0
    }

    /** `length`: the number of elements `foreach` visits. */
    function Length(): (r: nat)
      reads this, staticElems, dynamicElems
      requires Valid()
      ensures r == |Visit(Model())|
    {
      staticLength + dynamicLength
    }

    /** `resize_dynamic`, with the check corrected to newlen >= dynamic_length:
        the heap capacity becomes `newlen` and every live element stays. */
    method ResizeDynamic(newlen: nat)
      requires Valid() && ResizeKeepsElements(dynamicLength, newlen)
      modifies this
      ensures Valid() && Model() == old(Model()).(heapCapacity := newlen)
      ensures dynamicElems == null || fresh(dynamicElems)
    {
      if newlen == 0 {
        dynamicElems := null;
      } else if dynamicElems == null {
        dynamicElems := new T[newlen];
      } else {
        dynamicElems := Reallocate(dynamicElems, dynamicLength, newlen);
      }
      dynamicCapacity := newlen;
    }

    /** `normalize`: the heap buffer is resized to the total length and the
        inline elements are copied after the heap elements. */
    method Normalize()
      requires Valid()
      modifies this
      ensures Valid() && Model() == AfterNormalize(old(Model()))
      ensures IsNormalized() && Length() == old(Length())
      ensures dynamicElems == null || fresh(dynamicElems)
    {
      ResizeDynamic(dynamicLength + staticLength);
      if dynamicElems != null {
        var i := 0;
        while i < staticLength
          invariant 0 <= i <= staticLength
          invariant dynamicElems[..dynamicLength + i] == old(DynamicPart()) + staticElems[..i]
          modifies dynamicElems
        {
          dynamicElems[dynamicLength + i] := staticElems[i];
          i := i + 1;
        }
      }
      dynamicLength := dynamicLength + staticLength;
      staticLength := 0;
    }

    /** `reserve(cap)`. The request is only made when it keeps every live
        heap element; FilledInOrderReserveKeepsElements shows that this holds
        on every array filled in order. */
    method Reserve(cap: nat)
      requires Valid() && ReserveKeepsElements(Model(), cap)
      modifies this
      ensures Valid() && Model() == AfterReserve(old(Model()), cap)
      ensures dynamicElems == old(dynamicElems) || dynamicElems == null || fresh(dynamicElems)
      ensures old(Length()) >= cap || cap <= staticCapacity ==> dynamicElems == old(dynamicElems)
    {
      if Length() >= cap {
        return;
      }
      if cap <= staticCapacity {
        return;
      }
      ResizeDynamic(cap - staticCapacity);
    }

    /** `pcopy`: after a structural copy, the copy gets its own heap buffer
        with the same contents. */
    method PCopy()
      requires Valid()
      modifies this
      ensures Valid() && Model() == old(Model())
      ensures (dynamicElems == null) == (old(dynamicElems) == null)
      ensures dynamicElems != null ==> fresh(dynamicElems)
    {
      if dynamicElems != null {
        dynamicElems := Reallocate(dynamicElems, dynamicCapacity, dynamicCapacity);
      }
    }

    /** `append(v)`: the inline fast path, else the heap with spare room,
        else grow the heap to 16 or double and store there. */
    method Append(v: T)
      requires Valid()
      modifies this, staticElems, dynamicElems
      ensures Valid() && Model() == AfterAppend(old(Model()), v)
      ensures old(staticLength) < staticCapacity ==>
                staticElems[old(staticLength)] == v && dynamicElems == old(dynamicElems)
      ensures old(staticLength) >= staticCapacity ==>
                dynamicElems != null && dynamicElems[old(dynamicLength)] == v
      ensures dynamicElems != old(dynamicElems) ==> fresh(dynamicElems)
      ensures old(staticLength) < staticCapacity || old(dynamicLength) < old(dynamicCapacity) ==>
                dynamicElems == old(dynamicElems)
    {
      if staticLength < staticCapacity {
        staticElems[staticLength] := v;
        staticLength := staticLength + 1;
      } else if dynamicLength < dynamicCapacity {
        dynamicElems[dynamicLength] := v;
        dynamicLength := dynamicLength + 1;
      } else {
        if dynamicCapacity == 0 {
          ResizeDynamic(16);
        } else {
          ResizeDynamic(dynamicCapacity * 2);
        }
        dynamicElems[dynamicLength] := v;
        dynamicLength := dynamicLength + 1;
      }
    }

    /** `foreach`: the elements in the order the callback sees them. */
    method Foreach() returns (visited: seq<T>)
      requires Valid()
      ensures visited == Visit(Model())
    {
      visited := [];
      for i := 0 to staticLength
        invariant visited == staticElems[..i]
      {
        visited := visited + [staticElems[i]];
      }
      for i := 0 to dynamicLength
        invariant visited == staticElems[..staticLength] + DynamicPart()[..i]
      {
        visited := visited + [dynamicElems[i]];
      }
    }
  }

  /** Inline capacity 2: appending 1, 2, 3, 4 keeps 1 and 2 inline and puts
      3 and 4 on a heap buffer whose first reservation is 16 elements. */
  method AppendScenario() returns (visited: seq<int>, inlineLength: nat, heapLength: nat, heapCapacity: nat)
    ensures visited == [1, 2, 3, 4]
    ensures inlineLength == 2 && heapLength == 2 && heapCapacity == 16
  {
    var a := new Array<int>(2);
    a.Append(1);
    a.Append(2);
    a.Append(3);
    a.Append(4);
    visited := a.Foreach();
    inlineLength, heapLength, heapCapacity := a.staticLength, a.dynamicLength, a.dynamicCapacity;
  }
}
