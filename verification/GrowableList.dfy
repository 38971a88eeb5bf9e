/** `list.c`: a growable array. It backs the API log, the kernel table and the resource managers. */
module GrowableList {
  import opened Attempts

  const INITIAL_CAPACITY: nat := 4

  class List<T(0)> {
    var elements: array<T>
    var length: nat
    var capacity: nat
    /** How many elements `realloc` has copied so far. */
    ghost var copied: nat

    ghost predicate Valid()
      reads this
    {
      INITIAL_CAPACITY <= capacity == elements.Length && length <= capacity && copied == capacity - INITIAL_CAPACITY
    }

    ghost function Contents(): (s: seq<T>)
      requires Valid()
      reads this, elements
      ensures |s| == length
    {
      elements[..length]
    }

    /** `list_init` */
    constructor ()
      ensures Valid() && Contents() == [] && fresh(elements) && capacity == 4
    {
      elements := new T[INITIAL_CAPACITY];
      length, capacity, copied := 0, INITIAL_CAPACITY, 0;
    }

    /** The growth in `list_append`: room for one more element; a full list doubles. */
    method Grow()
      requires Valid()
      modifies this`elements, this`capacity, this`copied
      ensures Valid() && Contents() == old(Contents()) && length < capacity
      ensures elements == old(elements) || fresh(elements)
      ensures (capacity, copied) == GrowOnce(old(capacity), old(copied), length)
    {
      if capacity == length {
        var was := elements;
        elements := new T[2 * capacity];
        forall i | 0 <= i < length {
          elements[i] := was[i];
        }
        copied := copied + capacity;
        capacity := 2 * capacity;
      }
    }

    /** `list_append` with a place for the pointer: one more element, whose contents are not set. */
    method AppendSlot() returns (at: nat)
      requires Valid()
      modifies this, elements
      ensures Valid() && at == old(length) && length == at + 1 && Contents()[..at] == old(Contents())
      ensures elements == old(elements) || fresh(elements)
      ensures (capacity, copied) == GrowOnce(old(capacity), old(copied), old(length))
    {
      Grow();
      at := length;
      length := length + 1;
    }

    /** Writing through the pointer to an element. */
    method Set(at: nat, x: T)
      requires Valid() && at < length
      modifies elements
      ensures Valid() && Contents() == old(Contents())[at := x]
    {
      elements[at] := x;
    }

    /** `list_append_copy` */
    method Append(x: T)
      requires Valid()
      modifies this, elements
      ensures Valid() && Contents() == old(Contents()) + [x]
      ensures elements == old(elements) || fresh(elements)
      ensures (capacity, copied) == GrowOnce(old(capacity), old(copied), old(length))
    {
      var at := AppendSlot();
      Set(at, x);
    }

    /** `list_at` */
    method At(at: nat) returns (r: Attempt<T>)
      requires Valid()
      ensures r == if at < length then Ok(Contents()[at]) else Failed
    {
      if at >= length {
        return Failed;
      }
      return Ok(elements[at]);
    }

    /** `list_insert` */
    method Insert(at: nat, x: T) returns (r: Attempt<()>)
      requires Valid()
      modifies this, elements
      ensures Valid() && r == (if at <= old(length) then Ok(()) else Failed)
      ensures Contents() ==
              if at <= old(length) then old(Contents())[..at] + [x] + old(Contents())[at..] else old(Contents())
      ensures elements == old(elements) || fresh(elements)
    {
      if at > length {
        return Failed;
      }
      if at == length {
        Append(x);
        return Ok(());
      }
      Grow();
      MoveUp(at);
      elements[at] := x;
      length := length + 1;
      return Ok(());
    }

    /** The `memmove` of `list_insert`. */
    method MoveUp(at: nat)
      requires Valid() && at <= length < capacity
      modifies elements
      ensures elements[..at] == old(elements[..at]) && elements[at + 1..length + 1] == old(elements[at..length])
    {
      forall i | at <= i < length {
        elements[i + 1] := elements[i];
      }
    }

    /** `list_rm` */
    method Remove(at: nat) returns (r: Attempt<()>)
      requires Valid()
      modifies this, elements
      ensures Valid() && r == (if at < old(length) then Ok(()) else Failed)
      ensures Contents() ==
              if at < old(length) then old(Contents())[..at] + old(Contents())[at + 1..] else old(Contents())
      ensures elements == old(elements)
    {
      if at >= length {
        return Failed;
      }
      forall i | at <= i < length - 1 {
        elements[i] := elements[i + 1];
      }
      length := length - 1;
      return Ok(());
    }
  }

  /** Inserting an element and removing it again, in place. */
  method InsertThenRemove<T(0)>(l: List<T>, at: nat, x: T)
    requires l.Valid() && at <= l.length
    modifies l, l.elements
    ensures l.Valid() && l.Contents() == old(l.Contents())
  {
    ghost var s := l.Contents();
    var _ := l.Insert(at, x);
    var _ := l.Remove(at);
    assert s == s[..at] + s[at..];
  }

  /** Capacity and elements copied after an append to a list of `length` elements. */
  function GrowOnce(capacity: nat, copied: nat, length: nat): (nat, nat) {
    if capacity == length then (2 * capacity, copied + capacity) else (capacity, copied)
  }

  /** The same after `n` appends to a new list. */
  function GrowTimes(n: nat): (nat, nat) {
    if n == 0 then (INITIAL_CAPACITY, 0)
    else var (capacity, copied) := GrowTimes(n - 1); GrowOnce(capacity, copied, n - 1)
  }

  /** Appending costs constant time on average: fewer than two copies an element. */
  lemma {:induction false} AppendsAreAmortised(n: nat)
    ensures var (capacity, copied) := GrowTimes(n);
            n <= capacity && copied + 4 == capacity && (n > 4 ==> capacity < 2 * n) && (n > 0 ==> copied < 2 * n)
  {
    if n > 0 {
      AppendsAreAmortised(n - 1);
    }
  }
}
