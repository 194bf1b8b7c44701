/** The bounded stack of src/stack.c: a content array and the index of its top. */
module BoundedStack {
  import opened Wrappers

  const EINVAL := 22
  const ENOBUFS := 105

  class Stack<T(0)> {
    var content: array<T>
    var size: int
    var top: int

    ghost predicate Valid()
      reads this
    {
      size == content.Length && -1 <= top < size
    }

    /** What lies on the stack, the bottom first. */
    ghost function Items(): (s: seq<T>)
      requires Valid()
      reads this, content
      ensures |s| == top + 1
    {
      content[..top + 1]
    }

    /** A fresh stack for `capacity` items; a capacity that is not positive leaves it without room. */
    constructor (capacity: int)
      ensures Valid() && Items() == [] && fresh(content)
      ensures size == if capacity <= 0 then 0 else capacity
    {
      var room := if capacity <= 0 then 0 else capacity;
      content := new T[room];
      size := room;
      top := -1;
    }

    /** Pushes a value unless it is NULL or the stack is full. */
    method Push(val: Option<T>) returns (err: int)
      requires Valid()
      modifies this`top, content
      ensures Valid()
      ensures err == if val.None? then -EINVAL else if |old(Items())| == size then -ENOBUFS else 0
      ensures Items() == if err == 0 then old(Items()) + [val.value] else old(Items())
    {
      if val.None? {
        return -EINVAL;
      }
      if top + 1 >= size {
        return -ENOBUFS;
      }
      top := top + 1;
      content[top] := val.value;
      err := 0;
    }

    method Top() returns (r: Option<T>)
      requires Valid()
      ensures r == if Items() == [] then None else Some(Items()[|Items()| - 1])
    {
      r := if top >= 0 then Some(content[top]) else None;
    }

    /** Takes the top item off; nothing happens to an empty stack. */
    method Pop() returns (r: Option<T>)
      requires Valid()
      modifies this`top
      ensures Valid()
      ensures old(Items()) == [] ==> r == None && Items() == []
      ensures old(Items()) != [] ==> r.Some? && old(Items()) == Items() + [r.value]
    {
      r := None;
      if top >= 0 {
        r := Some(content[top]);
        top := top - 1;
      }
    }

    function Size(): (n: int)
      requires Valid()
      reads this, content
      ensures n == |Items()|
    {
      top + 1
    }
  }
}
