/** The vector abstract data type: a heap record with a length, an allocated length, and data. */
module Vectors {
  class Vec<T> {
    const zero: T            // what calloc fills memory with
    var len: int
    var data: array<T>
    var allocatedLen: int

    ghost predicate Valid()
      reads this
    {
      data.Length == (if allocatedLen <= 0 then 0 else allocatedLen) && len <= data.Length
    }

    /** The elements in use; a vector of negative length has none. */
    function Elements(): seq<T>
      reads this, data
      requires Valid()
    {
      if len <= 0 then [] else data[..len]
    }

    /** new_vec. */
    constructor (len: int, zero: T)
      ensures Valid() && fresh(data) && this.zero == zero
      ensures this.len == allocatedLen == len
      ensures forall x :: x in data[..] ==> x == zero
    {
      this.zero := zero;
      this.len := len;
      this.allocatedLen := len;
      this.data := new T[if len > 0 then len else 0](_ => zero);
    }

    /** vec_length. */
    method Length() returns (n: int)
      ensures n == len
    {
      n := len;
    }

    /** get_vec_element: out of bounds, the destination keeps its value. */
    method Get(index: int, dest: T) returns (ok: bool, val: T)
      requires Valid()
      ensures ok <==> 0 <= index < |Elements()|
      ensures val == if ok then Elements()[index] else dest
    {
      if index < 0 || index >= len {
        return false, dest;
      }
      return true, data[index];
    }

    /** set_vec_element. */
    method Set(index: int, val: T) returns (ok: bool)
      requires Valid()
      modifies data
      ensures Valid()
      ensures ok <==> 0 <= index < old(|Elements()|)
      ensures Elements() == if ok then old(Elements())[index := val] else old(Elements())
      ensures forall i :: 0 <= i < data.Length && i != index ==> data[i] == old(data[i])
    {
      if index < 0 || index >= len {
        return false;
      }
      data[index] := val;
      ok := true;
    }

    /** set_vec_length.  Growing past the allocation loses the contents; within the allocation
        nothing is touched, so elements cut off by shrinking come back when growing again. */
    method SetLength(newlen: int)
      requires Valid()
      modifies this
      ensures Valid() && len == newlen
      ensures newlen <= old(allocatedLen) ==> data == old(data) && allocatedLen == old(allocatedLen)
      ensures newlen > old(allocatedLen) ==>
                allocatedLen == newlen && fresh(data) && forall x :: x in Elements() ==> x == zero
    {
      if newlen > allocatedLen {
        data := new T[if newlen > 0 then newlen else 0](_ => zero);
        allocatedLen := newlen;
      }
      len := newlen;
    }

    /** Shrinking and then growing back restores the vector. */
    method ShrinkAndRestore(smaller: int)
      requires Valid() && smaller <= len
      modifies this
      ensures Valid() && Elements() == old(Elements())
    {
      var n := len;
      SetLength(smaller);
      SetLength(n);
    }
  }
}
