/**
 `BytesMut`: some bytes, and a capacity at least as large. Only `SplitOff` has a
 precondition, and it is the one that used to be a panic.
 */
module Buffers {
  import opened Base

  datatype BytesMut = BytesMut(contents: Bytes, capacity: nat) {
    predicate Valid() {
      |contents| <= capacity
    }

    /** Room for at least `additional` more bytes. */
    function Reserve(additional: nat): (r: BytesMut)
      requires Valid()
      ensures r.Valid() && r.contents == contents && r.capacity >= |contents| + additional
      ensures |contents| + additional <= capacity ==> r == this
    {
      if |contents| + additional <= capacity then this
      else BytesMut(contents, |contents| + additional)
    }

    function Put(b: Bytes): (r: BytesMut)
      requires Valid()
      ensures r.Valid() && r.contents == contents + b
      ensures |contents| + |b| <= capacity ==> r.capacity == capacity
    {
      BytesMut(contents + b, Reserve(|b|).capacity)
    }

    /** Everything from `at` on, spare capacity included; panics past the capacity. */
    function SplitOff(at: nat): (r: (BytesMut, BytesMut))
      requires Valid() && at <= capacity
      ensures r.0.Valid() && r.1.Valid()
      ensures r.0.contents + r.1.contents == contents
      ensures r.0.capacity == at && r.0.capacity + r.1.capacity == capacity
      ensures at >= |contents| ==> r.1.contents == []
    {
      if at <= |contents| then
        (BytesMut(contents[..at], at), BytesMut(contents[at..], capacity - at))
      else
        (BytesMut(contents, at), BytesMut([], capacity - at))
    }

    /** The other buffer's bytes after these, whether or not the two still adjoin. */
    function Unsplit(other: BytesMut): (r: BytesMut)
      requires Valid() && other.Valid()
      ensures r.Valid() && r.contents == contents + other.contents
    {
      BytesMut(contents + other.contents, capacity + other.capacity)
    }
  }
}
