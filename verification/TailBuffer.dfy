/** The rolling tail of a plaintext sample in place: bytes are added behind the ones kept, and
    what is over the limit is shifted out within the same array. */
module TailBuffer {
  import opened Bytes
  import opened StoreSpec
  import StoreLaws

  class Tail {
    var data: array<byte>
    var len: nat
    ghost var chunks: seq<Bytes>

    ghost predicate Valid()
      reads this`data, this`len
    {
      len <= data.Length
    }

    ghost function Contents(): Bytes
      reads this`data, this`len, data
      requires Valid()
    {
      data[..len]
    }

    /** The last `max` bytes of all the chunks that were ever added. */
    ghost predicate Holds(max: nat)
      reads this, data
    {
      Valid() && Contents() == LastN(Concat(chunks), max)
    }

    constructor ()
      ensures Valid() && fresh(data) && Contents() == []
      ensures chunks == [] && forall max :: Holds(max)
    {
      chunks := [];
      data := new byte[0];
      len := 0;
    }

    /** Keeps at most the last `max` bytes of the old contents followed by `more`. */
    method Append(more: Bytes, max: nat)
      requires Valid()
      modifies this, data
      ensures Valid() && (data == old(data) || fresh(data))
      ensures Contents() == AppendTail(old(Contents()), more, max)
      ensures chunks == old(chunks) + [more] && (old(Holds(max)) ==> Holds(max))
    {
      StoreLaws.TailOfTail(Concat(chunks), more, max);
      ConcatSnoc(chunks, more);
      chunks := chunks + [more];
      if max == 0 {
        len := 0;
        return;
      }
      Extend(more);
      if len > max {
        Shift(max);
      }
    }

    /** Adds behind the end, in the same array if there is room and in a larger one if not. */
    method Extend(more: Bytes)
      requires Valid()
      modifies this`data, this`len, data
      ensures Valid() && (data == old(data) || fresh(data))
      ensures Contents() == old(Contents()) + more
    {
      if len + |more| > data.Length {
        Grow(len + |more|);
      }
      ghost var was := Contents();
      ghost var arr := data;
      for i := 0 to |more|
        invariant data == arr && len == |was| && len + |more| <= data.Length
        invariant data[..len + i] == was + more[..i]
      {
        data[len + i] := more[i];
      }
      len := len + |more|;
      assert more[..|more|] == more;
    }

    method Grow(need: nat)
      requires Valid() && need > data.Length
      modifies this`data
      ensures Valid() && fresh(data) && data.Length >= need && len == old(len)
      ensures Contents() == old(Contents())
    {
      var bigger := new byte[2 * need];
      for i := 0 to len
        invariant data == old(data) && len == old(len) && fresh(bigger)
        invariant bigger[..i] == data[..i] == old(data[..i])
      {
        bigger[i] := data[i];
      }
      data := bigger;
    }

    /** Moves the last `max` bytes to the front; source and destination may overlap. */
    method Shift(max: nat)
      requires Valid() && len > max
      modifies this`len, data
      ensures Valid() && Contents() == LastN(old(Contents()), max)
    {
      var from := len - max;
      for i := 0 to max
        invariant len == old(len) && data == old(data)
        invariant forall j :: 0 <= j < i ==> data[j] == old(data[from + j])
        invariant forall j :: i <= j < len ==> data[j] == old(data[j])
      {
        data[i] := data[from + i];
      }
      len := max;
    }
  }
}
