/** The grow-by-doubling record array used twice by a search: for the match
    records (`matches`, `match_count`, `match_capacity`) and for the file entries
    (`entries`, `entry_count`, `entry_capacity`). */
module Growable {
  import opened Arith

  class Vec<T(0)> {
    /** The allocated buffer; its length is the capacity. */
    var data: array<T>
    /** Number of records in use. */
    var count: nat

    ghost predicate Valid()
      reads this
    {
      count <= data.Length
    }

    function Capacity(): nat
      reads this
    {
      data.Length
    }

    /** The records in use, in index order. */
    ghost function Elements(): seq<T>
      reads this, data
      requires Valid()
    {
      data[..count]
    }

    /** A zeroed state: no buffer (capacity 0) and no records. */
    constructor ()
      ensures Valid() && fresh(data)
      ensures Elements() == [] && Capacity() == 0
    {
      data := new T[0];
      count := 0;
    }

    /** Append one record: when full, the capacity becomes max(1, 2 * capacity) and the
        records are carried into the new buffer; the record goes at the old count. */
    method Push(x: T)
      requires Valid()
      modifies this, data
      ensures Valid()
      ensures Elements() == old(Elements()) + [x]
      ensures count == old(count) + 1
      ensures Capacity() ==
        if old(count) == old(Capacity()) then IMax(1, 2 * old(Capacity())) else old(Capacity())
      ensures data == old(data) || fresh(data)
    {
      if count == data.Length {
        var bigger := new T[IMax(1, 2 * data.Length)];
        forall k | 0 <= k < count {
          bigger[k] := data[k];
        }
        data := bigger;
      }
      data[count] := x;
      count := count + 1;
    }

    /** Record `k`. */
    method Get(k: nat) returns (x: T)
      requires Valid() && k < count
      ensures x == Elements()[k]
    {
      x := data[k];
    }

    /** Forget every record; the buffer and its capacity are kept. */
    method Clear()
      requires Valid()
      modifies this`count
      ensures Valid() && Elements() == [] && count == 0
      ensures Capacity() == old(Capacity())
    {
      count := 0;
    }
  }
}
