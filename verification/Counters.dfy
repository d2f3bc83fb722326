/** Named tallies, kept per worker and summed by the coordinator. */
module Counters {
  import opened CoordinatorSpec

  class Tally {
    var values: map<string, int>

    constructor ()
      ensures values == map[]
    {
      values := map[];
    }

    method Inc(name: string, delta: int)
      modifies this
      ensures values == AddCounters(old(values), map[name := delta])
    {
      values := values[name := (if name in values then values[name] else 0) + delta];
    }

    method Get(name: string) returns (v: int)
      ensures v == if name in values then values[name] else 0
    {
      return if name in values then values[name] else 0;
    }

    /** Adds every counter of `other`, in whatever order they are visited. */
    method Merge(other: map<string, int>)
      modifies this
      ensures values == AddCounters(old(values), other)
    {
      var left := other.Keys;
      while left != {}
        invariant left <= other.Keys
        invariant values.Keys == old(values).Keys + (other.Keys - left)
        invariant forall name <- values ::
                    values[name] == (if name in old(values) then old(values)[name] else 0)
                                    + if name in other.Keys - left then other[name] else 0
      {
        var name: string :| name in left;
        values := values[name := (if name in values then values[name] else 0) + other[name]];
        left := left - {name};
      }
    }

    method Snapshot() returns (out: map<string, int>)
      ensures out == values
    {
      out := values;
    }

    method Reset()
      modifies this
      ensures values == map[]
    {
      values := map[];
    }
  }
}
