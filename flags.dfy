/**
 * `stringSlice`, the `flag.Value` that collects every `-I`/`-ignore`
 * argument: each `Set` appends one value, and `String` shows them joined
 * by a comma and a space.
 */
module Flags {
  import opened Outcomes
  import opened Text

  class StringSlice {
    var values: seq<string>

    /** The zero value the program declares: no values. */
    constructor ()
      ensures values == []
    {
      values := [];
    }

    /** `String()`: the values joined with `", "`. */
    function String(): (r: string)
      reads this
      ensures values == [] ==> r == ""
      ensures |values| == 1 ==> r == values[0]
    {
      JoinWith(values, ", ")
    }

    /** `Set(value)`: appends `value` after the earlier values, which stay
        as they were, and never fails; what `String` shows grows by the
        separator and the new value. */
    method Set(value: string) returns (err: Option<string>)
      modifies this
      ensures values == old(values) + [value]
      ensures err == None
      ensures String() == if old(values) == [] then value else old(String()) + ", " + value
    {
      JoinWithAppend(values, ", ", value);
      values := values + [value];
      err := None;
    }
  }
}
