/** The current column value object (src/Commie/CSVCol.php): a get/set holder
    for one cell's value that only accepts scalar replacements. */
module Columns {
  import opened Php

  /** The value a column starts with: the given value, or its `trim` when
      trimming is on. */
  function InitialValue(val: Mixed, trimAll: bool): (r: Mixed)
    requires trimAll ==> !val.Array?
    ensures !trimAll ==> r == val
    ensures trimAll ==> r.Str? && Trim(r.s) == r.s
  {
    if trimAll then
      TrimIdempotent(ToPhpString(val));
      Str(Trim(ToPhpString(val)))
    else val
  }

  class CsvCol {
    var value: Mixed

    /** `trimAll` models the static `CSVCol::$TRIM_ALL` flag. Trimming an array
        is a type error in PHP, so a trimmed column needs a non-array value. */
    constructor (val: Mixed, trimAll: bool)
      requires trimAll ==> !val.Array?
      ensures value == InitialValue(val, trimAll)
    {
      value := val;
      if trimAll {
        value := Str(Trim(ToPhpString(val)));
      }
    }

    /** The stored value; reading it changes nothing. */
    function Value(): Mixed
      reads this
    {
      value
    }

    /** Replaces the value; a non-scalar value is refused with
        `UnexpectedValueException` and the old value kept. */
    method Set(val: Mixed) returns (r: Outcome<Error>)
      modifies this
      ensures r == if IsScalar(val) then Pass else Fail(UnexpectedValue)
      ensures value == if IsScalar(val) then val else old(value)
    {
      if !IsScalar(val) {
        return Fail(UnexpectedValue);
      }
      value := val;
      return Pass;
    }
  }
}
