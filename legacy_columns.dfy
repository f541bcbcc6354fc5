/** The earlier column value object (Commie/CSVCol.php): the same holder, but
    `set` stores whatever it is given. */
module LegacyColumns {
  import opened Php
  import Columns

  class CsvCol {
    var value: Mixed

    /** `trimAll` models the static `CSVCol::$TRIM_ALL` flag. Trimming an array
        is a type error in PHP, so a trimmed column needs a non-array value. */
    constructor (val: Mixed, trimAll: bool)
      requires trimAll ==> !val.Array?
      ensures value == Columns.InitialValue(val, trimAll)
    {
      value := val;
      if trimAll {
        value := Str(Trim(ToPhpString(val)));
      }
    }

    /** The stored value; reading it changes nothing. */
    function Value(): Mixed
      reads this
    {
      value
    }

    /** Replaces the value, without any check on its type. */
    method Set(val: Mixed)
      modifies this
      ensures value == val
    {
      value := val;
    }
  }
}
