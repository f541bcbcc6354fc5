/** The small part of PHP's runtime semantics that the CSV accessor relies on:
    its dynamically typed values, `is_scalar`, `trim`, `implode('', ...)`,
    string truthiness, and the exceptions the core raises (as error values). */
module Php {

  datatype Option<+T> = None | Some(value: T)

  datatype Result<+T, +E> = Success(value: T) | Failure(error: E)

  datatype Outcome<+E> = Pass | Fail(error: E)

  /** The exception classes the core throws. */
  datatype Error =
    | InvalidArgument    // \InvalidArgumentException
    | OutOfRange         // \OutOfRangeException
    | UnexpectedValue    // \UnexpectedValueException
    | ValueError         // \ValueError, thrown by PHP's own functions

  /** A PHP value, as far as the core distinguishes values. Floats and objects
      are not modelled; an array stands for every composite value. */
  datatype Mixed =
    | Null
    | Bool(b: bool)
    | Int(i: int)
    | Str(s: string)
    | Array(items: seq<Mixed>)

  /** PHP's `is_scalar`: integers, booleans and strings; null and arrays are not scalar. */
  predicate IsScalar(v: Mixed) {
    v.Bool? || v.Int? || v.Str?
  }

  /** The characters PHP's `trim` removes by default: space, tab, newline,
      carriage return, NUL and vertical tab. */
  predicate IsTrimChar(c: char) {
    c == ' ' || c == '\t' || c == '\n' || c == '\r' || c == '\0' || c == '\U{0B}'
  }

  /** Drops the leading trim characters. */
  function TrimStart(s: string): (r: string)
    ensures |r| <= |s| && r == s[|s| - |r|..]
    ensures forall k :: 0 <= k < |s| - |r| ==> IsTrimChar(s[k])
    ensures r == [] || !IsTrimChar(r[0])
  {
    if |s| > 0 && IsTrimChar(s[0]) then TrimStart(s[1..]) else s
  }

  /** Drops the trailing trim characters. */
  function TrimEnd(s: string): (r: string)
    ensures |r| <= |s| && r == s[..|r|]
    ensures forall k :: |r| <= k < |s| ==> IsTrimChar(s[k])
    ensures r == [] || !IsTrimChar(r[|r| - 1])
  {
    if |s| > 0 && IsTrimChar(s[|s| - 1]) then TrimEnd(s[..|s| - 1]) else s
  }

  /** PHP's `trim($s)` with the default character list. */
  function Trim(s: string): (r: string)
    ensures r == [] || (!IsTrimChar(r[0]) && !IsTrimChar(r[|r| - 1]))
    ensures exists i, j :: 0 <= i <= j <= |s| && r == s[i..j]
  {
    var t := TrimStart(s);
    var u := TrimEnd(t);
    assert u == s[|s| - |t|..|s| - |t| + |u|];
    u
  }

  /** Trimming is idempotent: a trimmed string has nothing left to trim. */
  lemma TrimIdempotent(s: string)
    ensures Trim(Trim(s)) == Trim(s)
  {
    var u := Trim(s);
    assert TrimStart(u) == u;
    assert TrimEnd(u) == u;
  }

  /** PHP's `implode('', $fields)`. */
  function Concat(fields: seq<string>): string {
    if fields == [] then "" else Concat(fields[..|fields| - 1]) + fields[|fields| - 1]
  }

  /** PHP's `(bool)$s` is false exactly for the strings "" and "0". */
  predicate IsFalsy(s: string) {
    s == "" || s == "0"
  }

  /** Every field is the empty string. */
  predicate AllEmpty(fields: seq<string>) {
    forall k :: 0 <= k < |fields| ==> fields[k] == ""
  }

  /** Field `z` is "0" and every other field is the empty string. */
  predicate OnlyZeroAt(fields: seq<string>, z: int) {
    0 <= z < |fields| && fields[z] == "0" &&
    forall k :: 0 <= k < |fields| && k != z ==> fields[k] == ""
  }

  /** The concatenation is empty exactly when every field is empty. */
  lemma {:induction false} ConcatEmpty(fields: seq<string>)
    ensures Concat(fields) == "" <==> AllEmpty(fields)
  {
    if fields != [] {
      var init := fields[..|fields| - 1];
      ConcatEmpty(init);
      assert forall k :: 0 <= k < |init| ==> init[k] == fields[k];
    }
  }

  /** A concatenation equal to "0" has exactly one "0" field among empty ones. */
  lemma {:induction false} ConcatZeroFields(fields: seq<string>)
    requires Concat(fields) == "0"
    ensures exists z :: OnlyZeroAt(fields, z)
  {
    var n := |fields| - 1;
    var init, last := fields[..n], fields[n];
    assert forall k :: 0 <= k < n ==> init[k] == fields[k];
    assert Concat(init) + last == "0";
    if last == "" {
      assert Concat(init) == "0";
      ConcatZeroFields(init);
      var z :| OnlyZeroAt(init, z);
      assert OnlyZeroAt(fields, z);
    } else {
      assert |Concat(init)| == 0;
      assert last == "0";
      ConcatEmpty(init);
      assert OnlyZeroAt(fields, n);
    }
  }

  /** Exactly one "0" field among empty ones concatenates to "0". */
  lemma {:induction false} ZeroFieldsConcat(fields: seq<string>, z: int)
    requires OnlyZeroAt(fields, z)
    ensures Concat(fields) == "0"
  {
    var n := |fields| - 1;
    var init := fields[..n];
    assert forall k :: 0 <= k < n ==> init[k] == fields[k];
    if z == n {
      ConcatEmpty(init);
      assert Concat(init) == "";
    } else {
      assert OnlyZeroAt(init, z);
      ZeroFieldsConcat(init, z);
      assert fields[n] == "";
    }
  }

  /** The concatenation is "0" exactly when one field is "0" and all others are empty. */
  lemma ConcatZero(fields: seq<string>)
    ensures Concat(fields) == "0" <==> exists z :: OnlyZeroAt(fields, z)
  {
    if Concat(fields) == "0" {
      ConcatZeroFields(fields);
    }
    if exists z :: OnlyZeroAt(fields, z) {
      var z :| OnlyZeroAt(fields, z);
      ZeroFieldsConcat(fields, z);
    }
  }

  /** The decimal digits of a natural number, as PHP prints it. */
  function NatToString(n: nat): (r: string)
    ensures |r| >= 1
    ensures forall k :: 0 <= k < |r| ==> '0' <= r[k] <= '9'
  {
    if n < 10 then [(n + '0' as int) as char]
    else NatToString(n / 10) + [((n % 10) + '0' as int) as char]
  }

  /** PHP's conversion of a value to a string, as `trim` performs it on its argument:
      null and false become "", true becomes "1", integers their decimal digits.
      Arrays have no string form (`trim` rejects them). */
  function ToPhpString(v: Mixed): string
    requires !v.Array?
  {
    match v
    case Null => ""
    case Bool(b) => if b then "1" else ""
    case Int(i) => if i < 0 then "-" + NatToString(-i) else NatToString(i)
    case Str(s) => s
  }
}
