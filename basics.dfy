/** Option and Result values, and the string helpers the system's messages use. */
module Basics {

  /** A JavaScript value that may be `undefined`. */
  datatype Option<+T> = None | Some(value: T) {

    /** The value, or `default` when there is none. */
    function GetOr(default: T): T {
      if Some? then value else default
    }

    /** This option when it holds a value, `other` otherwise: how a later
        field that is `undefined` leaves an earlier one in place. */
    function OrElse(other: Option<T>): Option<T> {
      if Some? then this else other
    }
  }

  /** The outcome of an operation that may throw: a value or an error message. */
  datatype Result<+T, +E> = Success(value: T) | Failure(error: E)

  function Digit(d: nat): char
    requires d < 10
  {
    "0123456789"[d]
  }

  /** Decimal rendering of a natural number, as a template literal prints it. */
  function NatToString(n: nat): string
  {
    if n < 10 then [Digit(n)] else NatToString(n / 10) + [Digit(n % 10)]
  }

  /** Decimal rendering of an integer, with a leading '-' when negative. */
  function IntToString(i: int): string
  {
    if i < 0 then "-" + NatToString(-i) else NatToString(i)
  }

  predicate StartsWith(s: string, prefix: string)
  {
    |prefix| <= |s| && s[..|prefix|] == prefix
  }

  /** `Array.prototype.join`: the parts in order, `separator` between neighbours. */
  function Join(parts: seq<string>, separator: string): string
  {
    if |parts| == 0 then ""
    else if |parts| == 1 then parts[0]
    else parts[0] + separator + Join(parts[1..], separator)
  }

  /** Joining is order-preserving: one more part lands at the end, after one
      more separator. */
  lemma {:induction false} JoinAppend(parts: seq<string>, separator: string, last: string)
    requires |parts| > 0
    ensures Join(parts + [last], separator) == Join(parts, separator) + separator + last
  {
    var whole := parts + [last];
    if |parts| > 1 {
      assert whole[1..] == parts[1..] + [last];
      JoinAppend(parts[1..], separator, last);
    } else {
      assert whole[1..] == [last];
    }
  }
}
