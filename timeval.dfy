/**
 * timeval_subtract, the normalising subtraction the glibc manual documents:
 * it borrows or carries whole seconds between the microsecond and second
 * fields of y before subtracting, and reports whether the difference is
 * negative.  Field widths (time_t, suseconds_t, int) are not modelled:
 * integers here do not overflow.
 */
module TimeVal {

  const Million := 1000000

  datatype Timeval = Timeval(sec: int, usec: int)

  /** The result written through `result`, and the function's return value (1 or 0). */
  datatype Difference = Difference(result: Timeval, negative: int)

  /** The instant a timeval denotes, in microseconds. */
  function Micros(t: Timeval): int
  {
    t.sec * Million + t.usec
  }

  /** A timeval whose microsecond field lies in [0, 1000000). */
  predicate Normalized(t: Timeval)
  {
    0 <= t.usec < Million
  }

  /**
   * timeval_subtract(x, y).  Both divisions have a positive dividend, so
   * Dafny's division agrees with C's truncating one.
   */
  function Subtract(x: Timeval, y: Timeval): (d: Difference)
    ensures Micros(d.result) == Micros(x) - Micros(y)
    ensures 0 <= d.result.usec <= Million
  {
    // borrow: make y.usec no larger than x.usec
    var y1 :=
      if x.usec < y.usec then
        var nsec := (y.usec - x.usec) / Million + 1;
        Timeval(y.sec + nsec, y.usec - Million * nsec)
      else y;
    // carry: bring x.usec - y.usec down to at most one second
    var y2 :=
      if x.usec - y1.usec > Million then
        var nsec := (x.usec - y1.usec) / Million;
        Timeval(y1.sec - nsec, y1.usec + Million * nsec)
      else y1;
    Difference(Timeval(x.sec - y2.sec, x.usec - y2.usec), if x.sec < y2.sec then 1 else 0)
  }

  /** For normalised operands the result is normalised too. */
  lemma SubtractNormalized(x: Timeval, y: Timeval)
    requires Normalized(x) && Normalized(y)
    ensures Normalized(Subtract(x, y).result)
  {
  }

  /**
   * The return value is 1 whenever the difference is negative; it is 1 for a
   * zero difference only when the result's usec is a full second.
   */
  lemma SubtractSign(x: Timeval, y: Timeval)
    ensures Micros(x) < Micros(y) ==> Subtract(x, y).negative == 1
    ensures Subtract(x, y).negative == 1 ==> Micros(x) <= Micros(y)
    ensures Subtract(x, y).negative == 0 || Subtract(x, y).negative == 1
  {
  }

  /** For normalised operands the return value is 1 exactly when the difference is negative. */
  lemma SubtractSignNormalized(x: Timeval, y: Timeval)
    requires Normalized(x) && Normalized(y)
    ensures Subtract(x, y).negative == 1 <==> Micros(x) < Micros(y)
  {
    SubtractNormalized(x, y);
  }

  /** Operands outside the normal range can give a usec of a full second and a zero difference flagged negative. */
  lemma SubtractFullSecond()
    ensures Subtract(Timeval(0, 0), Timeval(-1, Million)) == Difference(Timeval(-1, Million), 1)
  {
  }
}
