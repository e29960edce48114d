/** Timestamp of src/util.h: a (seconds, microseconds) pair, its arithmetic and its order. */
module Timestamps {

  const PER_SEC := 1000000   // kMicrosecondsPerSecond

  datatype Timestamp = Timestamp(sec: int, usec: int) {

    /** toMicroSec(), over unbounded integers. */
    function Micros(): int {
      sec * PER_SEC + usec
    }

    predicate Canonical() {
      0 <= usec < PER_SEC
    }

    /** What the constructor leaves of a 32-bit usec, whatever its value. */
    predicate NearlyCanonical() {
      -PER_SEC < usec <= PER_SEC
    }

    /** compareTo: -1, 0 or 1. */
    function CompareTo(rhs: Timestamp): int {
      if rhs.sec > sec then -1
      else if rhs.sec < sec then 1
      else if rhs.usec > usec then -1
      else if rhs.usec < usec then 1
      else 0
    }

    predicate Less(rhs: Timestamp) {
      CompareTo(rhs) == -1
    }
  }

  /** C++ division and remainder: both truncate toward zero. */
  function TruncDiv(a: int, b: int): int
    requires b > 0
  {
    if a >= 0 then a / b else -(-a / b)
  }

  function TruncMod(a: int, b: int): int
    requires b > 0
  {
    a - b * TruncDiv(a, b)
  }

  /** The constructor Timestamp(sec, usec): it carries only when the 32-bit unsigned view of usec
      is strictly above one second. */
  function Make(sec: int, usec: int): Timestamp {
    if usec % 0x1_0000_0000 > PER_SEC
    then Timestamp(sec + TruncDiv(usec, PER_SEC), TruncMod(usec, PER_SEC))
    else Timestamp(sec, usec)
  }

  function Add(a: Timestamp, b: Timestamp): Timestamp {
    Make(a.sec + b.sec, a.usec + b.usec)
  }

  function Sub(a: Timestamp, b: Timestamp): Timestamp {
    if a.usec < b.usec
    then Make(a.sec - b.sec - 1, a.usec + PER_SEC - b.usec)
    else Make(a.sec - b.sec, a.usec - b.usec)
  }

  /** On canonical operands both operators are exact in microseconds, and a sum is canonical unless
      the microsecond parts add up to exactly one second; differences always are. */
  lemma ArithmeticExact(a: Timestamp, b: Timestamp)
    requires a.Canonical() && b.Canonical()
    ensures Add(a, b).Micros() == a.Micros() + b.Micros()
    ensures Sub(a, b).Micros() == a.Micros() - b.Micros()
    ensures Add(a, b).Canonical() <==> a.usec + b.usec != PER_SEC
    ensures Sub(a, b).Canonical()
    ensures a.Micros() == a.sec * 1000000 + a.usec && (a.Canonical() <==> 0 <= a.usec <= 999999)
  {
    var u := a.usec + b.usec;
    if u > PER_SEC {
      assert u / PER_SEC == 1;
    }
  }

  lemma SubThenAdd(a: Timestamp, b: Timestamp)
    requires a.Canonical() && b.Canonical()
    ensures Add(Sub(a, b), b).Micros() == a.Micros()
  {
    ArithmeticExact(a, b);
    ArithmeticExact(Sub(a, b), b);
  }

  /** compareTo agrees with the order of microseconds on canonical values. */
  lemma CompareAgrees(a: Timestamp, b: Timestamp)
    requires a.Canonical() && b.Canonical()
    ensures a.CompareTo(b) == -1 <==> a.Micros() < b.Micros()
    ensures a.CompareTo(b) == 0 <==> a.Micros() == b.Micros()
    ensures a.CompareTo(b) == 1 <==> a.Micros() > b.Micros()
  {
    if a.sec < b.sec {
      assert (b.sec - a.sec) * PER_SEC >= PER_SEC;
    } else if a.sec > b.sec {
      assert (a.sec - b.sec) * PER_SEC >= PER_SEC;
    }
  }

  /** Exactly when the carry is missed, the sum compares below the canonical value of the same instant. */
  lemma MissedCarry(a: Timestamp, b: Timestamp)
    requires a.Canonical() && b.Canonical()
    ensures var next := Timestamp(a.sec + b.sec + 1, 0);
      a.usec + b.usec == PER_SEC <==> Add(a, b).Micros() == next.Micros() && Add(a, b).Less(next)
  {
    ArithmeticExact(a, b);
  }

  lemma MadeIsNearlyCanonical(sec: int, usec: int)
    requires -0x8000_0000 <= usec < 0x8000_0000
    ensures Make(sec, usec).NearlyCanonical()
    ensures Make(sec, usec).Micros() == sec * 1000000 + usec
    ensures if usec >= 0 then Make(sec, usec).usec >= 0 else Make(sec, usec).usec <= 0
  {
  }

  /** Adding an interval, even a negative one, to a later (or equal) canonical clock gives a later (or equal)
      time. */
  lemma AddMonotone(interval: Timestamp, c0: Timestamp, c1: Timestamp)
    requires interval.NearlyCanonical() && c0.Canonical() && c1.Canonical()
    requires !c1.Less(c0)
    ensures !Add(interval, c1).Less(Add(interval, c0))
  {
    AddCarries(interval, c0);
    AddCarries(interval, c1);
  }

  lemma AddCarries(interval: Timestamp, clock: Timestamp)
    requires interval.NearlyCanonical() && clock.Canonical()
    ensures var u := interval.usec + clock.usec;
      Add(interval, clock) ==
        if u > PER_SEC then Timestamp(interval.sec + clock.sec + 1, u - PER_SEC)
        else Timestamp(interval.sec + clock.sec, u)
  {
    var u := interval.usec + clock.usec;
    assert u > PER_SEC ==> u / PER_SEC == 1;
    assert u < 0 ==> -u / PER_SEC == 0;
  }

  /** A positive interval added to a canonical clock lies strictly after that clock. */
  lemma AddAfter(interval: Timestamp, clock: Timestamp)
    requires interval.Canonical() && clock.Canonical()
    requires Timestamp(0, 0).Less(interval)
    ensures clock.Less(Add(interval, clock))
  {
    var u := interval.usec + clock.usec;
    assert u > PER_SEC ==> u / PER_SEC == 1;
  }
}
