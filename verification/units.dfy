/** The unit conversions of the timers (`num_microseconds` … `num_hours`): the nanosecond total
    divided by a fixed factor, truncating toward zero. */
module Units {

  /** The target units of the `num_*` queries other than nanoseconds. */
  datatype Unit = Microseconds | Milliseconds | Seconds | Minutes | Hours

  /** Nanoseconds in one `u`. */
  function NanosPer(u: Unit): (n: nat)
    ensures n >= 1000
  {
    match u
    case Microseconds => 1000
    case Milliseconds => 1000_000
    case Seconds => 1000_000_000
    case Minutes => 60_000_000_000
    case Hours => 3600_000_000_000
  }

  /** `r` is the number of whole `u`s contained in `ns`. */
  ghost predicate WholeUnits(r: nat, ns: nat, u: Unit) {
    r * NanosPer(u) <= ns < (r + 1) * NanosPer(u)
  }

  /** `ns` expressed in `u`, dropping the fractional part (Rust's unsigned `/`). */
  function Convert(ns: nat, u: Unit): (r: nat)
    ensures WholeUnits(r, ns, u)
  {
    ns / NanosPer(u)
  }

  /** Only one count of whole units fits a given total, so `Convert` is the unique truncation. */
  lemma WholeUnitsUnique(r: nat, s: nat, ns: nat, u: Unit)
    requires WholeUnits(r, ns, u) && WholeUnits(s, ns, u)
    ensures r == s
  {
    var d := NanosPer(u);
    FewerUnitsFromProducts(r, s + 1, d);
    FewerUnitsFromProducts(s, r + 1, d);
  }

  lemma FewerUnitsFromProducts(a: nat, b: nat, d: nat)
    requires d > 0 && a * d < b * d
    ensures a < b
  {
  }

  /** A longer total never converts to fewer units. */
  lemma ConvertMonotone(a: nat, b: nat, u: Unit)
    requires a <= b
    ensures Convert(a, u) <= Convert(b, u)
  {
    var d := NanosPer(u);
    FewerUnitsFromProducts(Convert(a, u), Convert(b, u) + 1, d);
  }

  /** Truncation, not rounding: 999 ns is 0 µs and 1000 ns is 1 µs. */
  lemma TruncatesExamples()
    ensures Convert(999, Microseconds) == 0
    ensures Convert(1000, Microseconds) == 1
    ensures Convert(59_999_999_999, Minutes) == 0
    ensures Convert(3600_000_000_000, Hours) == 1
  {
  }
}
