/** The arithmetic of the HH:MM:SS.ss time stamps: fmt_time in scripts/align_whisper.py and
    scripts/llm_align.py, seconds_to_timestamp in scripts/fetch_transcriptions.py and
    scripts/fetch_all_transcriptions.py (the same three lines in all four), and its inverse
    _parse_fmt in scripts/llm_align.py. Python's `//` and `%` on floats round toward minus
    infinity; the string formatting itself is not modelled. */
module Clock {

  /** Python's `x // d` for a positive divisor. */
  function FloorDiv(x: real, d: real): int
    requires d > 0.0
  {
    (x / d).Floor
  }

  /** Python's `x % d` for a positive divisor: the remainder has the sign of `d`. */
  function Mod(x: real, d: real): (r: real)
    requires d > 0.0
    ensures 0.0 <= r < d
  {
    var q := (x / d).Floor;
    assert q as real <= x / d < q as real + 1.0;
    ScaleBetween(q as real, x, d);
    x - q as real * d
  }

  /** Scaling a < b by a positive d. */
  lemma ScaleLess(a: real, b: real, d: real)
    requires d > 0.0 && a < b
    ensures a * d < b * d
  {
  }

  /** Scaling q <= x / d < q + 1 by a positive d. */
  lemma ScaleBetween(q: real, x: real, d: real)
    requires d > 0.0 && q <= x / d < q + 1.0
    ensures q * d <= x < q * d + d
  {
    var y := x / d;
    var p := q + 1.0;
    ScaleLess(y, p, d);
    calc {
      x;
      == y * d;
      < p * d;
      == q * d + d;
    }
    if q < y {
      ScaleLess(q, y, d);
    }
  }

  /** The three fields of a time stamp: hours, minutes and seconds. */
  datatype Stamp = Stamp(hours: int, minutes: int, seconds: real)

  /** `int(sec // 3600)`, `int((sec % 3600) // 60)` and `sec % 60`. */
  function ToStamp(sec: real): Stamp {
    Stamp(FloorDiv(sec, 3600.0), FloorDiv(Mod(sec, 3600.0), 60.0), Mod(sec, 60.0))
  }

  /** _parse_fmt on the three fields: `h * 3600 + m * 60 + s`. */
  function FromStamp(t: Stamp): real {
    t.hours as real * 3600.0 + t.minutes as real * 60.0 + t.seconds
  }

  /** The floor of x - k is the floor of x minus k, for an integer k. */
  lemma FloorShift(x: real, k: int)
    ensures (x - k as real).Floor == x.Floor - k
  {
    var f := x.Floor;
    assert f as real <= x < f as real + 1.0;
    assert (f - k) as real <= x - k as real < (f - k) as real + 1.0;
  }

  /** The fields of a time stamp decompose the seconds they were taken from: minutes and
      seconds lie in [0, 60), hours are never negative for a non-negative time, and putting
      the fields back together (_parse_fmt) gives the time itself. */
  lemma StampRoundTrip(sec: real)
    ensures var t := ToStamp(sec);
      && 0 <= t.minutes < 60
      && 0.0 <= t.seconds < 60.0
      && (sec >= 0.0 ==> t.hours >= 0)
      && FromStamp(t) == sec
  {
    var h := FloorDiv(sec, 3600.0);
    var r := Mod(sec, 3600.0);
    assert r == sec - 3600.0 * h as real;
    var m := FloorDiv(r, 60.0);
    assert r / 60.0 == sec / 60.0 - (60 * h) as real;
    FloorShift(sec / 60.0, 60 * h);
    assert m == (sec / 60.0).Floor - 60 * h;
    var f := (sec / 60.0).Floor;
    assert f as real <= sec / 60.0 < f as real + 1.0;
    assert m as real <= r / 60.0 < m as real + 1.0;
    assert 0 <= m < 60;
    var s := Mod(sec, 60.0);
    assert s == sec - 60.0 * f as real;
    assert h as real * 3600.0 + m as real * 60.0 + s == sec;
    if sec >= 0.0 {
      assert (sec / 3600.0) >= 0.0;
    }
  }
}
