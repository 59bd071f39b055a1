/** Java's 32-bit `int`, its truncating division, and the two ways the
    controller turns a pair of clock readings into whole seconds.

    Clock readings (`LocalDateTime`) are modelled as integer nanosecond
    counts on the local clock; nothing here assumes the clock moves forward. */
module JavaBase {

  const MinInt32: int := -0x8000_0000
  const MaxInt32: int := 0x7fff_ffff

  /** A value of Java's primitive `int`. */
  type Int32 = x: int | MinInt32 <= x <= MaxInt32

  const NanosPerSecond: int := 1_000_000_000

  function Abs(x: int): int {
    if x < 0 then -x else x
  }

  function Min(a: int, b: int): int {
    if a <= b then a else b
  }

  function Max(a: int, b: int): int {
    if a >= b then a else b
  }

  /** Java's narrowing to `int` (and its `int` overflow): two's-complement
      wrap-around modulo 2^32. */
  function ToInt32(x: int): (r: Int32)
    ensures (x - r) % 0x1_0000_0000 == 0
    ensures MinInt32 <= x <= MaxInt32 ==> r == x
  {
    var m := (x - MinInt32) % 0x1_0000_0000;
    assert x - (m + MinInt32) == ((x - MinInt32) / 0x1_0000_0000) * 0x1_0000_0000;
    m + MinInt32
  }

  lemma ProductOfNaturals(x: int, y: int)
    requires x >= 0 && y >= 0
    ensures x * y >= 0
  {
  }

  lemma ScalingUp(x: int, k: int)
    requires x >= 0 && k >= 1
    ensures x * k >= x
  {
    ProductOfNaturals(x, k - 1);
    assert x * k == x * (k - 1) + x;
  }

  /** Euclidean division of a non-negative number by a positive one. */
  lemma DivisionOfNatural(n: int, d: int)
    requires n >= 0 && d > 0
    ensures n == (n / d) * d + n % d && 0 <= n % d < d
    ensures 0 <= n / d <= n
  {
    ScalingUp(n / d, d);
  }

  lemma NegatedProducts(u: int, d: int)
    ensures (-u) * d == -(u * d) && u * (-d) == -(u * d) && (-u) * (-d) == u * d
  {
  }

  /** Java's `/` on `int` and `long`: the quotient is truncated toward zero,
      so the remainder takes the sign of the dividend. */
  function Quot(a: int, b: int): (q: int)
    requires b != 0
    ensures a >= 0 ==> 0 <= a - q * b < Abs(b)
    ensures a < 0 ==> -Abs(b) < a - q * b <= 0
    ensures Abs(q) <= Abs(a)
    ensures a >= 0 && b > 0 ==> q == a / b
  {
    var n, d := Abs(a), Abs(b);
    var u := n / d;
    DivisionOfNatural(n, d);
    NegatedProducts(u, d);
    var r := n - u * d;
    assert 0 <= r < d;
    if a >= 0 && b > 0 then
      u
    else if a >= 0 then
      assert a - (-u) * b == r;
      -u
    else if b > 0 then
      assert a - (-u) * b == -r;
      -u
    else
      assert a - u * b == -r;
      u
  }

  /** Whole seconds from `from` to `to` as `ChronoUnit.SECONDS.between`
      counts them: the nanosecond difference truncated toward zero. */
  function SecondsBetween(from: int, to: int): (s: int)
    ensures from <= to ==> s == (to - from) / NanosPerSecond
  {
    Quot(to - from, NanosPerSecond)
  }

  /** `Duration.between(from, to).getSeconds()`: a `Duration` keeps a
      non-negative nanosecond part, so its seconds part is the floor. */
  function DurationSeconds(from: int, to: int): (s: int)
    ensures s * NanosPerSecond <= to - from < (s + 1) * NanosPerSecond
  {
    (to - from) / NanosPerSecond
  }

  /** On a clock that has not gone backwards the two conversions agree,
      and a reading that is less than a second old counts zero seconds. */
  lemma SecondsConversionsAgree(from: int, to: int)
    requires from <= to
    ensures SecondsBetween(from, to) == DurationSeconds(from, to) >= 0
    ensures to - from < NanosPerSecond <==> DurationSeconds(from, to) == 0
  {
  }

  /** For a limit of at least zero seconds, an age of at most `limit` whole
      seconds is exactly a nanosecond difference below `limit + 1` seconds;
      a reading from the future (a clock set back) always qualifies. */
  lemma {:induction false} WholeSecondsAtMost(from: int, to: int, limit: int)
    requires limit >= 0
    ensures SecondsBetween(from, to) <= limit <==> to - from < (limit + 1) * NanosPerSecond
  {
    var d := to - from;
    if d >= 0 {
      var s := d / NanosPerSecond;
      assert s * NanosPerSecond <= d < (s + 1) * NanosPerSecond;
      if s <= limit {
        assert (s + 1) * NanosPerSecond <= (limit + 1) * NanosPerSecond;
      } else {
        assert (limit + 1) * NanosPerSecond <= s * NanosPerSecond;
      }
    } else {
      var s := SecondsBetween(from, to);
      assert s * NanosPerSecond < NanosPerSecond;
      if s >= 1 {
        ScalingUp(NanosPerSecond, s);
        assert false;
      }
      ProductOfNaturals(limit, NanosPerSecond);
    }
  }

  /** A `Duration` of at least `k` whole seconds is a nanosecond difference
      of at least `k` seconds. */
  lemma {:induction false} DurationAtLeast(from: int, to: int, k: int)
    ensures DurationSeconds(from, to) >= k <==> to - from >= k * NanosPerSecond
  {
    var s := DurationSeconds(from, to);
    if s >= k {
      ProductOfNaturals(s - k, NanosPerSecond);
      assert (s - k) * NanosPerSecond == s * NanosPerSecond - k * NanosPerSecond;
    } else {
      ProductOfNaturals(k - s - 1, NanosPerSecond);
      assert (k - s - 1) * NanosPerSecond == k * NanosPerSecond - (s + 1) * NanosPerSecond;
    }
  }
}
