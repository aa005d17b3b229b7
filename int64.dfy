// Rust's `i64` and the arithmetic the interpreter applies to it.
//
// The interpreter evaluates `+ - * /` on `i64` values.  Rust checks `+ - *`
// for overflow in debug builds (a panic), always panics on division by zero
// and on `i64::MIN / -1`, and truncates the quotient toward zero.  Dafny's
// `int` is unbounded and its `/` is Euclidean, so both are written out here.

module Int64 {
  import opened Options

  const MIN: int := -0x8000_0000_0000_0000
  const MAX: int := 0x7fff_ffff_ffff_ffff

  newtype i64 = x: int | -0x8000_0000_0000_0000 <= x <= 0x7fff_ffff_ffff_ffff

  predicate InRange(x: int) {
    MIN <= x <= MAX
  }

  /** Division rounding toward zero, as Rust's `/` on integers. */
  function TruncDiv(a: int, b: int): (q: int)
    requires b != 0
    ensures Abs(q) == Abs(a) / Abs(b)
    ensures var r := a - q * b;
            (a >= 0 ==> 0 <= r < Abs(b)) && (a < 0 ==> -Abs(b) < r <= 0)
  {
    var q: int := Abs(a) / Abs(b);
    TruncRemainder(a, b, q);
    if (a >= 0) == (b > 0) then q else -q
  }

  lemma TruncRemainder(a: int, b: int, q: int)
    requires b != 0 && q == Abs(a) / Abs(b)
    ensures var t: int := if (a >= 0) == (b > 0) then q else -q;
            var r: int := a - t * b;
            Abs(t) == q &&
            (a >= 0 ==> 0 <= r < Abs(b)) && (a < 0 ==> -Abs(b) < r <= 0)
  {
    var n: int, d: int := Abs(a), Abs(b);
    var m: int := n % d;
    DivMod(n, d);
    if a >= 0 && b > 0 {
      assert a - q * b == m;
    } else if a >= 0 {
      assert b == -d;
      assert (-q) * b == q * d;
      assert a - (-q) * b == m;
    } else if b > 0 {
      assert a == -n && b == d;
      assert (-q) * b == -(q * d);
      assert a - (-q) * b == -m;
    } else {
      assert a == -n && b == -d;
      assert q * b == -(q * d);
      assert a - q * b == -m;
    }
  }

  lemma DivMod(n: int, d: int)
    requires n >= 0 && d > 0
    ensures n / d >= 0
    ensures n == (n / d) * d + n % d && 0 <= n % d < d
  {
  }

  function Abs(x: int): (r: int)
    ensures r >= 0 && (r == x || r == -x)
  {
    if x < 0 then -x else x
  }

  /** The four operator symbols of the language. */
  predicate IsOpChar(op: char) {
    op == '+' || op == '-' || op == '*' || op == '/'
  }

  /**
   * One binary operation of the language on two `i64` values, as the
   * interpreter applies it: `None` stands for a panic (overflow, division by
   * zero, `MIN / -1`, or an operator symbol other than the four).
   */
  function Apply(op: char, a: i64, b: i64): (r: Option<i64>)
    ensures r.Some? ==> IsOpChar(op)
    ensures op == '/' && b == 0 ==> r == None
    ensures op == '+' ==> (r.Some? <==> InRange(a as int + b as int))
    ensures op == '-' ==> (r.Some? <==> InRange(a as int - b as int))
    ensures op == '*' ==> (r.Some? <==> InRange(a as int * b as int))
    ensures op == '/' ==> (r.Some? <==> b != 0 && !(a as int == MIN && b == -1))
    ensures r.Some? && op == '+' ==> r.value as int == a as int + b as int
    ensures r.Some? && op == '-' ==> r.value as int == a as int - b as int
    ensures r.Some? && op == '*' ==> r.value as int == a as int * b as int
    ensures r.Some? && op == '/' ==> r.value as int == TruncDiv(a as int, b as int)
  {
    var x := a as int;
    var y := b as int;
    match op
    case '+' => Checked(x + y)
    case '-' => Checked(x - y)
    case '*' => Checked(x * y)
    case '/' =>
      if y == 0 then None
      else QuotientInRange(a, b); Checked(TruncDiv(x, y))
    case _ => None
  }

  /** The `i64` holding `x`, or `None` (a panic) when `x` does not fit. */
  function Checked(x: int): (r: Option<i64>)
    ensures r.Some? <==> InRange(x)
    ensures r.Some? ==> r.value as int == x
  {
    if InRange(x) then Some(x as i64) else None
  }

  /** The only quotient of two `i64` values that leaves the range. */
  lemma QuotientInRange(a: i64, b: i64)
    requires b != 0
    ensures InRange(TruncDiv(a as int, b as int)) <==> !(a as int == MIN && b == -1)
  {
    var x, y := a as int, b as int;
    var q := TruncDiv(x, y);
    if y == -1 {
      assert q == -x;
    } else if y == 1 {
      assert q == x;
    } else {
      assert Abs(y) >= 2;
      DivBound(Abs(x), Abs(y));
    }
  }

  lemma DivBound(n: nat, d: nat)
    requires d >= 2
    ensures n / d <= n / 2
  {
    assert n / d <= n / 2 by {
      var q := n / d;
      assert q * d <= n;
      assert q * 2 <= q * d;
    }
  }
}
