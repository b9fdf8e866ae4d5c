/**
 * Integer helpers of src/utils.rs: the wrapping `modulo`, the filter-type
 * conversion, `yes_no`, and the centring arithmetic of `set_window_to_center`.
 * Also the two saturating u32 operations of Rust's standard library that the
 * application relies on.
 */
module Utils {

  const U32_MAX: int := 0xFFFF_FFFF

  newtype u32 = x: int | 0 <= x <= 0xFFFF_FFFF

  function Abs(a: int): nat { if a < 0 then -a else a }

  /**
   * Rust's `%` on signed integers: the quotient is truncated toward zero, so
   * the remainder carries the sign of the dividend (unlike Dafny's `%`).
   */
  function TruncRem(a: int, b: int): (r: int)
    requires b != 0
    ensures Abs(r) < Abs(b)
    ensures (a >= 0 ==> r >= 0) && (a <= 0 ==> r <= 0)
    ensures (a - r) % Abs(b) == 0
  {
    var m := Abs(b);
    if a >= 0 then
      ModUnique(a - a % m, m, a / m, 0);
      a % m
    else
      ModUnique(a + (-a) % m, m, -((-a) / m), 0);
      -((-a) % m)
  }

  /**
   * `modulo(a, b) = ((a % b) + b) % b` with Rust's truncating `%`: the
   * result takes the sign of `b`.
   */
  function Modulo(a: int, b: int): (r: int)
    requires b != 0
    ensures b > 0 ==> 0 <= r < b
    ensures b < 0 ==> b < r <= 0
  {
    TruncRem(TruncRem(a, b) + b, b)
  }

  /** A positive multiple of a positive number is at least that number. */
  lemma {:induction false} MulAtLeast(k: int, b: int)
    requires k >= 1 && b > 0
    ensures k * b >= b
  {
    if k > 1 {
      MulAtLeast(k - 1, b);
      assert k * b == (k - 1) * b + b;
    }
  }

  /** Euclidean division is unique: any quotient/remainder pair with the remainder in range is Dafny's. */
  lemma ModUnique(a: int, b: int, q: int, r: int)
    requires b > 0 && 0 <= r < b && a == q * b + r
    ensures a % b == r
  {
    var q', r' := a / b, a % b;
    assert a == q' * b + r';
    assert (q - q') * b == r' - r by {
      assert (q - q') * b == q * b - q' * b;
    }
    if q > q' {
      MulAtLeast(q - q', b);
    } else if q < q' {
      MulAtLeast(q' - q, b);
    }
  }

  /**
   * For a positive divisor the source's `modulo` is exactly the Euclidean
   * remainder: it lies in [0, b) and is congruent to `a` modulo `b`, for
   * negative `a` as well.
   */
  lemma ModuloIsEuclidean(a: int, b: int)
    requires b > 0
    ensures Modulo(a, b) == a % b
    ensures 0 <= Modulo(a, b) < b
  {
    var t := TruncRem(a, b);
    if a >= 0 {
      assert t == a % b;
      ModUnique(t + b, b, 1, t);
    } else {
      var m := (-a) % b;
      var q := (-a) / b;
      assert -a == q * b + m;
      assert t == -m;
      if m == 0 {
        ModUnique(a, b, -q, 0);
        ModUnique(t + b, b, 1, 0);
      } else {
        ModUnique(a, b, -q - 1, b - m);
        ModUnique(t + b, b, 0, b - m);
      }
    }
  }

  /** A value already in [0, b) is returned unchanged. */
  lemma ModuloInRange(a: int, b: int)
    requires 0 <= a < b
    ensures Modulo(a, b) == a
  {
    ModuloIsEuclidean(a, b);
    ModUnique(a, b, 0, a);
  }

  /** The worked example: one step back from position 0 on a ring of ten. */
  lemma ModuloOfMinusOne()
    ensures Modulo(-1, 10) == 9
  {
  }

  /** The resize filter names of the configuration file. */
  datatype ResizeFilterType = Nearest | Linear | Cubic | Gaussian | Lanczos3

  /** The image crate's `imageops::FilterType`. */
  datatype FilterType = Nearest | Triangle | CatmullRom | Gaussian | Lanczos3

  function ConvertFilterType(src: ResizeFilterType): (f: FilterType)
    ensures src == ResizeFilterType.Linear <==> f == FilterType.Triangle
    ensures src == ResizeFilterType.Cubic <==> f == FilterType.CatmullRom
  {
    match src
    case Nearest => FilterType.Nearest
    case Linear => FilterType.Triangle
    case Cubic => FilterType.CatmullRom
    case Gaussian => FilterType.Gaussian
    case Lanczos3 => FilterType.Lanczos3
  }

  /** Distinct configuration names select distinct filters. */
  lemma ConvertFilterTypeInjective(a: ResizeFilterType, b: ResizeFilterType)
    ensures ConvertFilterType(a) == ConvertFilterType(b) ==> a == b
  {
  }

  function YesNo(yes: bool): (s: string)
    ensures s == "yes" <==> yes
    ensures s == "no" <==> !yes
  {
    if yes then "yes" else "no"
  }

  /** `u32::saturating_sub`: clamps at zero instead of wrapping. */
  function SaturatingSub(a: u32, b: u32): (r: u32)
    ensures r <= a
    ensures a >= b ==> r as int + b as int == a as int
    ensures a < b ==> r == 0
  {
    if a >= b then a - b else 0
  }

  /** `u32::saturating_add`: clamps at `u32::MAX` instead of wrapping. */
  function SaturatingAdd(a: u32, b: u32): (r: u32)
    ensures a <= r
    ensures a as int + b as int <= U32_MAX ==> r as int == a as int + b as int
    ensures a as int + b as int > U32_MAX ==> r as int == U32_MAX
  {
    if a as int + b as int > U32_MAX then U32_MAX as u32 else a + b
  }

  /**
   * The offset that centres an extent `inner` inside an extent `outer`:
   * `outer.saturating_sub(inner) / 2`. Shared by the window centring in
   * src/utils.rs and the letterbox padding in src/state.rs.
   */
  function CenteredOffset(outer: nat, inner: nat): (pad: nat)
    ensures inner <= outer ==> pad + inner <= outer
    ensures inner <= outer ==> 0 <= (outer - inner - pad) - pad <= 1
    ensures inner > outer ==> pad == 0
  {
    if outer >= inner then (outer - inner) / 2 else 0
  }

  const I32_MIN: int := -0x8000_0000
  const I32_MAX: int := 0x7FFF_FFFF

  newtype i32 = x: int | -0x8000_0000 <= x <= 0x7FFF_FFFF

  /** `v as i32` for a u32 `v`: the same 32 bits read in two's complement. */
  function U32AsI32(v: u32): (r: i32)
    ensures (r as int - v as int) % 0x1_0000_0000 == 0
    ensures r >= 0 <==> v as int <= I32_MAX
  {
    if v as int <= I32_MAX then v as int as i32 else (v as int - 0x1_0000_0000) as i32
  }

  /** Rust's `a / 2` on a signed integer: the quotient is truncated toward zero. */
  function HalfTowardZero(a: int): (h: int)
    ensures Abs(a - 2 * h) <= 1
    ensures Abs(2 * h) <= Abs(a)
    ensures (a >= 0 ==> h >= 0) && (a <= 0 ==> h <= 0)
  {
    if a >= 0 then a / 2 else -((-a) / 2)
  }

  /**
   * `i32` addition as a release build performs it: the sum wraps modulo 2^32.
   * A debug build panics instead whenever the sum leaves the i32 range.
   */
  function WrappingAddI32(a: i32, b: i32): (r: i32)
    ensures (r as int - (a as int + b as int)) % 0x1_0000_0000 == 0
    ensures I32_MIN <= a as int + b as int <= I32_MAX ==> r as int == a as int + b as int
  {
    var s := a as int + b as int;
    if s > I32_MAX then (s - 0x1_0000_0000) as i32
    else if s < I32_MIN then (s + 0x1_0000_0000) as i32
    else s as i32
  }

  /**
   * The centring sum stays inside `i32`: the margin left after the window
   * survives the cast to `i32`, and adding half of it to the monitor's
   * top-left does not overflow.
   */
  predicate CentringFits(monitorTopLeft: i32, monitorSize: u32, windowSize: u32)
  {
    var margin := SaturatingSub(monitorSize, windowSize) as int;
    margin <= I32_MAX && monitorTopLeft as int + margin / 2 <= I32_MAX
  }

  /**
   * One axis of `set_window_to_center`: the u32 margin is cast to `i32`,
   * halved with truncation and added in `i32` to the monitor's top-left.
   * Where the centring fits in `i32`, the window lies within the monitor
   * with margins that differ by at most 1.
   */
  function CenteredPosition(monitorTopLeft: i32, monitorSize: u32, windowSize: u32): (pos: i32)
    ensures windowSize <= monitorSize && CentringFits(monitorTopLeft, monitorSize, windowSize) ==>
      monitorTopLeft <= pos && pos as int + windowSize as int <= monitorTopLeft as int + monitorSize as int
    ensures windowSize <= monitorSize && CentringFits(monitorTopLeft, monitorSize, windowSize) ==>
      0 <= (monitorTopLeft as int + monitorSize as int - (pos as int + windowSize as int)) - (pos as int - monitorTopLeft as int) <= 1
    ensures windowSize > monitorSize ==> pos == monitorTopLeft
  {
    var offset := HalfTowardZero(U32AsI32(SaturatingSub(monitorSize, windowSize)) as int);
    WrappingAddI32(monitorTopLeft, offset as i32)
  }

  /** A margin above `i32::MAX` turns negative in the cast: the window is placed left of the monitor. */
  lemma CenteredPositionWideMonitor()
    ensures CenteredPosition(0, 0xFFFF_FFFF, 1) == -1
  {
  }

  /** A top-left near `i32::MAX` plus the offset wraps to the far negative end in a release build. */
  lemma CenteredPositionWraps()
    ensures CenteredPosition(0x7FFF_FFFF, 10, 0) == (I32_MIN + 4) as i32
  {
  }
}
