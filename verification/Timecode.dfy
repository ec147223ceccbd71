/** Time arithmetic of the player in exact reals: the scrub-thumbnail grid, the snap of a comment to a
    23.976 fps frame, and the timecodes that are printed. */
module Timecode {

  function Round(x: real): int { (x + 0.5).Floor }

  function Ceil(x: real): int { -((-x).Floor) }

  function Abs(x: real): real { if x < 0.0 then -x else x }

  // ----- The thumbnail grid -----

  const THUMB_TARGET_S := 2.5
  const THUMB_GRID_CAP := 60
  const THUMB_GRID_MIN := 8

  function GridSize(duration: real): (n: int)
    ensures 8 <= n <= 60
  {
    var wanted := Ceil(duration / THUMB_TARGET_S);
    var capped := if wanted < THUMB_GRID_CAP then wanted else THUMB_GRID_CAP;
    if capped > THUMB_GRID_MIN then capped else THUMB_GRID_MIN
  }

  /** The grid is the coarsest with a point every 2.5 s at most, but for the bounds of 8 and 60. */
  lemma {:induction false} GridSizeIs(duration: real)
    ensures
      var n := GridSize(duration);
      && 8 <= n <= 60 && (n < 60 ==> duration <= 2.5 * n as real) && (n > 8 ==> 2.5 * (n - 1) as real < duration)
  {
    var x := duration / 2.5;
    assert x * 2.5 == duration && Ceil(x) as real - 1.0 < x <= Ceil(x) as real;
  }

  /** The middle of the `i`-th of `n` equal parts of the video. */
  function Centre(duration: real, n: int, i: int): real
    requires n > 0
  {
    ((i as real + 0.5) / n as real) * duration
  }

  function Grid(duration: real): seq<real> {
    seq(GridSize(duration), i => Round(Centre(duration, GridSize(duration), i)) as real)
  }

  /** The spacing of the grid before rounding. */
  function Spacing(duration: real): real { duration / GridSize(duration) as real }

  lemma {:induction false} RoundClose(x: real)
    ensures -0.5 <= Round(x) as real - x <= 0.5
  {
  }

  lemma {:induction false} MulLe(a: real, b: real, w: real)
    requires a <= b && w >= 0.0
    ensures a * w <= b * w
  {
  }

  lemma {:induction false} MulAssoc(a: real, b: real, c: real)
    ensures (a * b) * c == a * (b * c) == b * (a * c)
  {
  }

  lemma {:induction false} DivMul(a: real, n: real, d: real)
    requires n > 0.0
    ensures (a / n) * d == a * (d / n)
    ensures (d / n) * n == d
  {
    var r, w := a / n, d / n;
    assert r * n == a && w * n == d;
    MulAssoc(r, w, n);
    MulAssoc(w, r, n);
  }

  lemma {:induction false} CentreScaled(duration: real, n: int, i: int)
    requires n > 0
    ensures Centre(duration, n, i) == (i as real + 0.5) * (duration / n as real)
  {
    DivMul(i as real + 0.5, n as real, duration);
  }

  lemma {:induction false} CentreMonotone(duration: real, n: int, i: int, j: int)
    requires n > 0 && duration > 0.0 && i <= j
    ensures Centre(duration, n, i) <= Centre(duration, n, j)
  {
    CentreScaled(duration, n, i);
    CentreScaled(duration, n, j);
    hide Centre;
    var w := duration / n as real;
    assert w >= 0.0;
    var a, b := i as real + 0.5, j as real + 0.5;
    MulLe(a, b, w);
  }

  lemma {:induction false} GridPoint(duration: real, i: int)
    requires 0 <= i < GridSize(duration)
    ensures Grid(duration)[i] == Round(Centre(duration, GridSize(duration), i)) as real
    ensures -0.5 <= Grid(duration)[i] - Centre(duration, GridSize(duration), i) <= 0.5
  {
    hide GridSize, Centre;
    RoundClose(Centre(duration, GridSize(duration), i));
  }

  /** The grid always has between 8 and 60 points, in nondecreasing order. */
  lemma {:induction false} GridShape(duration: real, i: int, j: int)
    requires duration > 0.0 && 0 <= i <= j < |Grid(duration)|
    ensures 8 <= |Grid(duration)| <= 60
    ensures Grid(duration)[i] <= Grid(duration)[j]
  {
    hide GridSize, Round, Centre;
    GridPoint(duration, i);
    GridPoint(duration, j);
    var n := GridSize(duration);
    CentreMonotone(duration, n, i, j);
    RoundMonotone(Centre(duration, n, i), Centre(duration, n, j));
  }

  lemma {:induction false} RoundMonotone(x: real, y: real)
    requires x <= y
    ensures Round(x) <= Round(y)
  {
  }

  lemma {:induction false} SpacingPositive(duration: real)
    requires duration > 0.0
    ensures Spacing(duration) > 0.0
    ensures Spacing(duration) * GridSize(duration) as real == duration
  {
    hide GridSize;
    DivMul(1.0, GridSize(duration) as real, duration);
  }

  /** No earlier point is as near. */
  ghost predicate FirstNearest(grid: seq<real>, t: real, best: real, k: int) {
    0 <= k < |grid| && grid[k] == best && forall j :: 0 <= j < k ==> Abs(t - best) < Abs(t - grid[j])
  }

  /** The scan for the nearest grid point; with no grid it falls back to the time itself. */
  method NearestGridTime(grid: seq<real>, t: real) returns (best: real)
    ensures grid == [] ==> best == t
    ensures grid != [] ==> best in grid && forall x :: x in grid ==> Abs(t - best) <= Abs(t - x)
    ensures grid != [] ==> exists k :: FirstNearest(grid, t, best, k)
  {
    if |grid| == 0 {
      return t;
    }
    best := grid[0];
    var bestD := Abs(t - best);
    ghost var at := 0;
    for i := 1 to |grid|
      invariant at < i && FirstNearest(grid, t, best, at)
      invariant best in grid[..i] && bestD == Abs(t - best)
      invariant forall x :: x in grid[..i] ==> bestD <= Abs(t - x)
    {
      var d := Abs(t - grid[i]);
      if d < bestD {
        forall j | 0 <= j < i ensures bestD <= Abs(t - grid[j]) {
          assert grid[..i][j] == grid[j] && grid[..i][j] in grid[..i];
        }
        bestD := d;
        best := grid[i];
        at := i;
      }
      assert grid[..i + 1] == grid[..i] + [grid[i]];
    }
    assert grid[..|grid|] == grid;
  }

  lemma {:induction false} CellOf(q: real, n: int) returns (i: int)
    requires n > 0 && 0.0 <= q <= n as real
    ensures 0 <= i < n && -0.5 <= q - (i as real + 0.5) <= 0.5
  {
    i := if q.Floor < n then q.Floor else n - 1;
  }

  lemma {:induction false} ScaledOffset(q: real, c: real, w: real)
    requires -0.5 <= q - c <= 0.5 && w >= 0.0
    ensures -w / 2.0 <= q * w - c * w <= w / 2.0
  {
    var d := q - c;
    assert q * w == c * w + d * w;
    MulLe(-0.5, d, w);
    MulLe(d, 0.5, w);
  }

  /** Some grid point is within half a cell plus half a second of any time in the video. */
  lemma {:induction false} SomePointClose(duration: real, t: real) returns (i: int)
    requires duration > 0.0 && 0.0 <= t <= duration
    ensures 0 <= i < |Grid(duration)|
    ensures Abs(t - Grid(duration)[i]) <= Spacing(duration) / 2.0 + 0.5
  {
    hide GridSize, Round, Centre, Grid;
    var n, w := GridSize(duration), Spacing(duration);
    SpacingPositive(duration);
    QuotientRange(t, w, n as real);
    i := CellOf(t / w, n);
    NearCentre(duration, n, t, i);
    GridPoint(duration, i);
    GridLength(duration);
    assert w == duration / n as real;
    Within(t, Centre(duration, n, i), Grid(duration)[i], w);
  }

  lemma {:induction false} GridLength(duration: real)
    ensures |Grid(duration)| == GridSize(duration)
  {
  }

  lemma {:induction false} NearCentre(duration: real, n: int, t: real, i: int)
    requires n > 0 && duration > 0.0 && -0.5 <= t / (duration / n as real) - (i as real + 0.5) <= 0.5
    ensures -(duration / n as real) / 2.0 <= t - Centre(duration, n, i) <= (duration / n as real) / 2.0
  {
    CentreScaled(duration, n, i);
    hide Centre;
    var w, a := duration / n as real, i as real + 0.5;
    DivMul(1.0, w, t);
    ScaledOffset(t / w, a, w);
    assert Centre(duration, n, i) == a * w && t == (t / w) * w;
  }

  lemma {:induction false} Within(t: real, c: real, g: real, w: real)
    requires -w / 2.0 <= t - c <= w / 2.0 && -0.5 <= g - c <= 0.5
    ensures Abs(t - g) <= w / 2.0 + 0.5
  {
  }

  lemma {:induction false} QuotientRange(t: real, w: real, n: real)
    requires w > 0.0 && 0.0 <= t <= w * n
    ensures 0.0 <= t / w <= n
  {
    var q := t / w;
    assert q * w == t;
    assert (n - q) * w >= 0.0;
  }

  /** A nearest grid point is within half a cell plus half a second of any time in the video, hence
      within 1.75 s for videos of up to 150 s. */
  lemma {:induction false} NearestIsClose(duration: real, t: real, best: real)
    requires duration > 0.0 && 0.0 <= t <= duration
    requires forall x :: x in Grid(duration) ==> Abs(t - best) <= Abs(t - x)
    ensures Abs(t - best) <= Spacing(duration) / 2.0 + 0.5
    ensures duration <= 150.0 ==> Abs(t - best) <= 1.75
  {
    hide GridSize;
    var i := SomePointClose(duration, t);
    assert Grid(duration)[i] in Grid(duration);
    if duration <= 150.0 {
      SpacingBound(duration);
    }
  }

  lemma {:induction false} SpacingBound(duration: real)
    requires 0.0 < duration <= 150.0
    ensures Spacing(duration) <= 2.5
  {
    var n := GridSize(duration) as real;
    assert duration / THUMB_TARGET_S <= n;
    var w := Spacing(duration);
    DivMul(1.0, n, duration);
    assert w * n <= 2.5 * n;
    assert (w - 2.5) * n <= 0.0;
  }

  // ----- Snapping to a frame -----

  function SnapFrame(t: real): int { Round(t * 24000.0 / 1001.0) }

  /** The real time at which frame `f` starts. */
  function FrameTime(f: int): real { f as real * 1001.0 / 24000.0 }

  /** The timestamp stored with a comment: the frame number over the nominal rate. */
  function SnapSeconds(t: real): real { SnapFrame(t) as real / 24.0 }

  lemma {:induction false} RoundNearest(x: real, k: int)
    ensures Abs(Round(x) as real - x) <= 0.5
    ensures Abs(Round(x) as real - x) <= Abs(k as real - x)
    ensures Round(k as real) == k
  {
    var r := Round(x);
    assert r as real <= x + 0.5 < r as real + 1.0;
    if k < r {
      assert k as real <= r as real - 1.0;
    } else if k > r {
      assert k as real >= r as real + 1.0;
    }
  }

  /** The snapped frame is a nearest one, within half a frame, and frame starts snap to themselves. */
  lemma {:induction false} SnapNearest(t: real, f: int)
    ensures Abs(FrameTime(SnapFrame(t)) - t) <= 1001.0 / 48000.0
    ensures Abs(FrameTime(SnapFrame(t)) - t) <= Abs(FrameTime(f) - t)
    ensures SnapFrame(FrameTime(f)) == f
  {
    var x := t * 24000.0 / 1001.0;
    var g := SnapFrame(t);
    RoundNearest(x, f);
    hide Round;
    assert FrameTime(g) - t == (g as real - x) * 1001.0 / 24000.0;
    assert FrameTime(f) - t == (f as real - x) * 1001.0 / 24000.0;
    assert FrameTime(f) * 24000.0 / 1001.0 == f as real;
  }

  lemma {:induction false} SnapMonotone(t: real, u: real)
    requires t <= u
    ensures SnapFrame(t) <= SnapFrame(u)
  {
    assert t * 24000.0 / 1001.0 <= u * 24000.0 / 1001.0;
  }

  // ----- Printing -----

  function DigitChar(d: nat): char
    requires d < 10
  {
    ('0' as int + d) as char
  }

  function Decimal(n: nat): string {
    if n < 10 then [DigitChar(n)] else Decimal(n / 10) + [DigitChar(n % 10)]
  }

  function Pad2(n: nat): string {
    if |Decimal(n)| < 2 then "0" + Decimal(n) else Decimal(n)
  }

  /** The number a digit string denotes. */
  function Value(s: string): int {
    if s == "" then 0 else 10 * Value(s[..|s| - 1]) + (s[|s| - 1] as int - '0' as int)
  }

  lemma {:induction false} DecimalValue(n: nat)
    ensures Value(Decimal(n)) == n && |Decimal(n)| >= 1
    ensures n >= 10 ==> |Decimal(n)| >= 2
    ensures n < 100 ==> |Decimal(n)| <= 2
  {
    if n >= 10 {
      DecimalValue(n / 10);
      var s := Decimal(n);
      assert s[..|s| - 1] == Decimal(n / 10);
    } else {
      assert Decimal(n)[..0] == "";
    }
  }

  lemma {:induction false} Pad2Value(n: nat)
    ensures Value(Pad2(n)) == n
    ensures |Pad2(n)| >= 2 && (n < 100 ==> |Pad2(n)| == 2)
  {
    DecimalValue(n);
    if n < 10 {
      assert Pad2(n)[..1] == "0" && "0"[..0] == "";
      assert Value("0") == 0;
    }
  }

  datatype JsNumber = Finite(value: real) | NotFinite

  function Minutes(s: real): int { (s / 60.0).Floor }

  /** JavaScript's `s % m` for non-negative `s`. */
  function Mod(s: real, m: int): real
    requires m > 0
  {
    s - ((s / m as real).Floor * m) as real
  }

  function FmtTc(s: JsNumber): string {
    if s.NotFinite? || s.value < 0.0 then "00:00:00"
    else
      FieldRanges(s.value);
      Pad2(Minutes(s.value)) + ":" + Pad2(Mod(s.value, 60).Floor) + ":" + Pad2((Mod(s.value, 1) * 24.0).Floor)
  }

  /** The three printed fields decompose the frame count at 24 fps. */
  lemma {:induction false} FieldRanges(s: real)
    requires s >= 0.0
    ensures 0 <= Minutes(s) && 0 <= Mod(s, 60).Floor < 60 && 0 <= (Mod(s, 1) * 24.0).Floor < 24
    ensures 1440 * Minutes(s) + 24 * Mod(s, 60).Floor + (Mod(s, 1) * 24.0).Floor == (24.0 * s).Floor
  {
    var m := Minutes(s);
    var whole := s.Floor;
    assert s / 1.0 == s;
    var frac := Mod(s, 1);
    assert frac == s - whole as real && 0.0 <= frac < 1.0;
    assert m as real * 60.0 <= s < (m as real + 1.0) * 60.0;
    assert Mod(s, 60) == s - (m * 60) as real;
    assert Mod(s, 60).Floor == whole - 60 * m;
    assert 24.0 * s == (24 * whole) as real + 24.0 * frac;
    assert (24.0 * s).Floor == 24 * whole + (24.0 * frac).Floor;
    assert frac * 24.0 == 24.0 * frac;
  }

  /** Reads `M…M:SS:FF` back as a frame count. */
  function FramesOf(tc: string): int
    requires |tc| >= 8
  {
    var n := |tc|;
    1440 * Value(tc[..n - 6]) + 24 * Value(tc[n - 5..n - 3]) + Value(tc[n - 2..])
  }

  /** A printed timecode determines the frame it was printed for. */
  lemma {:induction false} FmtTcInverts(s: real)
    requires s >= 0.0
    ensures |FmtTc(Finite(s))| >= 8
    ensures FramesOf(FmtTc(Finite(s))) == (24.0 * s).Floor
  {
    hide Minutes, Mod, FramesOf, Pad2, FmtTc;
    FieldRanges(s);
    FmtTcFields(s);
    FieldsRead(Minutes(s), Mod(s, 60).Floor, (Mod(s, 1) * 24.0).Floor);
  }

  lemma {:induction false} FmtTcFields(s: real)
    requires s >= 0.0
    requires Minutes(s) >= 0 && Mod(s, 60).Floor >= 0 && (Mod(s, 1) * 24.0).Floor >= 0
    ensures FmtTc(Finite(s)) ==
            Pad2(Minutes(s)) + ":" + Pad2(Mod(s, 60).Floor) + ":" + Pad2((Mod(s, 1) * 24.0).Floor)
  {
    hide Pad2, Minutes, Mod;
  }

  lemma {:induction false} FieldsRead(a: nat, b: nat, c: nat)
    requires b < 60 && c < 24
    ensures
      var tc := Pad2(a) + ":" + Pad2(b) + ":" + Pad2(c);
      |tc| >= 8 && FramesOf(tc) == 1440 * a + 24 * b + c
  {
    Pad2Value(a);
    Pad2Value(b);
    Pad2Value(c);
    hide Pad2, Value;
    var tc := Pad2(a) + ":" + Pad2(b) + ":" + Pad2(c);
    var n := |tc|;
    assert tc[..n - 6] == Pad2(a) && tc[n - 5..n - 3] == Pad2(b) && tc[n - 2..] == Pad2(c);
  }

  ghost predicate Digits(s: string) {
    forall c :: c in s ==> '0' <= c <= '9'
  }

  lemma {:induction false} DecimalDigits(n: nat)
    ensures Digits(Decimal(n))
  {
    if n < 10 {
    } else {
      DecimalDigits(n / 10);
    }
  }

  lemma {:induction false} Pad2Digits(n: nat)
    ensures Digits(Pad2(n))
  {
    DecimalDigits(n);
  }

  /** A timecode is minutes, seconds and frames of at least, exactly and exactly two digits, with colons
      between; what is no time at all prints as zero. */
  lemma {:induction false} FmtTcShape(s: JsNumber)
    ensures s.NotFinite? || s.value < 0.0 ==> FmtTc(s) == "00:00:00"
    ensures
      var tc := FmtTc(s);
      var n := |tc|;
      && n >= 8 && tc[n - 6] == ':' && tc[n - 3] == ':'
      && Digits(tc[..n - 6]) && Digits(tc[n - 5..n - 3]) && Digits(tc[n - 2..])
  {
    hide Minutes, Mod, Pad2;
    if s.Finite? && s.value >= 0.0 {
      FieldRanges(s.value);
      FieldsShape(Minutes(s.value), Mod(s.value, 60).Floor, (Mod(s.value, 1) * 24.0).Floor);
    } else {
      var tc := "00:00:00";
      assert tc[..2] == "00" && tc[3..5] == "00" && tc[6..] == "00";
    }
  }

  lemma {:induction false} FieldsShape(a: nat, b: nat, c: nat)
    requires b < 60 && c < 24
    ensures
      var tc := Pad2(a) + ":" + Pad2(b) + ":" + Pad2(c);
      var n := |tc|;
      && n >= 8 && tc[n - 6] == ':' && tc[n - 3] == ':'
      && Digits(tc[..n - 6]) && Digits(tc[n - 5..n - 3]) && Digits(tc[n - 2..])
  {
    Pad2Value(a);
    Pad2Value(b);
    Pad2Value(c);
    Pad2Digits(a);
    Pad2Digits(b);
    Pad2Digits(c);
    hide Pad2, Value, Digits;
    var tc := Pad2(a) + ":" + Pad2(b) + ":" + Pad2(c);
    var n := |tc|;
    assert tc[..n - 6] == Pad2(a) && tc[n - 5..n - 3] == Pad2(b) && tc[n - 2..] == Pad2(c);
  }

  /** Two times print alike exactly when they lie in the same frame. */
  lemma {:induction false} FmtTcSameIff(s: real, u: real)
    requires s >= 0.0 && u >= 0.0
    ensures FmtTc(Finite(s)) == FmtTc(Finite(u)) <==> (24.0 * s).Floor == (24.0 * u).Floor
  {
    FmtTcInverts(s);
    FmtTcInverts(u);
    SameFrameSameFields(s, u);
    hide FramesOf, FmtTc;
  }

  /** The timecode of a frame-aligned time reads back as that frame. */
  lemma {:induction false} AlignedTimecode(f: nat)
    ensures |FmtTc(Finite(f as real / 24.0))| >= 8 && FramesOf(FmtTc(Finite(f as real / 24.0))) == f
  {
    FmtTcInverts(f as real / 24.0);
    hide FramesOf, FmtTc;
    assert 24.0 * (f as real / 24.0) == f as real;
  }

  lemma {:induction false} SameFrameSameFields(s: real, u: real)
    requires s >= 0.0 && u >= 0.0
    ensures (24.0 * s).Floor == (24.0 * u).Floor ==> FmtTc(Finite(s)) == FmtTc(Finite(u))
  {
    FieldRanges(s);
    FieldRanges(u);
    if (24.0 * s).Floor == (24.0 * u).Floor {
      SameFields(Minutes(s), Mod(s, 60).Floor, (Mod(s, 1) * 24.0).Floor,
                 Minutes(u), Mod(u, 60).Floor, (Mod(u, 1) * 24.0).Floor);
    }
  }

  lemma {:induction false} SameFields(m: int, s: int, f: int, m': int, s': int, f': int)
    requires 0 <= s < 60 && 0 <= s' < 60 && 0 <= f < 24 && 0 <= f' < 24
    requires 1440 * m + 24 * s + f == 1440 * m' + 24 * s' + f'
    ensures m == m' && s == s' && f == f'
  {
  }

  /** The SMPTE label of a comment, offset by one hour: `HH:MM:SS:FF`. */
  function FormatTimecode(ndfSeconds: real): string
    requires ndfSeconds >= 0.0
  {
    var total := Round(ndfSeconds * 24.0) + 86400;
    Pad2(total / 86400) + ":" + Pad2(total / 1440 % 60) + ":" + Pad2(total / 24 % 60) + ":" + Pad2(total % 24)
  }

  /** A label is hours of two digits or more and three fields of two digits, with colons between. */
  lemma {:induction false} LabelShape(ndfSeconds: real)
    requires ndfSeconds >= 0.0
    ensures
      var tag := FormatTimecode(ndfSeconds);
      var n := |tag|;
      && n >= 11 && tag[n - 9] == tag[n - 6] == tag[n - 3] == ':'
      && Digits(tag[..n - 9]) && Digits(tag[n - 8..n - 6]) && Digits(tag[n - 5..n - 3]) && Digits(tag[n - 2..])
  {
    hide Pad2, Digits, Round;
    RoundMonotone(0.0, ndfSeconds * 24.0);
    RoundZero();
    var total := Round(ndfSeconds * 24.0) + 86400;
    LabelFields(total / 86400, total / 1440 % 60, total / 24 % 60, total % 24);
  }

  lemma {:induction false} RoundZero()
    ensures Round(0.0) == 0
  {
  }

  lemma {:induction false} LabelFields(a: nat, b: nat, c: nat, d: nat)
    requires b < 60 && c < 60 && d < 24
    ensures
      var tag := Pad2(a) + ":" + Pad2(b) + ":" + Pad2(c) + ":" + Pad2(d);
      var n := |tag|;
      && n >= 11 && tag[n - 9] == tag[n - 6] == tag[n - 3] == ':'
      && Digits(tag[..n - 9]) && Digits(tag[n - 8..n - 6]) && Digits(tag[n - 5..n - 3]) && Digits(tag[n - 2..])
  {
    hide Pad2, Digits;
    Pad2Value(a);
    Pad2Value(b);
    Pad2Value(c);
    Pad2Value(d);
    Pad2Digits(a);
    Pad2Digits(b);
    Pad2Digits(c);
    Pad2Digits(d);
    var tag := Pad2(a) + ":" + Pad2(b) + ":" + Pad2(c) + ":" + Pad2(d);
    var n := |tag|;
    assert tag[..n - 9] == Pad2(a) && tag[n - 8..n - 6] == Pad2(b) && tag[n - 5..n - 3] == Pad2(c) && tag[n - 2..] == Pad2(d);
  }

  function LabelFrames(tag: string): int
    requires |tag| >= 11
  {
    var n := |tag|;
    86400 * Value(tag[..n - 9]) + 1440 * Value(tag[n - 8..n - 6]) + 24 * Value(tag[n - 5..n - 3])
    + Value(tag[n - 2..]) - 86400
  }

  lemma {:induction false} LabelReads(a: string, b: string, c: string, d: string)
    requires |a| >= 2 && |b| == 2 && |c| == 2 && |d| == 2
    ensures LabelFrames(a + ":" + b + ":" + c + ":" + d) ==
            86400 * Value(a) + 1440 * Value(b) + 24 * Value(c) + Value(d) - 86400
  {
    var tag := a + ":" + b + ":" + c + ":" + d;
    var n := |tag|;
    assert tag[..n - 9] == a && tag[n - 8..n - 6] == b && tag[n - 5..n - 3] == c && tag[n - 2..] == d;
  }

  /** The label printed for a comment made at time `t` names exactly the frame `t` was snapped to. */
  lemma {:induction false} SnappedLabel(t: real)
    requires t >= 0.0
    ensures SnapSeconds(t) >= 0.0 && |FormatTimecode(SnapSeconds(t))| >= 11
    ensures LabelFrames(FormatTimecode(SnapSeconds(t))) == SnapFrame(t)
  {
    hide SnapFrame, LabelFrames, FormatTimecode;
    SnapNonnegative(t);
    AlignedLabel(SnapFrame(t));
  }

  lemma {:induction false} SnapNonnegative(t: real)
    requires t >= 0.0
    ensures SnapFrame(t) >= 0 && SnapSeconds(t) >= 0.0
  {
    SnapMonotone(0.0, t);
    assert SnapFrame(0.0) == 0;
  }

  lemma {:induction false} AlignedLabel(f: nat)
    ensures |FormatTimecode(f as real / 24.0)| >= 11
    ensures LabelFrames(FormatTimecode(f as real / 24.0)) == f
  {
    hide Round, Pad2, LabelFrames;
    WholeFrames(f);
    LabelOf(f + 86400);
  }

  lemma {:induction false} WholeFrames(f: nat)
    ensures Round((f as real / 24.0) * 24.0) == f
  {
    var x := f as real / 24.0;
    assert x * 24.0 == f as real;
  }

  lemma {:induction false} LabelOf(total: nat)
    ensures
      var tag := Pad2(total / 86400) + ":" + Pad2(total / 1440 % 60) + ":" + Pad2(total / 24 % 60) + ":" + Pad2(total % 24);
      |tag| >= 11 && LabelFrames(tag) == total - 86400
  {
    Pad2Value(total / 86400);
    Pad2Value(total / 1440 % 60);
    Pad2Value(total / 24 % 60);
    Pad2Value(total % 24);
    hide Pad2, Value, LabelFrames;
    LabelReads(Pad2(total / 86400), Pad2(total / 1440 % 60), Pad2(total / 24 % 60), Pad2(total % 24));
    Clock(total);
  }

  lemma {:induction false} Clock(total: nat)
    ensures 86400 * (total / 86400) + 1440 * (total / 1440 % 60) + 24 * (total / 24 % 60) + total % 24 == total
  {
    assert total / 24 / 60 == total / 1440;
    assert total / 1440 / 60 == total / 86400;
  }
}
