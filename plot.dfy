/** `plotColor`: one colour channel as a square grid of intensities, sampling the compiled calls
    over [-1, 1] x [-1, 1]. */
module Plot {
  import opened Wrappers
  import opened Expressions
  import opened Interpreter
  import opened Compiler
  import opened RoundTrip

  /** The side of the canvas: `pixelsPerUnit` pixels on each side of the origin, plus the origin. */
  function CanvasWidth(pixelsPerUnit: nat): (w: nat)
    ensures w % 2 == 1 && (w - 1) / 2 == pixelsPerUnit
  {
    2 * pixelsPerUnit + 1
  }

  /** The coordinate of pixel index `i`: the distance from the centre index, in units. */
  function Coordinate(pixelsPerUnit: nat, i: int): real
    requires pixelsPerUnit > 0
  {
    (i - pixelsPerUnit) as real / pixelsPerUnit as real
  }

  /** The point sampled at pixel row `row` and column `col`: x grows with the column, y shrinks
      with the row, so row 0 is the top of the image at y = 1. */
  function SamplePoint(pixelsPerUnit: nat, row: int, col: int): Point
    requires pixelsPerUnit > 0
  {
    Point(Coordinate(pixelsPerUnit, col), -Coordinate(pixelsPerUnit, row))
  }

  /** The first pixel index samples -1, the centre index 0 and the last index 1. */
  lemma CoordinateEnds(pixelsPerUnit: nat)
    requires pixelsPerUnit > 0
    ensures Coordinate(pixelsPerUnit, 0) == -1.0
    ensures Coordinate(pixelsPerUnit, pixelsPerUnit) == 0.0
    ensures Coordinate(pixelsPerUnit, 2 * pixelsPerUnit) == 1.0
  {
    var u := pixelsPerUnit as real;
    assert Coordinate(pixelsPerUnit, 0) == (-u) / u;
    assert Coordinate(pixelsPerUnit, pixelsPerUnit) == 0.0 / u;
    assert Coordinate(pixelsPerUnit, 2 * pixelsPerUnit) == u / u;
    DivideSelf(u);
  }

  lemma DivideSelf(u: real)
    requires u > 0.0
    ensures u / u == 1.0 && (-u) / u == -1.0
  {
    assert (-u) / u == -(u / u);
  }

  /** Neighbouring pixel indices are 1/pixelsPerUnit apart. */
  lemma CoordinateStep(pixelsPerUnit: nat, i: int)
    requires pixelsPerUnit > 0
    ensures Coordinate(pixelsPerUnit, i + 1) - Coordinate(pixelsPerUnit, i) == 1.0 / pixelsPerUnit as real
  {
    var u := pixelsPerUnit as real;
    var a := (i - pixelsPerUnit) as real;
    assert (i + 1 - pixelsPerUnit) as real == a + 1.0;
    assert (a + 1.0) / u == a / u + 1.0 / u;
  }

  /** Every pixel index of the canvas samples a coordinate in [-1, 1]. */
  lemma CoordinateBounded(pixelsPerUnit: nat, i: int)
    requires pixelsPerUnit > 0 && 0 <= i < CanvasWidth(pixelsPerUnit)
    ensures -1.0 <= Coordinate(pixelsPerUnit, i) <= 1.0
  {
    var u := pixelsPerUnit as real;
    assert -u <= (i - pixelsPerUnit) as real <= u;
    DivideBounds((i - pixelsPerUnit) as real, u);
  }

  lemma DivideBounds(a: real, u: real)
    requires u > 0.0 && -u <= a <= u
    ensures -1.0 <= a / u <= 1.0
  {
    assert a / u * u == a;
  }

  /** The four corners of the canvas sample the four corners of the square, and the centre pixel
      samples the origin. */
  lemma SampleCorners(pixelsPerUnit: nat)
    requires pixelsPerUnit > 0
    ensures SamplePoint(pixelsPerUnit, 0, 0) == Point(-1.0, 1.0)
    ensures SamplePoint(pixelsPerUnit, 0, 2 * pixelsPerUnit) == Point(1.0, 1.0)
    ensures SamplePoint(pixelsPerUnit, 2 * pixelsPerUnit, 0) == Point(-1.0, -1.0)
    ensures SamplePoint(pixelsPerUnit, 2 * pixelsPerUnit, 2 * pixelsPerUnit) == Point(1.0, -1.0)
    ensures SamplePoint(pixelsPerUnit, pixelsPerUnit, pixelsPerUnit) == Point(0.0, 0.0)
  {
    CoordinateEnds(pixelsPerUnit);
  }

  /** Python's `int` on a float: the integer part, truncated toward zero. */
  function Truncate(r: real): (t: int)
    ensures r >= 0.0 ==> t >= 0 && t as real <= r < t as real + 1.0
    ensures r < 0.0 ==> t <= 0 && t as real - 1.0 < r <= t as real
  {
    if r >= 0.0 then r.Floor else -((-r).Floor)
  }

  /** Truncation keeps the order of its arguments. */
  lemma TruncateMonotone(a: real, b: real)
    requires a <= b
    ensures Truncate(a) <= Truncate(b)
  {
    if a >= 0.0 || b < 0.0 {
      assert Truncate(a) as real < Truncate(b) as real + 1.0;
    }
  }

  /** The intensity written for a value `z`: `z` scaled from [-1, 1] to [0, 255.0], truncated,
      then clamped to [0, 255]. */
  function Intensity(z: real): (r: int)
    ensures 0 <= r <= 255
  {
    var intensity := Truncate(z * 127.5 + 127.5);
    if intensity < 0 then 0 else if intensity > 255 then 255 else intensity
  }

  /** The intensity never decreases as the value grows. */
  lemma IntensityMonotone(a: real, b: real)
    requires a <= b
    ensures Intensity(a) <= Intensity(b)
  {
    TruncateMonotone(a * 127.5 + 127.5, b * 127.5 + 127.5);
  }

  /** Inside [-1, 1] no clamping happens: the intensity is the floor of the scaled value, from 0
      at -1 through 127 at 0 to 255 at 1. Outside, the value saturates at 0 or 255. */
  lemma IntensityScale(z: real)
    ensures -1.0 <= z <= 1.0 ==> Intensity(z) == (z * 127.5 + 127.5).Floor
    ensures z <= -1.0 ==> Intensity(z) == 0
    ensures z >= 1.0 ==> Intensity(z) == 255
    ensures Intensity(-1.0) == 0 && Intensity(0.0) == 127 && Intensity(1.0) == 255
  {
    var s := z * 127.5 + 127.5;
    if z <= -1.0 {
      assert s <= 0.0;
    }
    if z >= 1.0 {
      assert s >= 255.0;
    }
    assert (0.0 * 127.5 + 127.5).Floor == 127;
  }

  /** What `plotColor` writes at pixel row `row`, column `col`: the intensity of the value of the
      calls at the sampled point. Dividing by `pixelsPerUnit` = 0 raises, a value that is not a
      number cannot be scaled, and a raise of `evaluateFunctionCalls` passes through. */
  function Pixel(m: Math, functionCalls: seq<char>, pixelsPerUnit: nat, row: int, col: int): Result<int> {
    if pixelsPerUnit == 0 then Err(ZeroDivisionError)
    else
      var z :- Evaluate(m, functionCalls, SamplePoint(pixelsPerUnit, row, col));
      if z.Num? then Ok(Intensity(z.v)) else Err(TypeError)
  }

  /** A pixel of the calls compiled from a well-formed expression holds the intensity of the
      expression's meaning at the sampled point. */
  lemma PixelOfExpression(m: Math, e: Expr, pixelsPerUnit: nat, row: int, col: int)
    requires Wellformed(e) && pixelsPerUnit > 0
    ensures Pixel(m, Compile(e), pixelsPerUnit, row, col) ==
      Ok(Intensity(Meaning(m, e, SamplePoint(pixelsPerUnit, row, col))))
  {
    RoundTrip.RoundTrip(m, e, SamplePoint(pixelsPerUnit, row, col));
  }

  /** Pixel (row, col) comes before pixel (row', col') in the drawing order. */
  predicate Before(row: int, col: int, row': int, col': int) {
    row < row' || (row == row' && col < col')
  }

  /** `plotColor`: fills a fresh canvas row by row, each pixel with `Pixel`; stops at the first
      pixel, in that order, whose value raises. */
  method PlotColor(m: Math, functionCalls: seq<char>, pixelsPerUnit: nat) returns (r: Result<array2<int>>)
    ensures r.Ok? ==>
      var canvas := r.value;
      fresh(canvas) && canvas.Length0 == CanvasWidth(pixelsPerUnit) && canvas.Length1 == CanvasWidth(pixelsPerUnit) &&
      forall row, col :: 0 <= row < canvas.Length0 && 0 <= col < canvas.Length1 ==>
        Pixel(m, functionCalls, pixelsPerUnit, row, col) == Ok(canvas[row, col])
    ensures r.Err? ==>
      exists row, col :: 0 <= row < CanvasWidth(pixelsPerUnit) && 0 <= col < CanvasWidth(pixelsPerUnit) &&
        Pixel(m, functionCalls, pixelsPerUnit, row, col) == Err(r.error) &&
        forall row', col' ::
          0 <= row' < CanvasWidth(pixelsPerUnit) && 0 <= col' < CanvasWidth(pixelsPerUnit) && Before(row', col', row, col) ==>
            Pixel(m, functionCalls, pixelsPerUnit, row', col').Ok?
  {
    var canvasWidth := 2 * pixelsPerUnit + 1;
    var canvas := new int[canvasWidth, canvasWidth];
    var it1 := 0;
    while it1 < canvasWidth
      invariant 0 <= it1 <= canvasWidth
      invariant forall row, col :: 0 <= row < it1 && 0 <= col < canvasWidth ==>
        Pixel(m, functionCalls, pixelsPerUnit, row, col) == Ok(canvas[row, col])
    {
      var it2 := 0;
      while it2 < canvasWidth
        invariant 0 <= it2 <= canvasWidth
        invariant forall row, col :: 0 <= row < it1 && 0 <= col < canvasWidth ==>
          Pixel(m, functionCalls, pixelsPerUnit, row, col) == Ok(canvas[row, col])
        invariant forall col :: 0 <= col < it2 ==>
          Pixel(m, functionCalls, pixelsPerUnit, it1, col) == Ok(canvas[it1, col])
      {
        if pixelsPerUnit == 0 {
          assert Pixel(m, functionCalls, pixelsPerUnit, it1, it2) == Err(ZeroDivisionError);
          assert forall row, col :: 0 <= row < canvasWidth && 0 <= col < canvasWidth ==> !Before(row, col, it1, it2);
          return Err(ZeroDivisionError);
        }
        var point := SamplePoint(pixelsPerUnit, it1, it2);
        var z := EvaluateFunctionCalls(m, functionCalls, point);
        assert forall row, col ::
          0 <= row < canvasWidth && 0 <= col < canvasWidth && Before(row, col, it1, it2) ==>
            Pixel(m, functionCalls, pixelsPerUnit, row, col).Ok?;
        if z.Err? {
          assert Pixel(m, functionCalls, pixelsPerUnit, it1, it2) == Err(z.error);
          return Err(z.error);
        }
        if !z.value.Num? {
          assert Pixel(m, functionCalls, pixelsPerUnit, it1, it2) == Err(TypeError);
          return Err(TypeError);
        }
        var intensity := Truncate(z.value.v * 127.5 + 127.5);
        if intensity < 0 {
          intensity := 0;
        } else if intensity > 255 {
          intensity := 255;
        }
        canvas[it1, it2] := intensity;
        it2 := it2 + 1;
      }
      it1 := it1 + 1;
    }
    return Ok(canvas);
  }
}
