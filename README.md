# ImageGenerator core in Dafny

ImageGenerator draws "random art" in three steps:
1. `buildExpression` draws a random nested expression over `x` and `y`, such as `s(c(x)*t(y))`. Its tags are `s`, `c`, `t` and `l`, for sin(pi·v), cos(pi·v), tan(pi·v) and ln v.
2. `convertToFunctionCalls` and `evaluateExpression` compile the expression text into a flat list of calls, for one colour channel. The list is a string over `( ) x y s c t l *`.
3. `plotColor` evaluates that list at every pixel of a square canvas (`evaluateFunctionCalls` and `solveExpression`) and scales each value to a grey level in [0, 255].

This project models those three steps and proves that they fit together. For every expression `buildExpression` can draw:
- compilation never raises;
- the compiled calls are the depth-first linearisation of the expression tree;
- evaluating them at a point gives the recursive meaning of the expression;
- every pixel of the canvas therefore holds the intensity of that meaning at the pixel's sample point.

Modules, one file each:
- `Wrappers` (wrappers.dfy): `Result`, with the three Python exceptions the code can raise, `IndexError`, `TypeError` and `ZeroDivisionError`.
- `Brackets` (brackets.dfy): bracket depth. A text is `NeverNegative` when no prefix closes more brackets than it opened, and `Balanced` when in addition it ends at depth 0.
- `Expressions` (expressions.dfy): the expression tree, its text, and `buildExpression` with its random draws made an explicit `Draw` value.
- `Scanner` (scanner.dfy): `tokenizeExpression` and `determineNestedExpression`. Each is a loop method proved equal to a left fold of its loop body.
- `Compiler` (compiler.dfy): `evaluateExpression` and `convertToFunctionCalls`, written as the class `CallLists`. It holds the four module-level lists `redFunctionCalls`, `greenFunctionCalls`, `blueFunctionCalls` and `currentFunctionCalls`. `Emit` is the function these methods are proved against. `Compile` is the linearisation of a tree.
- `Interpreter` (interpreter.dfy): `solveExpression` and `evaluateFunctionCalls`, as loop methods proved equal to folds of their loop bodies. The transforms `sinPiX`, `cosPiX`, `tanPiX` and `lnX` are the functions `SinPiX`, `CosPiX`, `TanPiX` and `LnX`.
- `RoundTrip` (roundtrip.dfy): the meaning of an expression, and the theorem that the compiled calls evaluate to it.
- `Plot` (plot.dfy): `plotColor` as a loop method filling an `array2`, with the pixel geometry and the intensity scale.

The floating-point operations (`math.pi`, `sin`, `cos`, `tan`, `log` and the product of two floats) are a parameter `m: Math` of uninterpreted functions on the reals. The theorems therefore hold whatever those operations round to, and the model keeps the exact order in which `solveExpression` multiplies.

Where the code and its own comments or documentation differ, the model follows the code:
- `evaluateExpression` emits all `k-1` product operators of a frame after its `k` siblings, not between them. `solveExpression` then folds the frame with "pop the front value and multiply it into the new front", so a frame with values `v0 … v(k-1)` yields `v(k-1)·(…·(v1·v0))`. That is the full product for every `k`, not only for two factors (`Interpreter.SolveStars`).
- `evaluateExpression` computes `sinPiX(...)` and the others of the codes 0, 1 and 2 that the recursive calls return, and then throws those values away. What it leaves behind is the list of calls, the returned code, and the `IndexError` of `values[0]` when no sibling was compiled. The model keeps exactly that (`Compiler.Emit`).
- `int(z * 127.5 + 127.5)` truncates toward zero, so `z = 0` gives 127, not 128 (`Plot.IntensityScale`).
- A product is drawn from nine ordered pairs of `s`, `c`, `t`, three per first tag (lines 103-111).

## Model

| member | source | states |
|---|---|---|
| Expressions.BuildExpressionRenders | ImageGenerator.py:95-114 | the string `buildExpression` returns for draws `d` is the bracketed text of the tree those draws describe |
| Expressions.DrawGenerable | ImageGenerator.py:95-114 | the draws `buildExpression` can make (no `l` factor in a product) are exactly those whose tree is generable: one tagged argument, or two arguments tagged `s`/`c`/`t`; every drawn tree is well-formed |
| Expressions.GenerableIsDrawn | ImageGenerator.py:95-114 | conversely, every generable tree is drawn by some valid draws |
| Expressions.BuildExpressionShape | ImageGenerator.py:95-114 | a `buildExpression` result is balanced and is `x` or `y`, or `T(a)` with `T` in s, c, t, l, or `T1(a)*T2(b)` with `T1`, `T2` in s, c, t and `a`, `b` non-empty and balanced |
| Expressions.RenderBalanced | ImageGenerator.py:95-114 | the text of every expression tree is balanced |
| Scanner.TokenizeExpression | ImageGenerator.py:178-204 | the loop returns what the fold of its body over the text returns, raising `IndexError` where it pops an empty bracket stack |
| Scanner.TokenizeSucceeds | ImageGenerator.py:193-197 | `tokenizeExpression` succeeds if and only if no prefix of the text closes more brackets than it opened |
| Scanner.TokenizeScanDepth | ImageGenerator.py:184-202 | after any prefix, the bracket stack holds the prefix's depth, and a sibling is complete exactly when that depth is 0 |
| Scanner.TokenizeRendered | ImageGenerator.py:178-204 | on the text of a well-formed tree, a variable yields no siblings and no operators, and a node with k siblings yields the k sibling texts and k-1 operators `*` |
| Scanner.TokenizeJoined | ImageGenerator.py:178-204 | `tokenizeExpression` of siblings `T1(a1)*...*Tk(ak)` with balanced arguments returns exactly those k siblings and k-1 operators `*` |
| Scanner.TokenizeJoin | ImageGenerator.py:187-202 | siblings `T1(a1)*...*Tk(ak)` with balanced arguments are split into exactly those k siblings and k-1 operators |
| Scanner.TokenizeLengths | ImageGenerator.py:178-204 | no sibling returned is longer than the input, so the recursion of `evaluateExpression` on a sibling descends |
| Scanner.DetermineNestedExpression | ImageGenerator.py:206-218 | the loop returns what the fold of its body returns, raising `IndexError` where it pops an empty bracket stack |
| Scanner.NestedSucceeds | ImageGenerator.py:206-218 | `determineNestedExpression` succeeds if and only if no prefix closes more brackets than it opened |
| Scanner.NestedOfBracketed | ImageGenerator.py:206-218 | on `u(a)v` with `a` balanced and no brackets in `u` or `v`, the result is exactly `a` |
| Scanner.NestedSibling | ImageGenerator.py:206-218 | the nested expression of a sibling text `T(E)` is the text of `E` |
| Scanner.NestedShorter | ImageGenerator.py:206-218 | the nested expression of a non-empty text is strictly shorter than the text |
| Compiler.CallLists.constructor | ImageGenerator.py:17-20 | the four call lists start empty |
| Compiler.CallLists.EvaluateExpression | ImageGenerator.py:116-176 | appends to `currentFunctionCalls` exactly the calls `Emit` gives for the text and returns its code (0 for `x`, 1 for `y`, 2 otherwise) or its raise; a raise keeps what was appended before it |
| Compiler.CallLists.EvaluateSiblings | ImageGenerator.py:141-162 | the loop over the siblings appends each sibling's calls in order, counts the values collected, and stops at the first raise |
| Compiler.CallLists.EvaluateSibling | ImageGenerator.py:144-162 | one sibling: unwrap it, then, when it starts with a tag, compile its argument and append the tag |
| Compiler.CallLists.ConvertToFunctionCalls | ImageGenerator.py:220-241 | `currentFunctionCalls` restarts and receives the calls of the expression; the named channel's list gets them when no raise happens; the other channels are unchanged; an unknown colour compiles nothing |
| Compiler.EmitRendered | ImageGenerator.py:116-176 | on the text of a well-formed tree `evaluateExpression` never raises, appends exactly the depth-first linearisation `Compile(e)` and returns 0, 1 or 2 by kind |
| Compiler.EmitSiblingsRendered | ImageGenerator.py:142-162 | on such a text, the loop over the first k siblings appends the linearisation of those k siblings and collects k values |
| Compiler.EmitSiblingsRaised | ImageGenerator.py:144-162 | once the loop over the siblings has raised, no later sibling changes its result |
| Interpreter.LogArgument | ImageGenerator.py:40-43 | `lnX` takes the logarithm of a positive number: `x` itself when `x > 0`, otherwise 0.0000001 |
| Interpreter.SolveExpression | ImageGenerator.py:267-291 | the loop returns the first value left by the fold of its body over the frame; an empty value list, or a tag or `*` without enough values, raises `IndexError`, and a transform or product of a non-number raises `TypeError` |
| Interpreter.SolveTagStep | ImageGenerator.py:276-283 | a tag with no value before it raises `IndexError`; otherwise it rewrites only the last value and keeps the length |
| Interpreter.SolveStarStep | ImageGenerator.py:284-286 | `*` with fewer than two values raises `IndexError`; otherwise it multiplies the front value into the second and drops the front |
| Interpreter.SolveStars | ImageGenerator.py:284-286 | k values followed by k-1 operators `*` reduce to the single value `v(k-1)·(…·(v1·v0))` |
| Interpreter.SolveRaised | ImageGenerator.py:267-291 | a raise at one symbol is the raise of the whole `solveExpression` call |
| Interpreter.EvaluateFunctionCalls | ImageGenerator.py:243-265 | the loop returns the first entry of the bottom frame left by the fold of its body; `)` solves the top frame and hands its value to the frame below |
| Interpreter.EvalRaised | ImageGenerator.py:243-265 | a raise at one symbol is the raise of the whole `evaluateFunctionCalls` call |
| RoundTrip.SolveFrame | ImageGenerator.py:271-283 | the calls of a node's siblings, each argument's value followed by its tag, solve to each sibling's value in order |
| RoundTrip.SolveNode | ImageGenerator.py:267-291 | a node's frame with its k-1 operators solves to the node's meaning |
| RoundTrip.CompileRun | ImageGenerator.py:243-262 | running the linearisation of a well-formed tree on any stack appends the tree's meaning to the top frame and changes nothing else |
| RoundTrip.EvalPieces | ImageGenerator.py:243-262 | running the calls of a node's first k siblings appends their frame to the top frame |
| RoundTrip.RoundTrip | ImageGenerator.py:243-265 | evaluating the linearisation of a well-formed tree at a point gives the tree's meaning at that point |
| RoundTrip.Pipeline | ImageGenerator.py:220-241 | for every draw, compiling the `buildExpression` text does not raise, yields the linearisation of the drawn tree, and evaluates at every point to its meaning |
| Plot.CanvasWidth | ImageGenerator.py:56 | the canvas side is odd, with `pixelsPerUnit` pixels on each side of the centre |
| Plot.CoordinateEnds | ImageGenerator.py:73-74 | pixel index 0 samples -1, the centre index samples 0 and the last index samples 1 |
| Plot.CoordinateStep | ImageGenerator.py:73-74 | neighbouring pixel indices are `1/pixelsPerUnit` apart |
| Plot.CoordinateBounded | ImageGenerator.py:68-74 | every index of the canvas samples a coordinate in [-1, 1] |
| Plot.SampleCorners | ImageGenerator.py:68-74 | the corners of the canvas sample the corners of the square, the top-left one at (-1, 1), and the centre pixel samples the origin |
| Plot.Truncate | ImageGenerator.py:85 | `int` on a float is the integer part truncated toward zero: within 1 below a non-negative value, within 1 above a negative one |
| Plot.TruncateMonotone | ImageGenerator.py:85 | truncation keeps order |
| Plot.Intensity | ImageGenerator.py:85-89 | every intensity written is in [0, 255] |
| Plot.IntensityMonotone | ImageGenerator.py:85-89 | the intensity never decreases as the value grows |
| Plot.IntensityScale | ImageGenerator.py:84-89 | inside [-1, 1] the intensity is the floor of `z·127.5 + 127.5`, so -1, 0 and 1 give 0, 127 and 255; at or below -1 it is 0 and at or above 1 it is 255 |
| Plot.PixelOfExpression | ImageGenerator.py:73-89 | a pixel of the calls compiled from a well-formed tree holds the intensity of the tree's meaning at the pixel's sample point |
| Plot.PlotColor | ImageGenerator.py:54-92 | on success, a fresh square canvas of side `2·pixelsPerUnit+1` whose entry at (row, column) is that pixel's value; on a raise, the raise of the first pixel in row-major order whose evaluation raises, every earlier pixel having succeeded |

## Left out

- Randomness: `random.random` and `random.choice` are replaced by an explicit `Draw` value, so the continuation probability `prob` and its squaring are not modelled. The model covers which strings can be drawn, not how likely each is.
- Floating point: `math.pi`, `sin`, `cos`, `tan`, `log` and the float product are uninterpreted parameters. The `float(...)` division of the pixel coordinates and the scaling `z * 127.5 + 127.5` are exact real arithmetic, so their rounding is not modelled.
- Plot.Truncate: an infinite or NaN value, on which `int` raises `OverflowError` or `ValueError`, cannot arise on the reals and is not modelled.
- `sinPiXY`, `cosPiXY` and `tanPiXY` (lines 25-38) are never called by the core and are not modelled.
- `plotImage` (lines 45-52), with `Image.merge`, `Image.new`, the saving of images and `main`, is I/O through the imaging library and is not modelled. The canvas is an `array2<int>`, and `putpixel((it2, it1), ...)` is the write at row `it1`, column `it2`.
- `print` calls are output only and are not modelled.
- Plot.PlotColor: `pixelsPerUnit` is a natural number. A negative width, which makes `range` empty in the source, is not modelled. `pixelsPerUnit = 0` raises `ZeroDivisionError` at the first pixel, as in the source.
- Compiler.CallLists.ConvertToFunctionCalls: after the call, the named channel's list and `currentFunctionCalls` are the same Python list object. The model copies the value, so a later in-place append to `currentFunctionCalls` would not show up in that channel. No code path of the core appends to it afterwards.
- Compiler.CallLists.EvaluateSiblings: the loop body's `values` list is represented by its length. Its elements are the discarded results of `sinPiX` and the others of the codes 0, 1 and 2, and can never raise.
