# Photo-tile grid: row chunking and distance-driven tile visuals

This project models the two pieces of logic in the masterclass demo app
(`App.js`). The rest of the app is React Native composition.

- **Row chunking.** `chunk(arr, len)` splits the flat list of 40 photo
  entries into rows of `numberOfColumns = 8` tiles. Module `Grid` has
  `Chunk`, a method with the source's `while (i < n)` loop. It is proved
  equal to the specification function `Rows`. The lemmas about `Rows` show
  four things: the rows concatenate back to the input; every row but the
  last is full and the last holds 1 to `len` entries; there are
  ⌈n / len⌉ rows; and no other split has that shape. The precondition
  `len > 0 || arr == []` is exactly the condition under which the source
  loop terminates. `NoProgress` shows that the index never reaches the
  length when `len <= 0` and the input is non-empty.
- **Clamped interpolation.** Module `Interpolation` models reanimated's
  `interpolate` with `Extrapolate.CLAMP` as a generic piecewise-linear
  `Curve`. Between consecutive anchors it is linear, it passes through
  every anchor, and it holds its end values outside the input range. When
  the outputs never rise, the curve is non-increasing and stays within its
  output range.
- **Tile visuals.** Module `Tile` models the code in `Tile.render`. A tile's
  centre is `left + 120/2`, `top + 200/2`. Its distance from the window
  centre is the Manhattan sum `|centerX − halfW − offX| + |centerY − halfH − offY|`.
  This distance feeds four curves: scale [0,160]→[1,0.75],
  opacity [0,200]→[1,0.25], borderOpacity [0,150]→[1,0] and
  textOpacity [0,60,75]→[1,1,0].

Inputs from the host toolkit are plain parameters:

- the tile's measured `left` and its row's `top`, which are 0 until the
  first layout callback fires;
- half the window's width and height (`Dimensions.get("window")`);
- the scroll offset (`animValX`, `animValY`).

Numbers are Dafny `real`s.

The order in which effects fade follows the constants in the code. Text is
gone at 75 and the border at 150. Scale reaches its floor at 160 and
opacity reaches its floor at 200 (`Tile.FadeOrder`).

## Model

| member | source | states |
|---|---|---|
| `Grid.Chunk` | App.js:223-233 | The loop returns exactly `Rows(arr, len)`. Its index `i` is `IndexAfter(len, k)` after `k` iterations, and it stops after ⌈n/len⌉ iterations, one per chunk. The chunks concatenate to `arr`. For `len > 0` every chunk but the last has `len` entries, every chunk has 1 to `len`, and there are ⌈n/len⌉ chunks. The result is empty iff `arr` is empty. Requires `len > 0` or an empty `arr`, the only case in which the loop ends. |
| `Grid.Rows` | App.js:223-233 | The specification of `chunk`: a first slice of `len` entries, or all that remain, then the rows of the rest. There are no rows iff the input is empty. |
| `Grid.Slice` | App.js:229 | `arr.slice(i, i + len)` with both ends cut back to the length. Entry k of the slice is entry `i + k` of `arr`, the slice is at most `len` long, it ends at `min(i + len, n)`, and it is empty once `i` reaches the length. |
| `Grid.IndexAfter` | App.js:225-229 | The loop index starts at 0 and grows by `len` each iteration, so after k iterations it is k·len. |
| `Grid.RowsStep` | App.js:228-229 | One iteration: the rows from index `i` are `arr.slice(i, i + len)` followed by the rows from `min(i + len, n)`. |
| `Grid.RowsFlatten` | App.js:223-233 | Concatenating the rows gives the input back, in order. |
| `Grid.RowsWellChunked` | App.js:228-230 | Every row holds between 1 and `len` entries, and every row except the last holds exactly `len`. |
| `Grid.RowsCount` | App.js:224-232 | The number of rows is ⌈n / len⌉. |
| `Grid.RowsUnique` | App.js:223-233 | Any list of rows that concatenates to the input and has the full-rows-then-short-last shape is the one `chunk` builds. |
| `Grid.RowsLastLength` | App.js:228-230 | The last row holds what the full rows before it leave over: n − (rows − 1)·len. |
| `Grid.NoProgress` | App.js:227-229 | If `len <= 0` and the input is non-empty, the index stays at or below 0 after any number of iterations, so `i < n` never fails and the loop never ends. |
| `Grid.Terminates` | App.js:227-229 | For `len > 0`, the index has reached `n` after k iterations iff k ≥ ⌈n/len⌉, so the loop makes exactly one iteration per row. |
| `Grid.LoopExit` | App.js:227-229 | For `len > 0`, the first iteration count at which the index reaches `n` is ⌈n/len⌉. |
| `Grid.PhotoRows` | App.js:362 | The 40 photo entries chunked by `numberOfColumns = 8` give 5 rows of exactly 8. |
| `Interpolation.Segment` | App.js:258-277 | The line for segment k passes through anchor k and anchor k + 1. |
| `Interpolation.Piecewise` | App.js:258-277 | Segment choice from anchor k onward: the first segment whose right end the value has not passed, otherwise the last one. It maps anchor k to output k and the last anchor to the last output. |
| `Interpolation.Interpolate` | App.js:258-277 | Interpolation clamped on both sides. At or below the first input the output is the first output. At or above the last input it is the last output. |
| `Interpolation.PiecewiseInSegment` | App.js:258-277 | Selecting a segment from any earlier anchor lands on segment j whenever the value lies in [inputs[j], inputs[j+1]]. |
| `Interpolation.InSegment` | App.js:258-277 | Linear between consecutive anchors: inside [inputs[j], inputs[j+1]] the clamped interpolation is the line through anchors j and j + 1. |
| `Interpolation.FindSegment` | App.js:258-277 | Every value inside the input range lies in some segment. |
| `Interpolation.AnchorValue` | App.js:258-277 | The interpolation maps every input anchor to its output anchor. |
| `Interpolation.SegmentNonIncreasing` | App.js:258-277 | A segment whose outputs fall never gives a larger output for a larger input. |
| `Interpolation.Monotone` | App.js:258-277 | With non-increasing outputs, the clamped interpolation is non-increasing over all reals. |
| `Interpolation.Bounded` | App.js:258-277 | With non-increasing outputs, every output lies between the last and the first output. |
| `Tile.Distance` | App.js:251-256 | The distance is never negative. It is 0 iff `offX = centerX − halfW` and `offY = centerY − halfH`. |
| `Tile.Abs` | App.js:254-255 | The absolute value is non-negative and equals the argument or its negation. |
| `Tile.CenterX` | App.js:251 | The tile's horizontal centre lies strictly inside the 120-wide tile, equally far from both edges. |
| `Tile.CenterY` | App.js:252 | The tile's vertical centre lies strictly inside the 200-high tile, equally far from both edges. |
| `Tile.VisualAt` | App.js:258-277 | The four curves at a distance. scale ∈ [0.75, 1], opacity ∈ [0.25, 1], borderOpacity ∈ [0, 1] and textOpacity ∈ [0, 1] for every distance, and all four are 1 at or below distance 0. |
| `Tile.TileVisual` | App.js:251-277 | The visuals of one tile. All four properties are 1 iff the offset centres the tile in the viewport: `offX = centerX − halfW` and `offY = centerY − halfH`. |
| `Tile.CurvesFalling` | App.js:258-277 | The four curves have strictly increasing inputs and non-increasing outputs. |
| `Tile.DistanceRelative` | App.js:251-256 | Moving the tile and the offset by the same amount leaves the distance unchanged. |
| `Tile.DistanceMirror` | App.js:251-256 | The distance ignores the sign of each component. Reflecting the offset about the tile's centre on either axis keeps the distance. |
| `Tile.Pinned` | App.js:258-277 | Beyond each curve's last input the value is pinned: scale 0.75 from 160, opacity 0.25 from 200, borderOpacity 0 from 150, textOpacity 0 from 75. |
| `Tile.TextPlateau` | App.js:273-277 | textOpacity is 1 for every distance up to 60 and equals (75 − d)/15 between 60 and 75. |
| `Tile.TextAtSeventy` | App.js:273-277 | At distance 70, textOpacity is 1/3. |
| `Tile.LinearFalloff` | App.js:258-272 | Inside its input range, scale is 1 − 0.25·d/160, opacity is 1 − 0.75·d/200 and borderOpacity is 1 − d/150. |
| `Tile.VisualMonotone` | App.js:258-277 | None of the four properties increases as the distance grows. |
| `Tile.FadeOrder` | App.js:258-277 | On [75,150) the text is gone and the border still shows. On [150,160) the border is gone and scale is still above 0.75. On [160,200) scale is at 0.75 and opacity is still above 0.25. |
| `Tile.FarCornerScenario` | App.js:219-277 | A tile centred at (500, 400), with window half-size (400, 300) and zero scroll, has distance 200 and visuals (0.75, 0.25, 0, 0). |

## Left out

- Rendering is not modelled: JSX trees, `StyleSheet` styles, `Image`, `LinearGradient` and `DebugCrossHairs` (App.js:235-241, 279-318, 377-427). This is pure UI composition with no behaviour to state. As a result `tileMargin` (App.js:221), which is used only in styles, does not appear.
- The `onLayout` callbacks that store `left` and `top` through `setState` (App.js:244-248, 324-328) are host-toolkit measurements. `left` and `top` are plain inputs of `Tile.Placement`; before the first layout they are 0.
- The `Animated.event` scroll wiring and the `Animated.Value` objects (App.js:347-360) are event plumbing. The offset is a parameter (`Tile.Offset`).
- `Dimensions.get("window")` (App.js:8-11) is a platform query. Half the window's width and height are a parameter (`Tile.Window`).
- The reanimated library is not part of this model. `Interpolation.Interpolate` follows its documented clamp semantics over `real`; it does not model floating-point rounding or the library's node-graph evaluation of `add`, `sub`, `abs` and `interpolate`.
- Interpolation.Interpolate: requires strictly increasing inputs and equal-length ranges. The library also accepts equal consecutive inputs and rejects malformed ranges at run time; neither case is modelled, because the app's four constant ranges are all strictly increasing (`Tile.CurvesFalling`).
- Grid.Chunk: `len` is an integer. JavaScript's behaviour for non-integer `len` (fractional slice bounds) is not modelled, because the only caller passes the constant 8.
- The `DATA` image `require`s (App.js:13-215) are asset references. Only their count, 40, is used (`Grid.PhotoCount`).
