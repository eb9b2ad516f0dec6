# Sketchpad classifier core, in Dafny

The repository is a browser sketchpad. The user draws white strokes on a black
canvas, and a Fashion-MNIST classifier (an ONNX model run by ONNX Runtime Web)
labels the drawing. Around the DOM and ONNX plumbing, two pieces of logic
carry meaning. This project models both and proves their properties.

- **Canvas to tensor** (`preprocessCanvas`). The canvas is first scaled down to
  a 28x28 RGBA buffer: 4 bytes per pixel, row-major. Two nested loops then walk
  rows `y` (outer) and columns `x` (inner). A running pointer `ptr` fills a
  784-entry `[1,1,28,28]` NCHW tensor. Each entry is the mean of the pixel's
  red, green and blue bytes divided by 255. Alpha is never read. Module
  `Tensor`, file `tensor.dfy`.
- **Reading the scores** (the `predecir` click handler). The top class is
  `arr.indexOf(Math.max(...arr))`, so the first occurrence of the maximum wins.
  The probability list pairs score `i` with `LABELS[i]`. It shows the name part
  of the label, `LABELS[i].split(': ')[1]`, and the score times 100. Nothing is
  renormalised. Module `Prediction` in `prediction.dfy`. It uses the label
  table and a model of `String.prototype.split` from module `Labels` in
  `labels.dfy`. `Optional.Option` stands for values that the browser would show
  as `undefined`.

Bytes are the subset type `Tensor.Byte` (0..255), which matches the clamped
byte array the canvas returns. All numbers are exact Dafny `real`s. Every
operation is a pure function or a method without side effects, so
determinism (the same buffer always gives the same tensor) holds by
construction.

Two cases that could look like errors are not errors in the code:

- The code checks no lengths. A score vector shorter than the label table
  simply lists fewer classes. A longer one makes `LABELS[10].split` throw a
  `TypeError`, which the handler's `catch` turns into an error status.
  `Prediction.Predict` models exactly that: `Failed` when there are more than
  10 scores, and a shorter list otherwise.
- An empty score vector does not fail. `Math.max()` of nothing is
  `-Infinity`, and `indexOf` does not find it, so the prediction index is `-1`
  and its label is `undefined`. `Prediction.Top1` returns `-1` for the empty
  list, and `Predict` shows a `None` label.

## Model

| member | source | states |
|---|---|---|
| Tensor.Gray | script.js:69-72 | a pixel's intensity is in [0,1]; it is 0 exactly when r, g and b are all 0 (black) and 1 exactly when all are 255 (white) |
| Tensor.Encode | script.js:61 | the tensor has exactly 1*1*28*28 = 784 entries |
| Tensor.PreprocessCanvas | script.js:60-77 | the nested loops return 784 entries; the entry at row-major index y*28+x is the grey level of the RGB bytes at offset (y*28+x)*4; so the running pointer stays equal to y*28+x, and the result equals the reference tensor `Encode` |
| Tensor.EncodeInUnitRange | script.js:66-72 | when every byte is in 0..255, every tensor entry lies in [0.0, 1.0] |
| Tensor.AlphaIgnored | script.js:69 | two buffers that agree on every red, green and blue byte give the same tensor, whatever their alpha bytes are |
| Tensor.PixelLocality | script.js:65-74 | changing the bytes of pixel p leaves every other tensor entry unchanged |
| Tensor.BlackIffZeroTensor | script.js:66-67 | a black buffer (as the canvas is initialised and cleared) encodes to the all-zero tensor, and only a black buffer does |
| Tensor.WhiteIffOneTensor | script.js:66-72 | an all-white buffer encodes to the all-one tensor, and only an all-white buffer does |
| Labels.FindFrom | script.js:97 | returns the first position at or after `from` where the separator occurs, or -1 exactly when it occurs nowhere there |
| Labels.Split | script.js:97 | `split` with a non-empty separator always returns at least one piece |
| Labels.JoinSplit | script.js:97 | joining the pieces of a split with the separator gives back the original string |
| Labels.SplitPiecesFree | script.js:97 | no piece of a split contains the separator |
| Labels.SplitWithoutSep | script.js:97 | a string without the separator's first character splits into itself alone |
| Labels.SplitPrefixed | script.js:97 | prefix + separator + tail splits into exactly [prefix, tail] when neither part can hold the separator |
| Labels.LabelsWellFormed | script.js:9-12 | the table has 10 entries; entry i is the digit i, then ": ", then the i-th name, and no name contains a colon |
| Labels.LabelSplit | script.js:97 | `LABELS[i].split(': ')` is [digit i, name i]: the index prefix matches the position, and piece 1 is the name |
| Labels.DisplayName | script.js:97 | `split(': ')[1]` is defined exactly when the split has a second piece, which is exactly when the label contains ": "; the shown name never contains ": " |
| Labels.AllDisplayNames | script.js:97 | every label in the table shows as its category name, never as `undefined` |
| Prediction.Max | script.js:94 | `Math.max` on a non-empty list returns one of its elements, and no element is larger |
| Prediction.IndexOf | script.js:94 | `indexOf` returns -1 exactly when the value is absent; otherwise it returns a position holding the value with no earlier position holding it |
| Prediction.Top1 | script.js:94 | for non-empty scores, the chosen index is in bounds, holds the maximum, and every earlier index holds a strictly smaller score; for no scores it is -1 |
| Prediction.Top1Characterised | script.js:94 | an index satisfies the "first maximum" property exactly when it is the chosen index, so the tie-break rule determines the choice uniquely |
| Prediction.LabelAt | script.js:95 | `LABELS[maxIdx]` is defined exactly when the index is within the 10-entry table, and then it is the index's own digit, ": " and the category name |
| Prediction.Percent | script.js:97 | the shown percentage is the score scaled by 100 with no renormalisation, so dividing it by 100 gives the score back, and a score in [0,1] shows within [0,100] |
| Prediction.Predict | script.js:93-97 | with at most 10 scores: row i pairs index i with the name of `LABELS[i]` and shows score i times 100, one row per score in input order; the prediction line shows the first maximum and its full label; with more than 10 scores the handler fails |
| Prediction.PercentTotalScales | script.js:97 | rows whose percentages are the scores times 100 (as `Predict` shows them) are not renormalised: they total 100 times the sum of the scores, so they total 100 exactly when the scores sum to 1 |
| Prediction.TieBreakExample | script.js:94 | with scores [0.5, 0.5, 0, ...] the tie goes to index 0 |
| Prediction.CoatExample | script.js:94-97 | for a distribution peaking at 0.5 at index 4, the prediction is 4, "4: Coat", and row 4 shows Coat at 50 percent |

## Left out

- Drawing on the canvas, the mouse event wiring and the clear button (script.js:14-34). These are DOM side effects. The black background they leave is the premise of `Tensor.BlackIffZeroTensor`.
- The 28x28 downscale through `drawImage` (script.js:52-57). The browser picks the resampling filter, and it cannot be seen. The model starts from the resized 3136-byte buffer, which is why `PreprocessCanvas` requires that length.
- Loading the ONNX model, `session.run`, building the input tensor, the names of the input and output, and the async status messages with their try/catch (script.js:37-47, 81-91, 98-101). These are calls into a foreign library and async plumbing. The scores that inference returns are simply the input of `Prediction.Predict`.
- The "model not loaded yet" alert (script.js:82). It is a UI guard that does no computation.
- Float32 storage and IEEE-754 rounding in the tensor and the scores. The model uses exact reals.
- When `Predict` gives `Failed`, the probability list on screen is not reassigned and keeps what an earlier click showed (script.js:97). The model does not carry the previous screen contents between clicks.
- The `toFixed(1)` formatting of percentages and the HTML text of the rows. `Row.percent` is the unrounded value `p*100`.
- `NaN` scores and `-0`. `Math.max` and `indexOf` treat them in special ways, and reals have neither.
- `Labels.Split`: models `split` only for a non-empty separator. The code only ever splits on ": ".
