# Folded-paper map widget: transform strings, render and reset

A model of the logic at the heart of `index.js`. The file defines two classes.

- `Helpers` looks up elements by selector (`get`), builds CSS transform strings (`translateCSS`, `rotateCSS`), applies them to DOM elements (`rotate`, `translate`), and picks the centre of an array (`center`).
- `Paper` holds a map made of folded paper pieces. `calculate` derives the piece height and the fold offset, `reset` clears every transform, `render` folds the two halves of every group, shifts the groups and shifts the map, and `update` rebuilds the widget from merged specs.

The model is functional. An element is a record with an optional style whose optional `transform` holds the text the code last wrote. Writing `null` is `None`; writing `''` is `Some("")`. Every operation is a pure function from records to records, and a thrown error is a `Failure` of a `Result`.

Three behaviours of the source are worth stating up front. A render is not a stateless recomputation: `translate` appends, so a second render without a reset adds one more translation to every group (`Paper.RenderTwice`). And `center` on the empty array reads indices -1 and 0, which gives two `undefined` values and no error (`Helpers.Center`). And `get` returns the whole `NodeList` when a selector matches several elements; that value is truthy, so `initDOM` builds every group and then throws a TypeError when it calls `append` on the list (`Paper.InitDOM`), and `update` throws with it before it renders (`Paper.Update`).

The `Css` module is a parser for the text the builders write: concatenated calls such as `rotateX(25deg)translateX(-12px)`, with a serializer for the other direction. It lets "rotate overwrites, translate appends" be stated as a property of the list of calls, not only of strings.

Modules:

- `Wrappers`: `Option` and `Result`.
- `Text`: ASCII upper-casing, `indexOf`, `startsWith`/`endsWith`, and the `Plain` predicate (text without parentheses).
- `Css`: transform calls (`Segment`), `Serialize`, `ParseTransform`, and their round trips.
- `Helpers`: `get` (as the shape of its result), the string builders, `rotate`, `translate`, `center`.
- `Paper`: the specs, `InitDOM`, `Calculate`, `Reset`, `Render`, `Update`, and the properties of the render pass.

The runtime's number-to-text conversion inside template literals and `Math.cos` of an angle in degrees are parameters of the model: `Env.fmt` and `Env.cosDegrees`.

## Model

| member | source | states |
|---|---|---|
| Helpers.Get | index.js:13-17 | No match gives `undefined`, exactly one match gives that element, and two or more give the list of matches |
| Helpers.TranslateCSS | index.js:44-51 | Fails exactly when the axis is missing, with the translate-specific missing-axis error; succeeds for every other axis |
| Helpers.TranslateCSSText | index.js:50 | For every non-empty axis, the built text is exactly `translate`, then the upper-cased axis, then `(`, the number's text and `px)`. |
| Helpers.TranslateCSSParses | index.js:50 | The built text reads back as exactly one translate call on the upper-cased axis with the number's text, when neither contains parentheses |
| Helpers.RotateCSS | index.js:61-68 | Fails exactly when the axis is missing, with the rotate-specific missing-axis error; succeeds for every other axis |
| Helpers.RotateCSSText | index.js:67 | For every non-empty axis, the built text is exactly `rotate`, then the upper-cased axis, then `(`, the number's text and `deg)`. |
| Helpers.RotateCSSParses | index.js:67 | The built text reads back as exactly one rotate call on the upper-cased axis with the number's text, when neither contains parentheses |
| Helpers.Rotate | index.js:78-91 | An element without a style is rejected with rotate's not-a-DOM-element error, and a missing axis with rotate's missing-axis error; otherwise the transform becomes the rotate text, whatever it held before, because both branches assign the same value |
| Helpers.Translate | index.js:101-114 | An element without a style is rejected with translate's not-a-DOM-element error, and a missing axis with translate's missing-axis error; otherwise the text written is the old transform text followed by the translate text, with a missing or empty transform reading as the empty prefix |
| Helpers.RotateForgetsEarlier | index.js:84-88 | Rotating twice equals rotating once with the second arguments, and the result parses to the second rotation alone |
| Helpers.TranslateAppendsCall | index.js:107-110 | When the old transform parses and neither the axis nor the number text contains parentheses, the calls after a translate are the calls before it followed by exactly one translate call |
| Helpers.RotateThenTranslateParses | index.js:44-68 | A rotate text followed by a translate text on the same axis reads back as exactly those two calls, in that order, when no argument contains parentheses |
| Helpers.Center | index.js:123-134 | One element exactly for odd lengths, at the position equidistant from both ends; for even non-empty lengths the two elements either side of the middle; for the empty array two `undefined` reads |
| Helpers.CenterMirror | index.js:123-134 | Reversing the array mirrors the centre, so the choice favours neither end |
| Css.ParseSerialize | index.js:44-68 | Every sequence of well-formed calls, written the way the builders write them and concatenated, parses back to itself |
| Css.ParseSound | index.js:44-68 | Whatever text parses is exactly the concatenation of the parsed calls' texts, all of them well formed |
| Css.ParseConcat | index.js:107-108 | Appending one parseable transform to another appends their call lists, which is the meaning of `+=` on a transform |
| Paper.InitDOM | index.js:195-257 | With no match, returns `false` and keeps no groups; with one match, returns `true`; with several, throws a TypeError after building the groups; every outcome has a fresh styled map, and the two truthy lookups build `amount` fresh groups (none for a negative amount) |
| Paper.Calculate | index.js:259-267 | The height becomes ratio times width and the offset twice the width lost by folding, which is 0 when the fold's cosine is 1; nothing else in the specs changes |
| Paper.CalculateIdempotent | index.js:259-267 | Recalculating already calculated specs changes nothing |
| Paper.OffsetBounds | index.js:264-266 | For a cosine in [0, 1] and a non-negative width, the offset lies between 0 and twice the width |
| Paper.OffsetSymmetric | index.js:264-266 | With an even cosine, folding by an angle or by its negation gives the same offset |
| Paper.CompensationClosedForm | index.js:315-339 | The `compensate` accumulated over n loop iterations equals offset·n(n-1)/2 |
| Paper.PlaceGroup | index.js:328-337 | One loop iteration folds the left half by minus the fold angle and the right half by plus it, and appends the shift `i * -offset` to the group |
| Paper.PlaceGroups | index.js:317-341 | The loop leaves groups before the start untouched, places every later group by its own index, and adds the part of the compensation sum between the two indices |
| Paper.RotateMap | index.js:311-313 | After the y-, z- and x-rotations of the map, only the x-rotation remains |
| Paper.Render | index.js:303-344 | Keeps the widget valid, recalculates the specs, and places every group by its index; the map ends with its x-rotation followed by an x-translation of half of offset·n(n-1)/2 |
| Paper.RenderGroupLayout | index.js:328-337 | From a group with no transform, one render gives the halves the y-rotations by minus and plus the fold angle and the group the x-translation by `i * -offset` |
| Paper.PlacedText | index.js:328-337 | The same three texts for a single loop iteration |
| Paper.FoldedCalls | index.js:328-329 | A folded half parses to the single call `rotateY` with the angle's text |
| Paper.ShiftedCalls | index.js:337 | A group shifted from an empty transform parses to the single call `translateX` with the shift's text |
| Paper.Reset | index.js:288-301 | The map's transform is written as `''` and every group's, left half's and right half's as `null`; the shadows, the specs and the number of groups are unchanged |
| Paper.ResetIdempotent | index.js:288-301 | Resetting twice is resetting once |
| Paper.ResetThenRenderMatchesFresh | index.js:288-344 | Reset followed by render gives exactly the widget that a fresh build with the same specs followed by render gives, whether or not the container was found |
| Paper.RenderForgetsRotations | index.js:303-344 | Render reads the earlier state only through the specs, the group count, each group's transform text and the shadows |
| Paper.RenderTwice | index.js:303-344 | A second render without a reset leaves the specs, the map and both halves as they were, but every group gains one more translation, so the widget changes whenever there is a group |
| Paper.MapCalls | index.js:311-343 | The map a render leaves reads back as exactly two calls: `rotateX` by the map's x-rotation, then `translateX` by half of offset·n(n-1)/2 |
| Paper.RenderedMapCalls | index.js:303-344 | After any render, the map's transform reads back as that two-call list, when the two number texts contain no parentheses |
| Paper.RenderIgnoresMapRotationYZ | index.js:311-313 | Changing the map's y- and z-rotations leaves the rendered map unchanged |
| Paper.Update | index.js:269-283 | Returns `false` exactly when the argument is missing, and then changes nothing; throws exactly when the argument is present and the selector matches several elements, leaving the merged specs unrecalculated and the groups fresh; otherwise the widget is rebuilt from the merged specs and recalculated; it has one group per piece whenever the lookup is truthy |
| Paper.DefaultWidget | index.js:163-183 | Rendering the default specs keeps the fold angle 40, the map rotation (25, 0, 0), the amount 3, the width 100 and the ratio 4, and gives height 400, an offset of 2·(100 − 100·cos 40°), and three groups whose centre is the middle one |
| Paper.DefaultWidgetMap | index.js:163-183 | With the default specs, the rendered map is tilted by 25 degrees on x and shifted on x by half of three times the offset |

## Left out

- Browser I/O and environment glue are not modelled. This covers the `document.querySelectorAll` call inside `Helpers.get` (`Helpers.Get` takes the number of matches instead), `Helpers.new`, `append`, `remove`, `Helpers.polyfill`, the `window.Paper` and `window.Helpers` globals, and `console.error`. The container lookup is a parameter of `InitDOM` and `Update`, given as what `get` returns: no match, one match, or several matches. A new element is a styled record with an empty transform.
- `lodash.merge` in the constructor and in `update` is a foreign library. The merge is a parameter of `Update`.
- `Math.cos` and the conversion from degrees to radians are floating-point trigonometry. The cosine is a parameter (`Env.cosDegrees`). Numbers are reals, so IEEE rounding and `-0` are not modelled.
- The runtime's number-to-text conversion inside template literals is an arbitrary function (`Env.fmt`). The parsing lemmas assume its output contains no parentheses.
- `String.prototype.toUpperCase` is modelled for ASCII letters only.
- A missing axis (`undefined`, `null` or `''`) is modelled as the empty string. A falsy argument to `update` is modelled as `None`.
- Background colour, box shadow, width and height styles, and the `aspect` colours are not modelled: they are assignments with no logic.
- The throws in `Helpers` happen before any assignment, so they leave nothing to model. The TypeError in `initDOM` happens after `this.container`, `this.map` and `this.groups` are assigned; the model returns that state along with the error. An element without a style is rejected at the `Helpers` level. At the `Paper` level every element is styled (`Valid`), because the widget only holds elements it created itself.
- The `Helpers.center` call inside the render loop is not modelled, because its result is never used.
- The constructor is modelled only through `Defaults` and `InitDOM`; the merge with custom specs happens outside the model.
- Paper.Update: its contract gives the returned specs, the group count and validity, not the transform of every element. The render that follows is described by `Paper.Render`.
- The browser's handling of `style.transform` as a CSSOM property is not modelled. On assignment the browser parses the value and ignores an invalid one (for example a call on `NaN`); it stores `null` as `''`; on reading it re-serializes the calls with a space between them. The model's transform is the text exactly as the code writes it. So the text equations of `Helpers.Translate`, `Helpers.TranslateAppendsCall`, `Paper.Render` and `Paper.RenderTwice` describe what the code writes, not what a later read of the property returns.
- `pieces.amount` is assumed to be an integer. For a fractional amount the loop at index.js:212 would run ceil(amount) times.
