# color-ease core, in Dafny

A model of the computational core of color-ease, a colour toolkit. It has a
TypeScript back end that parses hex colours and builds palettes, and a React
front end. The front-end image workspace lets a user zoom and pan a picture,
pick a pixel's colour or measure a distance in pixels. A web worker counts the
colours of a selected rectangle.

The project models five pieces:

- **Color** (`color.dfy`): the hex codec of the colour service.
  - `parseHex` trims, drops one leading `#` and accepts exactly 3 or 6 hex digits. It expands the short form and reads three channels with shifts and masks.
  - `toHex` writes two lower-case digits per channel.
  - `clamp` bounds a number.
- **Palette** (`palette.dfy`): `listSchemes`, `generatePalette`, the five scheme helpers and `wrap`. `rotateHue`, `lightenDarken` and `toHsl` are parameters about which nothing is assumed.
- **Convert** (`convert.dfy`): the front end's non-validating `hexToRgb`.
- **Census** and **SelectionWorker** (`census.dfy`, `selection_worker.dfy`): the selection worker.
  - Census defines, as functions, what `stats` and `buildIndex` compute. These are the opaque pixels of a rectangle in row-major order, the per-colour tally, its stable sort by descending count, and the per-colour coordinate lists.
  - The class `SelectionWorker.Worker` keeps the worker's module state (`width`, `height`, `data`).
  - Its nested loops are proved to compute exactly those functions, including the `TypeError` an undefined colour byte raises.
- **Viewport** and **Workspace** (`viewport.dfy`, `workspace.dfy`): the image workspace.
  - Viewport holds the pure arithmetic on exact reals: device-pixel alignment, image metrics, the cover-fit minimum scale, the screen/image maps, pan clamping, wheel scale and the anchored pan.
  - Workspace holds the class `Workspace.ImageWorkspace`. It has the component's state and refs as fields and one method per event handler or effect.
  - Workspace also holds the pure helpers that pick the active image, read a colour and snap a measurement.
- **Js** (`js.dfy`): the JavaScript built-ins the code relies on. These are `trim`, `toString(16)`, `padStart`, `toUpperCase` on ASCII, `parseInt(_, 16)`, the 32-bit conversion of `>>` and `&`, and `Math.round`.

Three behaviours of the code worth noting:

- **`Math.round`**: it is `Floor(v + 0.5)`, so halves round up, including for negative values.
- **Scale and `scaleRef`**: these are one field. `scaleRef` is copied from `scale` by the effect at `ImageWorkspace.tsx:268-270` after every render that changes it, and the wheel handler writes both.
- **The worker's out-of-buffer reads**:
  - A read outside the buffer yields `undefined`.
  - `undefined === 0` is false, so such a pixel passes the alpha test.
  - `undefined.toString(16)` then throws, and the catch posts an error reply only for a truthy `requestId`.
  - The model includes this error path.

## Model

| member | source | states |
|---|---|---|
| Color.ParseHex | backend/src/services/utils/color.ts:4-16 | succeeds exactly when the trimmed, once-unhashed input is 3 or 6 hex digits (else `InvalidHex`); a success has three channels in 0..255 |
| Color.StripHash | backend/src/services/utils/color.ts:5 | `replace(/^#/, "")`: the input is "#" followed by the result, or is the result itself and does not start with '#' |
| Color.FullDigits | backend/src/services/utils/color.ts:7-13 | the digits read are always six hex digits |
| Color.ParseHexChannels | backend/src/services/utils/color.ts:7-15 | the channels are the values of the three digit pairs of the expanded body |
| Color.ChannelsOfDigits | backend/src/services/utils/color.ts:14-15 | `(num >> 16) & 255`, `(num >> 8) & 255`, `num & 255` of `parseInt(full, 16)` are the three pairs of `full` |
| Color.ShortFormExpands | backend/src/services/utils/color.ts:7-13 | a 3-digit input parses like its doubled 6-digit form, each channel 17 times its digit |
| Color.JoinHex2 | backend/src/services/utils/color.ts:19 | for channels in 0..255, two lower-case digits per channel, high digit first |
| Color.ToHex | backend/src/services/utils/color.ts:18-20 | "#" then two lower-case zero-padded digits per channel; length 7 for three channels |
| Color.ToHexOfBytes | backend/src/services/utils/color.ts:18-20 | the seven characters toHex writes for three channels |
| Color.ParseToHex | backend/src/services/utils/color.ts:4-20 | round trip: parseHex(toHex(rgb)) is rgb for channels in 0..255 |
| Color.ToHexOfParsed | backend/src/services/utils/color.ts:4-20 | toHex(parseHex(s)) is "#" and the six expanded digits of s in lower case |
| Color.CanonicalIsStable | backend/src/services/utils/color.ts:4-20 | canonicalising twice: the canonical form parses to the same colour and writes back to itself |
| Color.Clamp | backend/src/services/utils/color.ts:60-62 | in [min, max] when min <= max; v itself when already inside; max when min > max |
| Js.TrimUnchanged | backend/src/services/utils/color.ts:5 | a string without white space at its ends is its own trim |
| Js.TrimStartFacts | backend/src/services/utils/color.ts:5 | the front of `trim`: what goes is a prefix made only of white space, and what is left starts with a character that is not white space |
| Js.TrimEndFacts | backend/src/services/utils/color.ts:5 | the back of `trim`: what goes is a suffix made only of white space, and what is left ends with a character that is not white space |
| Js.TrimFacts | backend/src/services/utils/color.ts:5 | `trim` (`Js.Trim`) returns a run of the input with only white space before and after it, and the run neither starts nor ends with white space |
| Js.Hex2OfByte | backend/src/services/utils/color.ts:19 | `v.toString(16).padStart(2, "0")` of a byte is its two lower-case digits |
| Js.ToString16Digits | backend/src/services/utils/color.ts:19 | `toString(16)` (`Js.ToString16`) writes lower-case hex digits whose value is the magnitude, after a '-' for a negative number |
| Js.ParseToString16 | backend/src/services/utils/color.ts:14-19 | `parseInt(_, 16)` reads back what `toString(16)` writes, for every integer |
| Js.PadStart2Facts | backend/src/services/utils/color.ts:19 | `padStart(2, "0")` (`Js.PadStart2`) keeps the string at its end and puts '0's in front until it is two long |
| Js.ParseIntHexOfDigits | backend/src/services/utils/color.ts:14 | parseInt(_, 16) of a non-empty digit string reads every digit |
| Js.ParseIntHex | backend/src/services/utils/color.ts:14 | NaN when the first character after the leading white space is neither a hex digit nor a sign; a negative value only after a '-' |
| Js.HexValue6 | backend/src/services/utils/color.ts:14-15 | the value of six digits is the weighted sum of its three pairs |
| Js.ToInt32 | backend/src/services/utils/color.ts:15 | the 32-bit conversion before `>>`: a signed 32-bit value congruent modulo 2^32 |
| Js.ByteOfLow32 | backend/src/services/utils/color.ts:15 | moving a number by a multiple of 2^32, as ToInt32 does, leaves each byte of its low 32 bits in place |
| Js.ShiftAnd255Byte | backend/src/services/utils/color.ts:15 | `(num >> k) & 255` (`Js.ShiftAnd255`) is byte k/8 of the low 32 bits of `num`, and 0 for NaN |
| Js.DoubleEach | backend/src/services/utils/color.ts:9-12 | `split("").map((c) => c + c).join("")`: every character twice, in order |
| Js.UpperAsciiFacts | frontend/src/workers/selectionWorker.ts:15 | `toUpperCase` on ASCII (`Js.ToUpperAscii`) leaves no lower-case letter, keeps the value of every hex digit, and changes nothing when applied again |
| Js.Round | frontend/src/components/ImageWorkspace.tsx:54-57 | `Math.round`: within half of v, halves rounding up |
| Convert.RemoveFirst | frontend/src/lib/convert.js:2 | `replace("#", "")` removes only the first '#', wherever it is, and nothing when there is none |
| Convert.RemoveFirstAbsent | frontend/src/lib/convert.js:2 | an input without '#' is kept whole |
| Convert.RemoveFirstLeading | frontend/src/lib/convert.js:2 | a leading '#' goes and the rest, including any later '#', stays |
| Convert.HexToRgbPairs | frontend/src/lib/convert.js:9-10 | for a six-digit body, the channels that `Convert.HexToRgb` returns are the values of its three pairs |
| Convert.HexToRgbShort | frontend/src/lib/convert.js:3-10 | a three-digit body is doubled: each channel is 17 times its digit |
| Convert.DoubledPairs | frontend/src/lib/convert.js:3-8 | the doubled body is six hex digits whose pairs are 17 times each digit |
| Convert.AgreesWithParseHex | frontend/src/lib/convert.js:1-11 | on an input parseHex accepts, without surrounding white space, hexToRgb reads the same three channels |
| Convert.SurroundingSpaceDiffers | frontend/src/lib/convert.js:1-11 | with white space the parsers part: " abc" is (170, 187, 204) for parseHex and (0, 10, 188) for hexToRgb |
| Convert.ReadsWorkerKeys | frontend/src/lib/convert.js:1-11 | hexToRgb inverts the worker's upper-case toHex for every byte triple |
| Convert.HashedPairs | frontend/src/lib/convert.js:2-10 | "#" and six hex digits read as the three pairs |
| Palette.ListSchemes | backend/src/services/palette.ts:5-7 | five distinct names, exactly those the switch dispatches (by `Palette.Dispatch` and `Palette.GenerateErrors`) |
| Palette.Wrap | backend/src/services/palette.ts:44-49 | the palette carries the name, and entry i is toHex and toHsl of colour i, for every colour and no other |
| Palette.Steps | backend/src/services/palette.ts:27-42 | the colours of a plan are its steps applied to the base, in order |
| Palette.PlanShape | backend/src/services/palette.ts:27-42 | sizes 2, 3, 3, 4, 4; the base is the only unmodified colour, at index 0, 1, 0, 0, 1 |
| Palette.DispatchFollowsPlan | backend/src/services/palette.ts:11-21 | each listed scheme's helper (`Complementary`, `Analogous`, `Triadic`, `Tetradic`, `Monochromatic`, lines 27-42), picked by `Dispatch`, lists exactly its plan's colours |
| Palette.Dispatch | backend/src/services/palette.ts:11-23 | the `switch` picks a palette exactly for the five listed names, and that palette carries the name and the scheme's number of colours |
| Palette.GenerateErrors | backend/src/services/palette.ts:9-25 | `GeneratePalette` fails with `InvalidHex` exactly when parseHex fails, and with `UnknownScheme` exactly when the base is valid and the name is not listed |
| Palette.GeneratePalette | backend/src/services/palette.ts:9-25 | a palette comes only from a valid base and a listed scheme, and carries the requested scheme name |
| Palette.GenerateFollowsPlan | backend/src/services/palette.ts:9-49 | for a valid base and a listed scheme: the requested name, the plan's length, and entry i is toHex/toHsl of step i applied to the parsed base |
| Palette.BaseEntryIsCanonical | backend/src/services/palette.ts:10-49 | the base entry's hex is the lower-case six-digit form of the input |
| Census.ToHex | frontend/src/workers/selectionWorker.ts:14-16 | "#" then six upper-case hex digits whose pairs are r, g and b |
| Census.UpperHexOfBytes | frontend/src/workers/selectionWorker.ts:15 | the seven characters written for three bytes |
| Census.ToHexInjective | frontend/src/workers/selectionWorker.ts:14-16 | distinct colours get distinct keys |
| Census.RowHitsSound | frontend/src/workers/selectionWorker.ts:42-51 | every pixel counted in a row is an opaque pixel of the rectangle, with its colour |
| Census.RowHitsComplete | frontend/src/workers/selectionWorker.ts:42-51 | every opaque pixel of a row's scanned columns is counted |
| Census.RowHitsOrdered | frontend/src/workers/selectionWorker.ts:42-51 | a row's pixels come left to right |
| Census.HitsSound | frontend/src/workers/selectionWorker.ts:40-52 | every counted pixel is an opaque in-rectangle pixel at absolute (sx+xx, sy+yy) |
| Census.HitsComplete | frontend/src/workers/selectionWorker.ts:40-52 | every opaque pixel of the scanned rows is counted; alpha 0 is skipped |
| Census.HitsOrdered | frontend/src/workers/selectionWorker.ts:40-52 | the counted pixels come in row-major order |
| Census.TallyKeys | frontend/src/workers/selectionWorker.ts:49-50 | the keys of the Map that `Census.TallyOf` builds are distinct and are exactly the colours that occur |
| Census.TallyCounts | frontend/src/workers/selectionWorker.ts:50 | each key's count is the number of counted pixels of that colour |
| Census.TallyOrder | frontend/src/workers/selectionWorker.ts:50-53 | Map keys iterate in first-encounter order |
| Census.TallyTotal | frontend/src/workers/selectionWorker.ts:40-53 | the counts sum to the number of counted pixels |
| Census.AddFacts | frontend/src/workers/selectionWorker.ts:50 | `map.set(k, (map.get(k) \|\| 0) + 1)` (`Census.Add`) counts one more k, puts a new key last and leaves every other key and count alone |
| Census.InsertPerm | frontend/src/workers/selectionWorker.ts:54 | inserting adds exactly the one entry |
| Census.InsertSorted | frontend/src/workers/selectionWorker.ts:54 | inserting keeps the descending order |
| Census.InsertTies | frontend/src/workers/selectionWorker.ts:54 | inserting a later-ranked entry keeps equal counts in rank order |
| Census.InsertDistinct | frontend/src/workers/selectionWorker.ts:54 | inserting a new colour keeps the colours distinct |
| Census.SortFacts | frontend/src/workers/selectionWorker.ts:54 | the sort by `b.count - a.count` (`Census.SortByCount`) is descending and a permutation |
| Census.SortStable | frontend/src/workers/selectionWorker.ts:54 | the sort is stable: equal counts keep their earlier order |
| Census.TotalSort | frontend/src/workers/selectionWorker.ts:54 | sorting keeps the total |
| Census.EntriesFacts | frontend/src/workers/selectionWorker.ts:49-53 | the entries of `Array.from(map.entries())` (`Census.Entries`, one per key in key order) are ranked by first encounter, total the pixel count, and list exactly the colours that occur |
| Census.StatsFacts | frontend/src/workers/selectionWorker.ts:39-54 | `colors`: descending counts, unique keys, sum = pixels counted, each count = that colour's pixels, every colour present, ties in first-encounter row-major order |
| Census.Flat | frontend/src/workers/selectionWorker.ts:76 | the flat list holds x then y of each spot, in order |
| Census.OnlyFacts | frontend/src/workers/selectionWorker.ts:75-76 | a colour's spots are exactly the counted pixels of that colour, Count of them |
| Census.OnlyOrdered | frontend/src/workers/selectionWorker.ts:64-78 | a colour's spots keep row-major order |
| Census.IndexFacts | frontend/src/workers/selectionWorker.ts:64-78 | the index that `Census.IndexOf` builds has a key exactly for each colour present, mapped to the flat (x, y) list of its pixels in scan order |
| Census.PushFacts | frontend/src/workers/selectionWorker.ts:75-76 | creating the list when absent and pushing x and y (`Census.Push`) appends exactly those two numbers to that key's list and leaves every other key alone |
| Census.StatsMatchIndex | frontend/src/workers/selectionWorker.ts:39-78 | stats colours are the index keys, and each list has two numbers per counted pixel |
| Census.KeyedOrdered | frontend/src/workers/selectionWorker.ts:40-52 | the selection keyed by toHex (`Census.Keyed`, one key spot per pixel) is row-major |
| Census.KeyedSound | frontend/src/workers/selectionWorker.ts:40-52 | every keyed spot is an opaque pixel inside the rectangle |
| Census.KeyedComplete | frontend/src/workers/selectionWorker.ts:40-52 | every opaque pixel inside the rectangle is keyed |
| Census.TallySnoc | frontend/src/workers/selectionWorker.ts:49-50 | one more pixel adds one to its colour's count, or adds the colour with count 1 |
| Census.IndexSnoc | frontend/src/workers/selectionWorker.ts:75-76 | one more pixel appends its x and y to its colour's list, creating the list when absent |
| Census.RepliesAgree | frontend/src/workers/selectionWorker.ts:33-80 | the stats and buildIndex branches (`Census.StatsReply`, `Census.IndexReply`) fail together; on success the stats colours are the index keys and each list is twice that colour's count |
| Census.InBoundsSucceeds | frontend/src/workers/selectionWorker.ts:39-78 | a rectangle inside the image, over a buffer of 4 bytes per pixel, reads no undefined byte, so both branches succeed |
| Census.FirstIndex | frontend/src/workers/selectionWorker.ts:50 | where a key is first seen: the first matching spot, or none occur |
| SelectionWorker.AnswerEchoes | frontend/src/workers/selectionWorker.ts:33-87 | the answer to a message (`SelectionWorker.Answer`): stats and index replies answer their own kind of request and echo its id; an error reply comes only from a scan that threw; a stats or index request goes unanswered only when the catch block (`SelectionWorker.Caught`) finds its id falsy |
| SelectionWorker.TallyPixel | frontend/src/workers/selectionWorker.ts:43-50 | one pixel: the tally of the pixels so far plus this one if opaque, or a TypeError when its colour byte is undefined |
| SelectionWorker.TallyRow | frontend/src/workers/selectionWorker.ts:41-51 | a row: the tally through that row, or a TypeError only when the rectangle has an unreadable opaque pixel |
| SelectionWorker.IndexPixel | frontend/src/workers/selectionWorker.ts:68-76 | one pixel: the index of the pixels so far plus this one's (sx+xx, sy+yy) if opaque, or a TypeError |
| SelectionWorker.IndexRow | frontend/src/workers/selectionWorker.ts:66-77 | a row: the index through that row, or a TypeError only for an unreadable rectangle |
| SelectionWorker.Worker.constructor | frontend/src/workers/selectionWorker.ts:10-12 | width 0, height 0, no data |
| SelectionWorker.Worker.Init | frontend/src/workers/selectionWorker.ts:22-31 | width, height and data are replaced (data None when absent) |
| SelectionWorker.Worker.Stats | frontend/src/workers/selectionWorker.ts:33-57 | the result is StatsReply: empty with no data, TypeError on an unreadable opaque pixel, else the sorted colours |
| SelectionWorker.Worker.BuildIndex | frontend/src/workers/selectionWorker.ts:58-81 | the result is IndexReply: empty with no data, TypeError on an unreadable opaque pixel, else the index |
| SelectionWorker.Worker.OnMessage | frontend/src/workers/selectionWorker.ts:18-88 | init replaces the state and answers nothing; any other message keeps it and gets its branch's answer, or the catch block's, computed from the state before the call |
| Viewport.AlignToGrid | frontend/src/components/ImageWorkspace.tsx:62 | a whole number of grid steps, within half a step of v |
| Viewport.GridPoint | frontend/src/components/ImageWorkspace.tsx:62 | k steps of the grid, for k within half of v/align, lie within half a step of v |
| Viewport.AlignOnGrid | frontend/src/components/ImageWorkspace.tsx:62 | a grid point is left where it is |
| Viewport.AlignIdempotent | frontend/src/components/ImageWorkspace.tsx:62 | aligning twice is aligning once |
| Viewport.ComputeImageMetrics | frontend/src/components/ImageWorkspace.tsx:43-60 | origin on the 1/dpr grid within half a step of the centred, panned position; extents at least 1 and on the grid unless raised to 1; pixelScale = imgWAligned / width > 0 |
| Viewport.AlignedExtentsNear | frontend/src/components/ImageWorkspace.tsx:56-57 | each aligned extent (imgWAligned, imgHAligned) is within half a grid step of the raw extent unless raised to 1, and always when the raw extent is more than half a step above 1 |
| Viewport.MinScale | frontend/src/components/ImageWorkspace.tsx:64-69 | 1 without a container, else the larger of the two box/image ratios |
| Viewport.MinScaleCovers | frontend/src/components/ImageWorkspace.tsx:64-69 | at the minimum scale the image covers the box on both axes and fits one exactly |
| Viewport.ToImageCoord | frontend/src/components/ImageWorkspace.tsx:277-285 | a point found lies in [0, width) x [0, height) |
| Viewport.ScreenThenImage | frontend/src/components/ImageWorkspace.tsx:277-285 | every image point in range is found again under its toScreen position (`Viewport.ToScreen`, line 162) |
| Viewport.ImageThenScreen | frontend/src/components/ImageWorkspace.tsx:277-285 | a client position over the image is the toScreen (line 162) position of the point found |
| Viewport.ToImageCoordNull | frontend/src/components/ImageWorkspace.tsx:277-285 | null exactly when no point of [0, width) x [0, height) is drawn, by toScreen, at the client position |
| Viewport.ClampAxis | frontend/src/components/ImageWorkspace.tsx:324-338 | the result is in bounds: top-left in [box - img, 0] when img >= box, pan 0 (centred) when smaller |
| Viewport.ClampAxisFixes | frontend/src/components/ImageWorkspace.tsx:324-338 | clamping leaves a pan unchanged exactly when it is already in bounds |
| Viewport.ClampAxisIdempotent | frontend/src/components/ImageWorkspace.tsx:319-347 | clamping twice is clamping once |
| Viewport.ClampAxisNearest | frontend/src/components/ImageWorkspace.tsx:328-334 | a pan with a gap moves just far enough to put the edge at the border |
| Viewport.ClampViewFor | frontend/src/components/ImageWorkspace.tsx:319-347 | both axes in bounds afterwards, and the candidate is returned unchanged exactly when it was in bounds |
| Viewport.ZoomFactor | frontend/src/components/ImageWorkspace.tsx:359-360 | below 1 for deltaY > 0, above 1 otherwise |
| Viewport.WheelScale | frontend/src/components/ImageWorkspace.tsx:359-365 | at most 200; at least minScale when minScale <= 200; base times the factor when that is within both; minScale when the product is below it, and 200 when the product or minScale reaches 200 |
| Viewport.WheelDirection | frontend/src/components/ImageWorkspace.tsx:359-365 | with a positive base, deltaY > 0 lowers the scale (unless minScale blocks it) and deltaY <= 0 raises it below 200 |
| Viewport.AnchorScale | frontend/src/components/ImageWorkspace.tsx:375-378 | pixelScale_after is positive |
| Viewport.AnchorEquation | frontend/src/components/ImageWorkspace.tsx:375-385 | the desired pan (`Viewport.AnchoredPan`) satisfies cx_center_after + desiredView + pos * pixelScale_after = client - rect origin, on each axis |
| Viewport.AnchorKeepsPoint | frontend/src/components/ImageWorkspace.tsx:366-385 | at the new scale and the anchored pan, pos is drawn within half a device pixel of the pointer on both axes, at the same pixel scale |
| Viewport.MetricsScale | frontend/src/components/ImageWorkspace.tsx:375-378 | the pixel scale of the next draw at the new scale is the wheel's pixelScale_after |
| Viewport.AlignedOriginNear | frontend/src/components/ImageWorkspace.tsx:390-393 | with the pan aligned to the grid, the drawn origin is within one device pixel of the centred position plus the unaligned pan, on each axis |
| Viewport.AlignedPanDraws | frontend/src/components/ImageWorkspace.tsx:375-393 | any pan that puts an image point at a target at pixelScale_after, once aligned to the grid, draws that point within one device pixel of the target, at that pixel scale |
| Viewport.AlignedAnchorKeepsPoint | frontend/src/components/ImageWorkspace.tsx:375-393 | with the anchored pan aligned to the grid, pos is drawn within one device pixel of the pointer on both axes |
| Viewport.WheelKeepsPoint | frontend/src/components/ImageWorkspace.tsx:359-393 | when the anchored pan needs no clamping, the pan the handler commits (clamped, then aligned) draws pos within one device pixel of the pointer on both axes |
| Workspace.Find | frontend/src/components/ImageWorkspace.tsx:41 | the first image with the active id, found exactly when one is listed |
| Workspace.Without | frontend/src/components/ImageWorkspace.tsx:563-566 | exactly the images whose id differs; the first one kept is the first image, in list order, whose id differs |
| Workspace.WithoutConcat | frontend/src/components/ImageWorkspace.tsx:563-566 | the filter of a concatenation is the concatenation of the filters |
| Workspace.WithoutOne | frontend/src/components/ImageWorkspace.tsx:564 | a single image is kept exactly when its id differs |
| Workspace.RemoveKeepsActive | frontend/src/components/ImageWorkspace.tsx:562-573 | the next active id (`Workspace.NextActive`) is listed and is not the removed id; it is unchanged unless the active image was removed; it is then null exactly when every image had the removed id, and otherwise the id of the first image whose id differs |
| Workspace.LoadKeepsActive | frontend/src/components/ImageWorkspace.tsx:88-93 | the id activated after loading (`Workspace.ActiveAfterLoad`): an active id is kept, else the first new image is activated and is found |
| Workspace.FloorPoint | frontend/src/components/ImageWorkspace.tsx:504-505 | `Math.floor` of each coordinate, as at the measure start (line 472) and move |
| Workspace.FloorInside | frontend/src/components/ImageWorkspace.tsx:504-505 | the floored point of an in-image position is a pixel of the image |
| Census.PixelOffsetInside | frontend/src/components/ImageWorkspace.tsx:551 | an in-image pixel's four bytes lie in the RGBA buffer |
| Workspace.PickColor | frontend/src/components/ImageWorkspace.tsx:543-555 | "#" then six upper-case digits whose pairs are the red, green and blue of the floored pixel, whatever its alpha |
| Workspace.PickedColorReadsBack | frontend/src/components/ImageWorkspace.tsx:551-553 | hexToRgb of the picked colour is the pixel's colour |
| Workspace.DistanceSquared | frontend/src/components/ImageWorkspace.tsx:523-525 | the squared distance is non-negative |
| Workspace.SnapLocksAxis | frontend/src/components/ImageWorkspace.tsx:504-525 | `Workspace.SnapEnd` with Shift: a snapped segment runs along its named axis (h when abs(dx) >= abs(dy), else v) and its squared length is the larger move squared |
| Workspace.ImageWorkspace.ActiveImage | frontend/src/components/ImageWorkspace.tsx:41 | the active image, when there is one, is well formed |
| Workspace.ImageWorkspace.ImageCoordAt | frontend/src/components/ImageWorkspace.tsx:277-285 | a point found belongs to an active image and lies inside it |
| Workspace.ImageWorkspace.constructor | frontend/src/components/ImageWorkspace.tsx:18-38 | the initial state: no images, scale 1, min scale 1, view at rest, colour "无", empty measurement, no snapping |
| Workspace.ImageWorkspace.AddImages | frontend/src/components/ImageWorkspace.tsx:88-93 | the images are appended, and the first becomes active when none was |
| Workspace.ImageWorkspace.RemoveImage | frontend/src/components/ImageWorkspace.tsx:562-573 | the filtered list and the next active id; the active id stays listed |
| Workspace.ImageWorkspace.Activate | frontend/src/components/ImageWorkspace.tsx:125-132 | minScale is the cover fit, the scale is raised to it but never lowered, and the pan is reset to (0, 0) |
| Workspace.ImageWorkspace.ClampView | frontend/src/components/ImageWorkspace.tsx:287-316 | the pan becomes clampViewFor at the current scale; nothing happens without an active image |
| Workspace.ImageWorkspace.Wheel | frontend/src/components/ImageWorkspace.tsx:349-404 | the scale is WheelScale (at most 200, at least minScale when minScale <= 200); off the image the pan is untouched; over it the pan is the anchored pan clamped then aligned to the grid |
| Workspace.ImageWorkspace.PointerDown | frontend/src/components/ImageWorkspace.tsx:457-477 | Shift is tracked; Space starts a drag; the picker stores the picked colour; measure sets start to the floored point, resets end and distance, and sets snapping from Shift |
| Workspace.ImageWorkspace.Drag | frontend/src/components/ImageWorkspace.tsx:481-497 | last pointer updated; pan is the old pan plus the delta, aligned, then clamped |
| Workspace.ImageWorkspace.MeasureMove | frontend/src/components/ImageWorkspace.tsx:500-530 | with a start and an in-image pointer: the snapped end, its snapping and squared distance; otherwise nothing changes |
| Workspace.ImageWorkspace.PointerMove | frontend/src/components/ImageWorkspace.tsx:478-531 | a drag sets the last pointer and makes the pan the old pan plus the delta, aligned then clamped, so in bounds, and leaves the measurement alone; otherwise the pan is untouched and a measurement with a start and an in-image pointer gets the snapped end, its snapping and its squared distance, or nothing changes |
| Workspace.ImageWorkspace.PointerUp | frontend/src/components/ImageWorkspace.tsx:532-541 | a drag ends with a clamp; Shift and snapping are cleared |

## Left out

- The HSL and luminance arithmetic is left out as floating point: `toHsl`, `hslToRgb`, `rotateHue`, `lightenDarken`, `relativeLuminance`, `hexToHsl`. Palette takes the three functions it needs as parameters.
- Measured distance: `Math.sqrt` and its display are left out. The model keeps the squared distance, so `Workspace.Measurement.distanceSquared` stands for `distance`.
- Canvas drawing is left out: `draw`, the grid, `drawImage` and `getImageData`. An image's pixels are an RGBA byte sequence, and `pickColorAt` reads it directly.
- `getBoundingClientRect` and `devicePixelRatio` become parameters. The canvas and its container share one box, because the resize code sizes the canvas to its parent. A ratio of 0 is not modelled (`|| 1`), since the ratio is required to be positive.
- File loading (`FileReader`/`Image`, Promises, object URLs, drag and drop) is left out, and a failed load is not modelled. `AddImages` models only what the `then` does with decoded images. Ids are taken as given, so `crypto.randomUUID` is not modelled.
- Keyboard listeners and `forceKeyState` are left out. Whether Space is pressed and which tool is active are handler parameters.
- Timers are left out: the interaction timeout, `requestAnimationFrame` and the frame callback. The frame's `clampView` is `ClampView`, which a caller runs after `Wheel`.
- The status line (`setStatus`) and debug logging are left out, as display only.
- The thumbnail click `setActiveId(img.id)` is left out as UI. `Activate` runs the effect for whichever image is active.
- React rendering is left out. A handler sees the state the previous handler and effect left, and stale closures between a state update and the next render are not modelled.
- Workspace.ImageWorkspace.Wheel: `scaleRef.current || scale` is read as the one scale field, so a zero `scaleRef` falling back to `scale` is not distinguished.
- Workspace.ImageWorkspace.PointerMove: in the picker branch only the status text changes, so the model changes nothing there.
- Image ids are not required to be unique. `Find` returns the first match, as `find` does.
- An activeId of `""` is not modelled: it would be falsy in `!activeId`, and ids are non-empty UUIDs.
- `pickColorAt` does not skip transparent pixels, and neither does the model.
- The worker's `postMessage` transport is left out. Replies are return values, and the error reply's `message` text (`String(err)`) is not kept.
- Message fields are taken to be integers. A fractional or non-numeric `sx`, `sy`, `w`, `h`, `width` or `requestId` is not modelled.
- `requestId` truthiness: 0 and a missing id fail; other falsy JavaScript values such as `""` are not modelled.
- `new Uint8ClampedArray(msg.data)` is read as the byte sequence it wraps. Conversion of non-buffer data is not modelled.
- The worker's `Map` is a key list plus a count map, so insertion order is explicit. The plain object index is a Dafny `map`, whose key order is not modelled; no key of the form `"#XXXXXX"` is an array index, so the object's order would be insertion order.
- `arr.sort` is modelled as a stable insertion sort by descending count, which is what the ECMAScript specification requires of the comparator `b.count - a.count`.
- The worker's loop body is split out: the inner loop is `TallyRow`/`IndexRow` and one pixel is `TallyPixel`/`IndexPixel`. Their results are the same as a single loop's.
- JavaScript strings are sequences of UTF-16 units taken one per `char`. `toUpperCase` and `toLowerCase` are modelled on ASCII, which is all the serialisers produce.
- Convert.HexToRgb: `parseInt` is modelled as an exact integer, and double rounding above 2^53 is not. For `hexToRgb("#ffffffffffffff")` JavaScript gives (0, 0, 0) where the model gives (255, 255, 255). No input that parseHex accepts reaches 2^53.
- Palette.ListSchemes: the `{ schemes: [...] }` object that `listSchemes` wraps the names in is left out. The function returns the list itself.
- Other components, the Express server, the palette store, toasts and contrast checking are outside this model.
