# A verified model of the OBJ loader and the extent reducer of GL/a.js

GL/a.js is a small WebGL viewer. It holds two pieces of self-contained logic, and this project models both in Dafny and proves properties about them.

- **`parseOBJ(text)`** is a line-oriented reader for a subset of the Wavefront OBJ format.
  - Four attribute pools hold positions, texture coordinates, normals and colours. Each pool is seeded with one dummy entry and is only ever appended to.
  - Faces are fan-triangulated around their first reference.
  - Each `/`-separated component of a reference resolves to a pool entry. A negative index counts back from the end of the pool.
  - The resolved entries are copied into the working buffers of the geometry that is open.
  - Geometries are opened lazily by `f`. They are closed by `g`, `o` and `usemtl`, but only once they hold positions.
  - At the end, every empty buffer is dropped.
- **`getExtents` and `getGeometriesExtents`** compute the bounding box that the viewer uses to place its camera.
  - `getExtents` is a stride-3 min/max scan over one position array.
  - `getGeometriesExtents` folds the per-geometry boxes into a scene box, starting from +∞ for every minimum and -∞ for every maximum.

The project is made of these files:

- `js_number.dfy` (module `JsNumber`) covers JavaScript numbers as the code sees them: NaN, the two infinities and exact finite values. It also has `Math.min`/`Math.max`, which propagate NaN.
- `js_text.dfy` (module `JsText`) covers the string built-ins the parser calls:
  - `String.prototype.split` on one character, and on `/\s+/`;
  - `trim`, with the ECMAScript white-space and line-terminator sets;
  - the keyword regular expression `/(\w*)(?: )*(.*)/`;
  - `parseInt`: leading white space, a sign, a `0x` prefix, the longest digit prefix, and NaN when there are no digits.
- `obj_model.dfy` (module `ObjModel`) holds the parser's state as a value, `State`. Every nested helper and keyword handler is a function from one state to the next, and the whole parse is `ParseObj`. A JavaScript exception becomes `None`, or `Err(line)` at the top level.
- `obj_properties.dfy` (module `ObjProperties`) holds the properties of that model:
  - the triangle fan;
  - index resolution, negative indices included;
  - buffer growth and colour copying;
  - pool growth;
  - the two-state geometry lifecycle;
  - lines without effect;
  - the clean-up.
- `obj_parser.dfy` (module `ObjParser`) is `parseOBJ` as the source runs it:
  - A `Parser` class has the function's locals as fields.
  - Its methods update those fields in place.
  - The loops over lines, triangles and `/`-components are `while` loops.
  - Every method is proved to move the object exactly as the matching `ObjModel` function says.
- `extents.dfy` (module `Extents`) covers the extents:
  - `GetExtents` keeps the source's nested loops over two arrays.
  - `GeometriesExtents` is the `reduce`.
  - Lemmas give the bounds, attainment, the NaN cases and the equivalence with one scan over all positions together.
- `wrappers.dfy` (module `Wrappers`) holds `Option` and `Result`.

Where a description of the format and the code differ, the model follows the code:

- The keyword is what `/(\w*)(?: )*(.*)/` captures. That is the longest run of word characters, so it is empty for a line such as `-1 2`. It is not the first whitespace-delimited token.
- `unparsedArgs` is the rest of the line after the literal spaces that follow the keyword, up to the first line terminator.

## Model

| member | source | states |
|---|---|---|
| JsNumber.JsMin | GL/a.js:296 | `Math.min` is NaN exactly when an operand is NaN; otherwise it is one of the operands and at most both |
| JsNumber.JsMax | GL/a.js:297 | `Math.max` is NaN exactly when an operand is NaN; otherwise it is one of the operands and at least both |
| JsText.Split | GL/a.js:67 | `split` on one character yields at least one piece, and no piece contains the separator |
| JsText.JoinSplit | GL/a.js:130 | joining the pieces of `split` with the separator gives back the text, so no character of the input is lost |
| JsText.SplitJoin | GL/a.js:67 | splitting a join of separator-free pieces gives back exactly those pieces |
| JsText.SplitPrefix | GL/a.js:67 | a separator-free prefix merges into the first piece of the split of the rest |
| JsText.LeadingSpace | GL/a.js:132 | the length of the leading white space: every character before it is white space and the next is not |
| JsText.TrimmedLength | GL/a.js:132 | the length without trailing white space: everything after it is white space and the last kept character is not |
| JsText.Trim | GL/a.js:132 | `trim` returns a contiguous inner part of the line, with only white space cut on each side, and neither end of it is white space |
| JsText.SplitWs | GL/a.js:141 | `split(/\s+/)` yields at least one piece, and no piece contains white space |
| JsText.SplitWsKeepsText | GL/a.js:141 | the pieces of `split(/\s+/)`, concatenated, are the line with its white space removed |
| JsText.SplitWsEmptyPieces | GL/a.js:141 | an empty first or last piece comes only from leading or trailing white space; no inner piece is empty |
| JsText.SplitWsPrefix | GL/a.js:141 | white-space-free text in front of a string runs on into the first piece of that string's split |
| JsText.SplitWsJoin | GL/a.js:141 | `split(/\s+/)` of non-empty white-space-free tokens joined by single spaces gives back exactly those tokens, so the pieces are the runs between white space |
| JsText.TokensOfTrimmedLine | GL/a.js:132-141 | on a trimmed non-empty line every piece of `split(/\s+/)` is a non-empty token, so `parts` holds no empty string |
| JsText.WordLength | GL/a.js:129 | the keyword `(\w*)` is the longest run of word characters at the start of the line |
| JsText.Keyword | GL/a.js:129-140 | `keyword` is a prefix of the line made only of word characters, and the character after it, if any, is not one |
| JsText.SpaceRun | GL/a.js:129 | `(?: )*` consumes exactly the literal spaces after the keyword |
| JsText.LineLength | GL/a.js:129 | `(.*)` stops at the first line terminator |
| JsText.UnparsedArgs | GL/a.js:129-140 | `unparsedArgs` starts after the keyword and every space that follows it, holds no line terminator, and runs up to the first line terminator or the end of the line |
| JsText.ArgsStart | GL/a.js:129 | the third group starts no earlier than the end of the keyword and no later than the end of the line |
| JsText.ArgsAtUnique | GL/a.js:129-140 | any capture that meets the description of the third group is `UnparsedArgs`, at the same position: the description determines the capture |
| JsText.SpaceRunExact | GL/a.js:129 | a run of spaces followed by a non-space or by the end is exactly what `(?: )*` consumes |
| JsText.LineLengthExact | GL/a.js:129 | characters up to a line terminator or the end are exactly what `(.*)` consumes |
| JsText.DigitCount | GL/a.js:72 | `parseInt` reads the longest prefix of digits valid in the radix |
| JsText.ParseMagnitude | GL/a.js:72 | an unsigned numeral reads a number only when it starts with a digit, and always when it starts with 1-9, or with 0 not followed by `x`/`X` |
| JsText.ParseSigned | GL/a.js:72 | a number is read only when the text starts with a digit, or with a sign followed by a digit; a negative result needs a leading `-`, and after a `-` the result is never positive |
| JsText.ParseInt | GL/a.js:72 | `parseInt` reads a number only when its first non-white-space character is a digit, or a sign followed by a digit |
| JsText.Decimal | GL/a.js:72 | the decimal numeral of a natural number: only digits, at least one, and no leading zero |
| JsText.DecimalValue | GL/a.js:72 | the digits of `Decimal(n)` denote `n` |
| JsText.UnsignedNumeral | GL/a.js:72 | `parseInt` of an unsigned numeral is its magnitude |
| JsText.NegatedNumeral | GL/a.js:72 | `parseInt` of `-` followed by a numeral is the negated magnitude |
| JsText.ParseIntDecimal | GL/a.js:72 | `parseInt` reads back `n` from its decimal numeral and `-n` from `-` and that numeral |
| ObjModel.EmptyData | GL/a.js:46-60 | a new geometry's data has the four buffers position, texcoord, normal and color, in that order, all empty |
| ObjModel.Init | GL/a.js:10-32 | the parse starts well formed, with no geometry open, no geometries, no material libraries, and one dummy entry in each pool: three zeros for positions, normals and colours, two for texture coordinates |
| ObjModel.NewGeometry | GL/a.js:36-42 | `newGeometry` changes only whether a geometry is open; it closes the open one exactly when that one holds positions |
| ObjModel.SetGeometry | GL/a.js:44-64 | `setGeometry` does nothing when a geometry is open; otherwise it appends a geometry with the current object, groups and material and empty buffers, and opens it |
| ObjModel.Append | GL/a.js:74 | `webglVertexData[i].push(...vals)` extends buffer `i` of the open geometry by exactly `vals`; every other buffer, geometry, pool and field is unchanged |
| ObjModel.ResolveIndex | GL/a.js:73 | a non-negative index is kept; a negative index `-k` counts back `k` entries from the end of the pool, landing inside the pool exactly when `k` is at most its length |
| ObjModel.AddEntry | GL/a.js:73-79 | when adding the entry at a resolved index does not throw, only the open geometry's buffers change, and each of them only grows |
| ObjModel.AddComponent | GL/a.js:68-80 | when one component does not throw, only the open geometry's buffers change, and each of them only grows (the exact growth is `ComponentEffect`) |
| ObjModel.AddVertex | GL/a.js:66-81 | `addVertex` only appends to the open geometry's buffers, or it throws |
| ObjModel.AddVertices | GL/a.js:103-107 | a sequence of `addVertex` calls only appends to the open geometry's buffers, or it throws at the first failing call |
| ObjModel.FanFrom | GL/a.js:103-107 | the triangle loop emits whole triangles, each starting with `parts[0]` |
| ObjModel.Fan | GL/a.js:102-107 | a face emits whole triangles, each starting with its first reference, and none when it has fewer than three references |
| ObjModel.Face | GL/a.js:100-108 | the `f` handler leaves a geometry open, or it throws |
| ObjModel.ParseFloats | GL/a.js:87-98 | `parts.map(parseFloat)` has one number per token, the `parseFloat` of that token, in order |
| ObjModel.Vertex | GL/a.js:84-92 | the `v` handler appends the first three numbers as a position and, when there are more than three, the rest as a colour; nothing else changes |
| ObjModel.DirectiveOfKeys | GL/a.js:83-143 | a keyword reaches a handler exactly when it is a key of `keywords`, and then the one stored under it; it reaches a throwing inherited member exactly when it names one |
| ObjModel.LineParts | GL/a.js:141 | `parts` holds no white space, and no empty token when the line is trimmed and non-empty |
| ObjModel.Dispatch | GL/a.js:83-127 | every keyword handler keeps the state well formed |
| ObjModel.StepLine | GL/a.js:131-147 | one line of the loop keeps the state well formed |
| ObjModel.GrowsEvolves | GL/a.js:74 | appending to the open geometry never touches a closed one or shrinks a pool |
| ObjModel.FaceEvolves | GL/a.js:100-108 | a face only moves the state forward: pools and libraries are kept, and closed geometries stay closed and unchanged |
| ObjModel.NewGeometryEvolves | GL/a.js:36-42 | closing a geometry only moves the state forward |
| ObjModel.DispatchEvolves | GL/a.js:83-127 | every handler only moves the state forward |
| ObjModel.StepEvolves | GL/a.js:131-147 | every line only moves the state forward |
| ObjModel.EvolvesTransitive | GL/a.js:131-148 | moving forward composes across lines |
| ObjModel.ParseLinesFrom | GL/a.js:131-148 | the loop over lines either reaches a well-formed state that evolved from the start, or stops at the first line whose handler throws |
| ObjModel.NonEmpty | GL/a.js:152-154 | the filter keeps exactly the non-empty arrays: everything it returns is a non-empty array of the input, and every non-empty array of the input is returned |
| ObjModel.RemoveEmptyArrays | GL/a.js:151-155 | the clean-up keeps every geometry in place with its object, groups and material; afterwards its data holds exactly the non-empty arrays it held before |
| ObjModel.ParseObj | GL/a.js:9-161 | `parseOBJ` either throws at one of the lines of the text, or returns geometries none of whose data holds an empty array |
| ObjProperties.FanFromShape | GL/a.js:103-107 | rounds `tri` up to `count` emit three references each, triangle `u` being `parts[0]`, `parts[u+1]`, `parts[u+2]` |
| ObjProperties.FanShape | GL/a.js:102-107 | a face with N references emits 3·(N-2) references, triangle t in order `parts[0]`, `parts[t+1]`, `parts[t+2]`; with N < 3 it emits none |
| ObjProperties.DegenerateFace | GL/a.js:100-107 | a face with fewer than three references emits nothing but still opens a geometry |
| ObjProperties.Gathered | GL/a.js:74 | position-only references select three coordinates each |
| ObjProperties.SplitWithoutSeparator | GL/a.js:67 | a reference without `/` splits into itself |
| ObjProperties.SingleComponentVertex | GL/a.js:66-81 | a reference without `/` is one position component |
| ObjProperties.AppendTwice | GL/a.js:74 | two pushes into one buffer are one push of both |
| ObjProperties.AppendNothing | GL/a.js:74 | pushing nothing changes nothing |
| ObjProperties.AddVertexPositionOnly | GL/a.js:66-81 | without colours, a position-only reference appends exactly the three coordinates it selects |
| ObjProperties.AddVerticesPositionOnly | GL/a.js:103-107 | without colours, position-only references append exactly their coordinates, one reference after the other |
| ObjProperties.FacePositions | GL/a.js:100-107 | without colours, a face of position-only references appends the positions of its fan, 9·(N-2) numbers, to the geometry that `setGeometry` leaves open |
| ObjProperties.FanElement | GL/a.js:103-107 | the fan references only the face's own references |
| ObjProperties.NoSlashInNumeral | GL/a.js:67 | a decimal numeral, signed or not, contains no `/` |
| ObjProperties.NegativeReference | GL/a.js:73 | the reference `-k` adds the same as the reference `len - k`, where `len` is the position pool's length at lookup |
| ObjProperties.NegativeComponent | GL/a.js:73 | components that parse to `-k` and to `len - k` add the same entry |
| ObjProperties.ComponentEffect | GL/a.js:69-79 | a non-empty component throws when it is not a number, when its index is outside the pool, or, for positions with colours, when the colour entry is missing. Otherwise buffer `i` grows by exactly the pool entry at the resolved index. The colour buffer grows by the colour at that index exactly when colours were read. Nothing else changes |
| ObjProperties.FifthComponentThrows | GL/a.js:73-74 | a fifth component throws exactly when it is non-empty |
| ObjProperties.StepDispatch | GL/a.js:131-147 | a line that is neither blank nor a comment goes to its keyword's handler with the keyword, parts and `unparsedArgs` of the trimmed line |
| ObjProperties.LinesWithoutEffect | GL/a.js:109-146 | blank lines, comments, `s` and unhandled keywords change nothing |
| ObjProperties.InheritedKeyThrows | GL/a.js:142-147 | a keyword naming a throwing member of `Object.prototype` makes its line throw |
| ObjProperties.InheritedLineThrows | GL/a.js:142-147 | a line whose keyword reaches a throwing inherited member throws |
| ObjProperties.MtllibVerbatim | GL/a.js:110-114 | `mtllib` appends the unsplit remainder of the line to the material libraries and changes nothing else |
| ObjProperties.DispatchPoolGrowth | GL/a.js:84-99 | `v` appends one position and, beyond three numbers, one colour; `vt` appends one texture coordinate and `vn` one normal; these three change nothing but the pools; `s` and unhandled keywords change nothing; no other handler touches the pools |
| ObjProperties.PoolGrowth | GL/a.js:84-147 | the same holds for every line: at most one entry per pool, exactly as its keyword says |
| ObjProperties.DummyEntriesKept | GL/a.js:10-14 | every pool keeps its dummy entry at index 0 for the whole parse |
| ObjProperties.SwitchEffect | GL/a.js:115-126 | `usemtl` stores `unparsedArgs` as the material, `o` stores it as the object name, `g` stores `parts` as the groups; nothing else changes except that the open geometry is closed exactly when it holds positions |
| ObjProperties.FaceTarget | GL/a.js:44-107 | a face goes into the open geometry, or into a fresh one appended with the current object, groups and material; earlier geometries are unchanged |
| ObjProperties.SwitchStartsNewGeometry | GL/a.js:36-126 | after `usemtl`, `g` or `o` closes a geometry with positions, the next face goes into a freshly appended geometry whose material, object name or groups are the ones that line gave, the other two as before; the closed geometries are untouched |
| ObjProperties.EmptyGeometryStaysOpen | GL/a.js:36-126 | a geometry without positions is not closed, and the next face goes into it with its original object, groups and material |
| ObjProperties.NonEmptyConcat | GL/a.js:152-154 | the filter keeps the non-empty arrays in their order |
| ObjProperties.ParsedGeometries | GL/a.js:150-160 | after parsing, no geometry's data holds an empty array, every non-empty buffer is kept, and the geometries keep their number, order, object, groups and material |
| ObjParser.Parser.constructor | GL/a.js:10-32 | the locals start as the initial state, every pool holding its dummy entry |
| ObjParser.Parser.NewGeometry | GL/a.js:36-42 | the method moves the parser exactly as `newGeometry` does |
| ObjParser.Parser.SetGeometry | GL/a.js:44-64 | the method moves the parser exactly as `setGeometry` does |
| ObjParser.Parser.Push | GL/a.js:74-78 | pushing into the open geometry's buffer `i` extends it by exactly `vals` |
| ObjParser.Parser.AddEntry | GL/a.js:73-79 | the buffer and colour pushes for one resolved index; it fails exactly when the source throws |
| ObjParser.Parser.AddComponent | GL/a.js:68-80 | the `forEach` callback on component `i`; it fails exactly when the source throws |
| ObjParser.Parser.AddVertex | GL/a.js:66-81 | the `forEach` loop over the components; it fails exactly when the source throws |
| ObjParser.Parser.V | GL/a.js:84-92 | the `v` handler appends exactly the parsed position and the optional colour |
| ObjParser.Parser.AddTriangle | GL/a.js:104-106 | the three `addVertex` calls of one triangle consume the first three references of the remaining fan |
| ObjParser.Parser.F | GL/a.js:100-108 | the triangle loop of `f` does exactly what `Face` says; it fails exactly when the source throws |
| ObjParser.Parser.HandleLine | GL/a.js:132-147 | one iteration of the line loop does exactly what `StepLine` says |
| ObjParser.Parser.Handle | GL/a.js:83-147 | handler dispatch on the keyword does exactly what `Dispatch` says, an inherited throwing key included |
| ObjParser.Parser.RemoveEmptyArrays | GL/a.js:150-155 | the clean-up loop replaces each geometry's data by its filtered data and changes nothing else |
| ObjParser.ParseObj | GL/a.js:9-161 | the imperative parser returns exactly what the model `ObjModel.ParseObj` returns, `Err(line)` included |
| Extents.GetExtents | GL/a.js:290-301 | the nested loops return the scan that `Extents` defines |
| Extents.UpdateBounds | GL/a.js:294-298 | the inner loop folds one vertex into all three bounds |
| Extents.Rounds | GL/a.js:293 | the outer loop runs once per vertex after the first: its last round starts inside the array, and no vertex starts after it |
| Extents.ScanFirst | GL/a.js:291-298 | the scan starts from the first vertex: NaN there stays NaN, and a bound that is not NaN is at most (minimum) or at least (maximum) that first coordinate |
| Extents.Extents | GL/a.js:290-301 | `getExtents` returns up to three bounds per side, one per axis present; NaN in the first vertex makes that axis NaN, and every bound that is not NaN is at most (minimum) or at least (maximum) the first vertex's coordinate |
| Extents.ShortPositions | GL/a.js:291-292 | up to three numbers come back as both bounds, unchanged |
| Extents.ScanBounds | GL/a.js:293-299 | after `v` rounds over NaN-free whole vertices, the running minimum is at most, and the running maximum at least, coordinate `j` of every vertex scanned, and each equals one of them |
| Extents.ExtentsBounds | GL/a.js:290-301 | for a non-empty NaN-free stride-3 array, `min[j] ≤ positions[3k+j] ≤ max[j]` for every vertex k, and each bound is attained |
| Extents.PartialVertex | GL/a.js:293-297 | a trailing partial vertex reads `undefined`, so the bounds of its missing axes are NaN |
| Extents.PositionDataFound | GL/a.js:306 | `data.position` exists exactly when the data has an array named position, and it is that array |
| Extents.CleanedPositions | GL/a.js:151-155 | after the clean-up, a geometry has `data.position` exactly when its position buffer is non-empty, and the two are equal |
| Extents.EmptyScene | GL/a.js:312-315 | with no geometries the result is the seed box: min > max on every axis |
| Extents.Combine | GL/a.js:307-310 | one `reduce` step keeps the shape of the accumulator; a bound is NaN exactly when one of its two inputs is; otherwise the minimum is at most both inputs and the maximum at least both |
| Extents.ReduceExtents | GL/a.js:304-316 | the `reduce` keeps the shape of its seed and returns the seed for no geometries |
| Extents.GeometriesExtents | GL/a.js:303-317 | `getGeometriesExtents` returns three bounds per side when it does not throw |
| Extents.ReduceThrows | GL/a.js:304-306 | the reduce throws exactly when some geometry has no position array |
| Extents.CombineStep | GL/a.js:307-310 | one reduce step lowers each minimum to the smaller of the two, raises each maximum to the larger, and keeps both bounds non-NaN |
| Extents.ReduceBounds | GL/a.js:304-316 | folding over NaN-free geometries keeps every vertex of every geometry inside the bounds, and each bound is the seed or some vertex's coordinate |
| Extents.SceneBounds | GL/a.js:303-317 | for a non-empty scene of NaN-free whole vertices, the scene box contains every vertex of every geometry, and each bound is attained by some vertex |
| Extents.SceneAxis | GL/a.js:303-317 | the same, for one axis |
| Extents.SceneBoundsCons | GL/a.js:304-311 | a bound for the scene is a bound for the first geometry and for the rest |
| Extents.SceneAttainsCons | GL/a.js:304-311 | a coordinate attained in the scene is attained in the first geometry or in the rest |
| Extents.BoundsAppend | GL/a.js:293-298 | the bounds of two concatenated vertex arrays are the bounds of each |
| Extents.AttainsAppend | GL/a.js:293-298 | a coordinate attained in a concatenation is attained in one of the two parts |
| Extents.AllPositionsShape | GL/a.js:306 | the positions of all geometries together form whole NaN-free vertices |
| Extents.AllPositionsBounds | GL/a.js:306 | bounds and attained values of all positions together are those of the scene |
| Extents.AttainedBoundUnique | GL/a.js:296-297 | an attained lower bound, or an attained upper bound, is unique |
| Extents.InfinityAttained | GL/a.js:312-315 | when +∞ bounds an axis from below, some vertex has +∞ there, and likewise for -∞ from above, so the seed values are never reported unless attained |
| Extents.SceneIsExtentsOfAll | GL/a.js:290-317 | folding the per-geometry boxes from (+∞, -∞) equals `getExtents` over the positions of all geometries together |
| Extents.AxisAgrees | GL/a.js:303-317 | the same, for one axis |

## Left out

- `parseFloat` is a parameter of the model, a function from a token to a number. Its parsing rules are not modelled.
- Numbers are exact: rounding, `-0` and the integer-overflow behaviour of `parseInt` on huge numerals are not modelled.
- Strings are sequences of code points. JavaScript's UTF-16 code units are not modelled, so a white-space check on a lone surrogate is out of scope.
- Keywords that are keys inherited from `Object.prototype` are modelled by what happens when their value is called as `handler(parts, unparsedArgs)` in strict code, without a receiver:
  - `toString` and `constructor` return without effect, so they are modelled like an unhandled keyword;
  - `hasOwnProperty`, `isPrototypeOf`, `propertyIsEnumerable`, `toLocaleString`, `valueOf` and the four `__define…__`/`__lookup…__` accessors throw on the missing receiver, and `__proto__` is not a function, so the model throws on all ten (the `Inherited` directive).
- `console.warn` for an unhandled keyword (GL/a.js:144) is not modelled; such a line changes no state.
- When a handler throws, the model returns `None`/`Err(line)`. It says nothing about the partial changes made before the exception, because `parseOBJ` then never returns.
- The arrays that `webglVertexData` and `geometry.data` share are modelled as one copy: the buffers of the last geometry in the list. There is no separate alias.
- `keywordRE.exec` always matches, since every part of the expression may match empty, so the `if (!m)` branch at GL/a.js:137-139 is never taken and is not modelled.
- `getExtents` reads `positions` and writes its own `min`/`max` arrays. The model takes `positions` as an immutable sequence.
- Extents.ExtentsBounds, Extents.SceneBounds and Extents.SceneIsExtentsOfAll require NaN-free whole vertices: arrays with NaN coordinates are not covered, beyond the NaN that a partial trailing vertex produces (Extents.PartialVertex).
- `main()` is not part of this model: WebGL setup, shader strings, `fetch`, the buffer-info construction, the camera arithmetic, DOM handlers and the render loop.
- GL/triangle.js is not part of this model.
- `Number.prototype.map` and `easeInSine` (GL/a.js:6-8, 162-164) are not part of this model.
