# RotatingMesh: mesh construction, event loop and JEBDebug helpers

A Dafny model of two self-contained parts of the RotatingMesh demo.

**The demo itself** (`src/RotatingMesh/main.cpp`):

- the regular polygon;
- the transition polygon between an n-gon and an (n+1)-gon;
- the closed prism `make_polygon_mesh` builds over it: two vertexes per point, the two cap centres, and the side and cap triangles by index arithmetic;
- `add_mesh`, which flattens the prism into a vertex/index buffer;
- the animation ramp `Foo::value`;
- the `RotatingMeshLoop` event loop: `on_startup`, `on_event`, `on_update` and `on_draw`, the GPU buffers being sequences of rows.

**The JEBDebug helpers** (`src/RotatingMesh/Debug.hpp`):

- the comma-joined writer `internal::write`;
- the numbered writer `internal::writePretty`;
- `printHexNumbers`, `printCharacters` and the `hexdump` loop with its digit-count lambda;
- the start/stop accumulator `CpuTimer`.

The stream these write to is an `OStream` object. It holds the text written so far, the fill character and the basefield. Its `WriteNumber` models `std::setw(w) << x`.

Files:

- `mesh_builder.dfy`, module `MeshBuilder`: polygons, the prism, `add_mesh`.
- `mesh_loop.dfy`, module `RotatingMeshLoop`: `Foo` as `Ramp`, events, the `MeshLoop` class.
- `ostream.dfy`, module `OStreams`: the stream state, hex and decimal digits, `setw` padding.
- `jeb_debug.dfy`, module `JEBDebug`: the Debug.hpp helpers and `CpuTimer`.

Points are symbolic terms rather than floats. `Corner(n, i)` is corner i of the regular n-gon. `Lerp(a, b, f)` is a + (b - a)·f. `Scaled(p)` is p times √2. Normals are the symbolic `FaceNormal(a, b, c)`. So every claim about meshes is about counts, index ranges, which point lands where, and order.

Each imperative routine of the source is a method with its loop. The method is proved against a specification function:

| method | specification function |
|---|---|
| `MakePolygonMesh` | `PrismMesh` |
| `AddMesh` | `Flatten` and `Iota` |
| `Write` | `Joined` |
| `WritePretty` | `Pretty` |
| `PrintHexNumbers` | `HexRow` |
| `PrintCharacters` | `CharRow` |
| `Hexdump` | `Dump` |

The lemmas state what the source promises about those functions.

## Model

| member | source | states |
|---|---|---|
| MeshBuilder.MakePolygon | src/RotatingMesh/main.cpp:12-23 | make_polygon(n) pushes exactly n points, the i-th being corner i of the n-gon |
| MeshBuilder.MakeTransitionPolygon | src/RotatingMesh/main.cpp:25-38 | the result is the n-gon for fraction <= 0, the (n+1)-gon for fraction >= 1, else the n interpolated corners followed by the point between corner 0 and the last corner of the (n+1)-gon |
| MeshBuilder.TransitionPolygonSize | src/RotatingMesh/main.cpp:25-52 | the transition polygon has exactly as many points as the side count make_polygon_mesh uses after `if (fraction > 0) n += 1` |
| MeshBuilder.TransitionMorph | src/RotatingMesh/main.cpp:31-36 | strictly between 0 and 1 there are n+1 points: point i < n moves from corner i of the n-gon, the last point from corner 0, and point i ends on corner i of the (n+1)-gon |
| MeshBuilder.MakePolygonMesh | src/RotatingMesh/main.cpp:40-76 | the mesh built is the closed prism over the transition polygon; needs at least one point |
| MeshBuilder.AddPrismFaces | src/RotatingMesh/main.cpp:51-73 | after the rims: the two centres are appended and the faces are all wall quads followed by all cap pairs, the hand-written closing faces included |
| MeshBuilder.AddWallQuads | src/RotatingMesh/main.cpp:53-58 | the first face loop appends the wall quads of edges 0..k-2, vertexes unchanged |
| MeshBuilder.AddCapTriangles | src/RotatingMesh/main.cpp:65-70 | the second face loop appends the cap pairs of edges 0..k-2, top then bottom, vertexes unchanged |
| MeshBuilder.WallStep | src/RotatingMesh/main.cpp:55-57 | one pass of the first loop adds faces (2i, 2i+2, 2i+1) and (2i+2, 2i+3, 2i+1) |
| MeshBuilder.WallsClose | src/RotatingMesh/main.cpp:63-64 | the two hand-written faces are the wall quad of the last edge, wrapping back to point 0 |
| MeshBuilder.CapStep | src/RotatingMesh/main.cpp:67-69 | one pass of the second loop adds (2i+1, 2i+3, top) and (2i+2, 2i, bottom) |
| MeshBuilder.CapsClose | src/RotatingMesh/main.cpp:72-73 | the two closing cap faces are the cap pair of the last edge, wrapping to point 0 |
| MeshBuilder.RimsLength | src/RotatingMesh/main.cpp:45-50 | two vertexes per point |
| MeshBuilder.RimsAt | src/RotatingMesh/main.cpp:45-50 | point i gives vertex 2i at z = -1 and vertex 2i+1 at z = 1 |
| MeshBuilder.RimsHeight | src/RotatingMesh/main.cpp:45-50 | rim vertex v is on the bottom plane exactly when v is even |
| MeshBuilder.RingFacesLength | src/RotatingMesh/main.cpp:53-73 | two faces per edge in each ring |
| MeshBuilder.RingFacesAt | src/RotatingMesh/main.cpp:53-73 | edge q contributes faces 2q and 2q+1 of its ring |
| MeshBuilder.RingFacesWellPlaced | src/RotatingMesh/main.cpp:53-73 | every face index is below 2k+2; a face has corners of one parity exactly when it is a cap face |
| MeshBuilder.PrismMeshShape | src/RotatingMesh/main.cpp:43-73 | 2k+2 vertexes and 4k faces, every face index names a vertex, rims at 2i/2i+1, bottom centre 2k, top centre 2k+1 |
| MeshBuilder.PrismVertexHeight | src/RotatingMesh/main.cpp:45-62 | every even vertex is at z = -1, every odd one at z = 1 |
| MeshBuilder.PrismFacesOrientation | src/RotatingMesh/main.cpp:53-73 | the first 2k faces (walls) span both planes, the last 2k (caps) lie flat in one plane |
| MeshBuilder.PrismFaceOrder | src/RotatingMesh/main.cpp:53-73 | the face list, with its special wrap-around faces, is the uniform one: wall quad q and cap pair q join point q to point (q+1) mod k |
| MeshBuilder.EmptyPolygonWrapsAround | src/RotatingMesh/main.cpp:51-63 | with n = 0 and fraction <= 0 the unsigned `n - 1` is 2^32-1 and `2 * n - 2` is 2^32-2, an index far beyond the 2 vertexes the mesh has |
| MeshBuilder.ArrayBuffer.AddVertex | src/RotatingMesh/main.cpp:88-90 | builder.add_vertex appends one row |
| MeshBuilder.ArrayBuffer.AddIndexes | src/RotatingMesh/main.cpp:91 | builder.add_indexes appends the three indexes in order |
| MeshBuilder.AddMesh | src/RotatingMesh/main.cpp:78-94 | add_mesh appends the three rows of every face in face order and the indexes 0, 1, ..., 3F-1 |
| MeshBuilder.FlattenLength | src/RotatingMesh/main.cpp:85-93 | exactly three rows per face |
| MeshBuilder.FlattenAt | src/RotatingMesh/main.cpp:85-93 | row 3f+c is corner c of face f, with face f's normal |
| MeshBuilder.PrismBufferSize | src/RotatingMesh/main.cpp:82-93 | the prism over k points flattens to 12k rows and 12k indexes, each index naming a row |
| RotatingMeshLoop.Elapsed | src/RotatingMesh/main.cpp:106 | the unsigned 32-bit tick difference: now - start, plus 2^32 when the counter wrapped |
| RotatingMeshLoop.Clamp | src/RotatingMesh/main.cpp:108-109 | the result lies in [lo, hi], is v inside it, and is the nearer bound outside |
| RotatingMeshLoop.RampValue | src/RotatingMesh/main.cpp:104-110 | Foo::value lies between start_value and end_value, equals start_value at start_timestamp and when the factor is 0 |
| RotatingMeshLoop.RampReachesEnd | src/RotatingMesh/main.cpp:104-110 | once the unclamped value has moved past end_value, the value is end_value |
| RotatingMeshLoop.Restart | src/RotatingMesh/main.cpp:167-177 | the new Foo continues from the old one's value at the event timestamp, with the given target and factor |
| RotatingMeshLoop.RampValueInRange | src/RotatingMesh/main.cpp:104-110 | a ramp with both bounds in [3, 10] has its value in [3, 10] |
| RotatingMeshLoop.ShrinkCompletes | src/RotatingMesh/main.cpp:165-171 | holding space for 14000 ms reaches the triangle (3) from anywhere in [3, 10] |
| RotatingMeshLoop.GrowCompletes | src/RotatingMesh/main.cpp:172-178 | releasing space for 11667 ms reaches the decagon (10) from anywhere in [3, 10] |
| RotatingMeshLoop.NextRampKeepsRange | src/RotatingMesh/main.cpp:165-178 | every event keeps the ramp bounds in [3, 10], and the value is continuous at the event's timestamp |
| RotatingMeshLoop.NextRampOnlySpace | src/RotatingMesh/main.cpp:162-178 | only a space event that is not a repeated press changes the ramp; release targets 10, press targets 3 |
| RotatingMeshLoop.IntPart | src/RotatingMesh/main.cpp:189-190 | modf's integer part of a non-negative value: the largest whole number not above it |
| RotatingMeshLoop.SidesForValue | src/RotatingMesh/main.cpp:185-191 | for a value in [3, 10] the polygon built is defined, has the value rounded up as side count, between 3 and 10 |
| RotatingMeshLoop.RebuildFits | src/RotatingMesh/main.cpp:185-191 | the rebuilt prism is a valid mesh whose 3 rows per face fit in the 120 rows allocated at start-up |
| RotatingMeshLoop.PrismFits | src/RotatingMesh/main.cpp:191 | a prism over at most 10 points is valid, with 2k+2 vertexes and at most 120 rows |
| RotatingMeshLoop.DecagonPrism | src/RotatingMesh/main.cpp:118-128 | the start-up mesh is the decagon prism, which flattens to exactly 120 rows and 120 indexes |
| RotatingMeshLoop.GatheredUpload | src/RotatingMesh/main.cpp:199-220 | when the first count indexes are 0..count-1 and the first count rows are the flattened mesh, glDrawElements reads exactly that mesh |
| RotatingMeshLoop.MeshLoop.constructor | src/RotatingMesh/main.cpp:229-237 | the member initialisers: Foo {0, 10, 3, 0}, prev_value_ 10, no wireframe, no pending upload, no elements |
| RotatingMeshLoop.MeshLoop.OnStartup | src/RotatingMesh/main.cpp:116-148 | on_startup builds the decagon prism and uploads all 120 rows and indexes; the invariant holds |
| RotatingMeshLoop.MeshLoop.UploadInitial | src/RotatingMesh/main.cpp:119-128 | the GPU buffers get exactly the flattened mesh, element_count_ its index count |
| RotatingMeshLoop.MeshLoop.OnEvent | src/RotatingMesh/main.cpp:150-181 | returns true exactly for a key-up of P or any space key event; only a P key-up toggles the wireframe; Foo becomes NextRamp of the old Foo |
| RotatingMeshLoop.MeshLoop.OnUpdate | src/RotatingMesh/main.cpp:183-193 | unchanged when the value equals prev_value_ (always 10); else the mesh is the prism over the polygon for the value, with 3 to 10 sides, and an upload is pending |
| RotatingMeshLoop.MeshLoop.OnDraw | src/RotatingMesh/main.cpp:195-226 | after on_draw nothing is pending and what glDrawElements reads is exactly the flattened current mesh |
| RotatingMeshLoop.MeshLoop.Reupload | src/RotatingMesh/main.cpp:199-212 | the flattened mesh overwrites the start of the GPU buffers (offset 0); the rest keeps its old contents |
| OStreams.Digits | src/RotatingMesh/Debug.hpp:299 | a number is written with at least one digit |
| OStreams.DigitRoundTrip | src/RotatingMesh/Debug.hpp:299 | a digit character reads back as its digit |
| OStreams.DigitsRoundTrip | src/RotatingMesh/Debug.hpp:343 | the digits written for x read back as x, in any radix from 2 to 16 |
| OStreams.SingleDigit | src/RotatingMesh/Debug.hpp:334-340 | x has one digit exactly when x < radix |
| OStreams.DigitsLength | src/RotatingMesh/Debug.hpp:334-340 | with L digits, radix^(L-1) <= x < radix^L (x < radix when L = 1) |
| OStreams.DigitsMonotone | src/RotatingMesh/Debug.hpp:334-340 | a larger number never has fewer digits |
| OStreams.LeadingZeros | src/RotatingMesh/Debug.hpp:343 | leading zeros do not change the value read |
| OStreams.Repeat | src/RotatingMesh/Debug.hpp:300-301 | k copies of the character |
| OStreams.RepeatAt | src/RotatingMesh/Debug.hpp:321-322 | every character of the padding is the pad character |
| OStreams.RepeatSplit | src/RotatingMesh/Debug.hpp:300-301 | padding of a + b is padding of a followed by padding of b |
| OStreams.PadLeftShape | src/RotatingMesh/Debug.hpp:243 | setw pads on the left with the fill up to the width and never cuts: the text ends with the digits, the rest is fill |
| OStreams.PadLeftValue | src/RotatingMesh/Debug.hpp:343 | zero fill on the left keeps the number's value |
| OStreams.OStream.Put | src/RotatingMesh/Debug.hpp:317 | stream.put appends one character |
| OStreams.OStream.Write | src/RotatingMesh/Debug.hpp:229 | `<<` of a string appends it |
| OStreams.OStream.WriteNumber | src/RotatingMesh/Debug.hpp:243 | `<< setw(w) << x` appends x's digits in the current base, padded with the fill to w |
| OStreams.OStream.SetBase | src/RotatingMesh/Debug.hpp:293 | setf(basefield) sets the base and returns the old one |
| OStreams.OStream.SetFill | src/RotatingMesh/Debug.hpp:294 | fill(c) sets the fill and returns the old one |
| JEBDebug.Write | src/RotatingMesh/Debug.hpp:223-230 | write appends the elements joined by ", " (nothing for an empty range) and leaves fill and base alone |
| JEBDebug.WriteSeparated | src/RotatingMesh/Debug.hpp:229 | one pass of write's loop appends ", " and the element's text |
| JEBDebug.SeparatedStep | src/RotatingMesh/Debug.hpp:228-229 | each pass of the loop appends ", " and the next element |
| JEBDebug.SeparatedShape | src/RotatingMesh/Debug.hpp:228-229 | the separators add two characters per element; with comma-free elements the commas are exactly the separators |
| JEBDebug.JoinedShape | src/RotatingMesh/Debug.hpp:223-230 | for m elements, the output is their texts plus 2(m-1) characters, with exactly m-1 separating commas when elements have none |
| JEBDebug.CountAppend | src/RotatingMesh/Debug.hpp:228-229 | commas of a concatenation add up |
| JEBDebug.WritePretty | src/RotatingMesh/Debug.hpp:238-244 | writePretty appends one line per element, numbered from 0 in the stream's base and fill; fill and base unchanged |
| JEBDebug.WritePrettyLine | src/RotatingMesh/Debug.hpp:243 | one pass: the index in a field of 6, ": ", the element, "\n\t" |
| JEBDebug.PrettyStep | src/RotatingMesh/Debug.hpp:241-243 | the lines of i+1 elements are those of i plus line i |
| JEBDebug.PrettyLabelFits | src/RotatingMesh/Debug.hpp:243 | in decimal an index below 10^6 fills the field of 6 exactly, right-aligned, and reads back as the index |
| JEBDebug.PrettyLabelOverflows | src/RotatingMesh/Debug.hpp:243 | an index of 10^6 or more overflows the field uncut |
| JEBDebug.HexCellWritten | src/RotatingMesh/Debug.hpp:299 | a hex cell is what `' ' << setw(2) << byte` writes in hex with fill '0' |
| JEBDebug.HexCellShape | src/RotatingMesh/Debug.hpp:299 | a cell is 3 characters, a space and two hex digits reading back as the byte |
| JEBDebug.HexCells | src/RotatingMesh/Debug.hpp:298-299 | three characters per byte |
| JEBDebug.HexCellsAt | src/RotatingMesh/Debug.hpp:298-299 | cell j sits at 3j and shows byte j |
| JEBDebug.HexRow | src/RotatingMesh/Debug.hpp:296-301 | printHexNumbers' text is exactly 3·numNumbers characters |
| JEBDebug.HexRowFull | src/RotatingMesh/Debug.hpp:296-301 | with enough bytes there is no blank padding |
| JEBDebug.HexRowShape | src/RotatingMesh/Debug.hpp:296-301 | each shown byte's cell is at 3j, starts with a space and reads back as the byte |
| JEBDebug.PrintHexNumbers | src/RotatingMesh/Debug.hpp:289-305 | returns min(numBytes, numNumbers), appends a cell per shown byte and "   " per missing one, restores fill and base |
| JEBDebug.WriteHexCells | src/RotatingMesh/Debug.hpp:298-299 | the first loop appends the cells of the bytes shown |
| JEBDebug.WriteBlankCells | src/RotatingMesh/Debug.hpp:300-301 | the second loop appends three spaces per missing byte |
| JEBDebug.WriteHexCell | src/RotatingMesh/Debug.hpp:299 | one pass appends the byte's cell |
| JEBDebug.ShownChars | src/RotatingMesh/Debug.hpp:314-320 | one character per byte |
| JEBDebug.ShownCharsAt | src/RotatingMesh/Debug.hpp:314-320 | character i is byte i when in [32, 127), else '.' |
| JEBDebug.CharRow | src/RotatingMesh/Debug.hpp:311-323 | printCharacters' text is exactly numChars characters |
| JEBDebug.PrintCharacters | src/RotatingMesh/Debug.hpp:307-324 | returns min(numBytes, numChars) and appends the shown characters padded with spaces to numChars |
| JEBDebug.CharRowShape | src/RotatingMesh/Debug.hpp:312-323 | every character written is printable ASCII; a shown byte appears as itself exactly when it is printable |
| JEBDebug.HexDigitCount | src/RotatingMesh/Debug.hpp:334-340 | the digits lambda returns the number of hex digits of n, at least 1 |
| JEBDebug.LineShape | src/RotatingMesh/Debug.hpp:343-354 | a line is its offset field, hex part, two spaces, characters and a newline: length and field position |
| JEBDebug.Hexdump | src/RotatingMesh/Debug.hpp:327-358 | hexdump (16 columns by default) appends the dump text and restores fill and base |
| JEBDebug.WriteNextLine | src/RotatingMesh/Debug.hpp:341-355 | one pass writes the line at the cursor and moves it by min(remaining, columns) |
| JEBDebug.WriteDumpLine | src/RotatingMesh/Debug.hpp:343-354 | the body of the loop appends the line for the cursor and returns how many bytes it consumed |
| JEBDebug.WriteHexPart | src/RotatingMesh/Debug.hpp:344-350 | the two halves, each a space and columns/2 cells from where the previous one stopped |
| JEBDebug.WriteHexHalf | src/RotatingMesh/Debug.hpp:347-349 | one half: a space and printHexNumbers, the cursor advancing by what it showed |
| JEBDebug.HexPartLength | src/RotatingMesh/Debug.hpp:345-350 | the hex part is always 2 + 6·(columns/2) characters, however few bytes remain |
| JEBDebug.LineCountBounds | src/RotatingMesh/Debug.hpp:341-355 | ceil(size/columns) lines cover the bytes, the last possibly in part |
| JEBDebug.LineCountStep | src/RotatingMesh/Debug.hpp:352-353 | each line consumes min(rest, columns) bytes and one line of the count |
| JEBDebug.LinesFromCount | src/RotatingMesh/Debug.hpp:341-355 | the loop makes exactly ceil(size/columns) passes |
| JEBDebug.DumpLineWidth | src/RotatingMesh/Debug.hpp:343-354 | every line has the same width, digits + 2 + 6·(columns/2) + 2 + columns + 1 |
| JEBDebug.DumpLineOffset | src/RotatingMesh/Debug.hpp:343 | the first `digits` characters of a line read back as its offset |
| JEBDebug.DumpLineEnd | src/RotatingMesh/Debug.hpp:354 | every line ends in a newline |
| JEBDebug.LoopTextLength | src/RotatingMesh/Debug.hpp:341-355 | with lines of width w the loop's text is w per pass |
| JEBDebug.LoopTextAt | src/RotatingMesh/Debug.hpp:341-355 | block j of the loop's text is the line at cursor start + j·columns |
| JEBDebug.LoopTextBlock | src/RotatingMesh/Debug.hpp:341-355 | the same from cursor 0, with block bounds j·w and (j+1)·w |
| JEBDebug.UniformLines | src/RotatingMesh/Debug.hpp:343-354 | all lines of a dump have the uniform width |
| JEBDebug.DumpLineCount | src/RotatingMesh/Debug.hpp:341-355 | hexdump writes ceil(size/columns) lines of the uniform width |
| JEBDebug.DumpLineAt | src/RotatingMesh/Debug.hpp:341-355 | line j of the dump is the line for offset j·columns |
| JEBDebug.OddColumnsHideAByte | src/RotatingMesh/Debug.hpp:345-353 | with columns = 2h+1, a full line's hex part shows bytes start..start+2h only, while its characters show all 2h+1 |
| JEBDebug.HexRowFrom | src/RotatingMesh/Debug.hpp:348-349 | with enough bytes left, a half shows exactly the next columns/2 bytes |
| JEBDebug.CharRowFrom | src/RotatingMesh/Debug.hpp:352-353 | with enough bytes left, the characters show exactly the next columns bytes |
| JEBDebug.CpuTimer.constructor | src/RotatingMesh/Debug.hpp:175-177 | the timer starts stopped with nothing accumulated |
| JEBDebug.CpuTimer.Start | src/RotatingMesh/Debug.hpp:144-148 | start records the time and marks the timer running |
| JEBDebug.CpuTimer.Stop | src/RotatingMesh/Debug.hpp:150-155 | stop adds the time since the last start and marks the timer stopped |
| JEBDebug.CpuTimer.Seconds | src/RotatingMesh/Debug.hpp:157-167 | seconds() of a stopped timer is the accumulated total whatever the time of reading; of a running one, the total plus the time since start(), so never below the total once the clock has passed the start |
| JEBDebug.CpuTimer.Stopped | src/RotatingMesh/Debug.hpp:169-172 | stopped() is true exactly when seconds() reads the accumulated total at every time |
| JEBDebug.TimeTwoIntervals | src/RotatingMesh/Debug.hpp:144-167 | two start/stop intervals: seconds reports their total at any later time |
| JEBDebug.ReadWhileRunning | src/RotatingMesh/Debug.hpp:157-167 | a running timer reports the running interval, which grows with the time of reading |
| JEBDebug.StopTwice | src/RotatingMesh/Debug.hpp:150-155 | a second stop without start counts the first interval again: the total exceeds the real elapsed time |

## Left out

- Point coordinates: cos, sin, π and the √2 radius. Points are symbolic terms, because the properties are about counts, indexes and order. Float rounding is not modelled.
- Face normals (`Xyz::Mesh::normal`) are symbolic terms naming the face's three vertexes.
- Foo::value and the ramp constants are computed over exact reals, without float rounding.
- The comparison `value == prev_value_` is on reals.
- modf is the floor of a non-negative real (`IntPart`). The ramp value is always in [3, 10], so that is all on_update needs.
- Tungsten and GL calls are not modelled as calls. This covers shader set-up, vertex attributes, the projection matrix, glPolygonMode, glClear and the rotation angle in on_draw. What on_draw uploads is modelled on the GPU buffers, as sequences.
- `ArrayBufferBuilder::reserve_*` changes no content and is not modelled.
- MeshBuilder.AddMesh: Tungsten's `ArrayBufferBuilder` is not part of this model. `add_indexes` is taken to store the indexes as given, so the contract's "old indexes followed by 0..3F-1" is promised for that reading; if the builder offset indexes by the rows it already holds, it would still hold for the empty buffers both callers pass (main.cpp:119-120, 201-202).
- SDL_GetTicks is the `now` parameter.
- RotatingMeshLoop.MeshLoop.OnEvent does not model glPolygonMode. The wireframe flag stands for the mode.
- The `n` of add_mesh is an `int`. Its overflow needs more than 700 million faces and is not modelled.
- Face indexes are `nat`. The source's 32-bit unsigned wrap appears only where it matters: at n = 0 (EmptyPolygonWrapsAround).
- MeshBuilder.MakePolygonMesh: requires n >= 1 or fraction >= 1. Otherwise the source reads `points0[0]` of an empty polygon, or wraps `n - 1` to 2^32 - 1. EmptyPolygonWrapsAround states the wrap.
- JEBDebug.Hexdump: requires columns > 0 whenever there are bytes. With columns == 0, printCharacters returns 0, the cursor never moves and the source loops forever.
- The offset of a hexdump line is `intptr_t(cdata) - intptr_t(data)` in the source. The model uses the byte position, which is the same number.
- Element rendering in write and writePretty is a function `show` from element to text. It is independent of the stream state; element types' own `operator<<` is not modelled.
- Stream flags other than the basefield, and stream error states, are not modelled. setw is modelled only where the helpers use it: on the next number.
- The writeContainer and writeContainerPretty wrappers only forward to write and writePretty. They are not modelled.
- The JEB_* macros (location strings, `__FILE__`/`__LINE__`), the STREAM global and ScopedTimer are not modelled.
- `operator<<` for CpuTimer is not modelled.
- The templated `hexdump(stream, value)` overload is not modelled.
- JEBDebug.CpuTimer.Seconds returns clock ticks as an integer. The `duration<double>` conversion to seconds is not modelled, and high_resolution_clock::now() is the `now` parameter.
- main(), the application set-up and the exception logging are not modelled.
- RotatingMeshLoop.MeshLoop.OnDraw always clears the pending-upload flag. In the source, an exception from `set_buffer_subdata` is caught and logged, leaving `update_buffer_` set and `element_count_` unchanged (main.cpp:197-225); GL errors are not modelled, and the model proves the upload always fits the buffers.
- The SpaceBars demo and the shader program classes are not modelled.
