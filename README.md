# osgART ARToolKit 4 tracker: a Dafny model

osgART's ARToolKit 4 tracker loads a list of markers from a manifest file.
It hands each marker, frame by frame, the detection the ARToolKit detector
found for it. It keeps a binarisation threshold and translates the video
library's pixel formats into the detector's. It can also build a mesh that
undoes the camera's lens distortion.

This project models those parts of the tracker and proves what they
promise:

- `Selection`: the scan that picks a single marker's detection. It is
  proved against an independent recursive reference (`Best`) and a
  specification predicate (`IsBestMatch`: matching, most confident, first
  of equals).
- `Markers`: the registry's two marker kinds and what one frame does to
  each (`FrameUpdate`). The markers' `initialise` is an oracle (`Loader`).
  Their `update` is recorded, not interpreted.
- `Manifest`: `trim`, the manifest as a character stream with position
  and end-of-file flag (`getline`, `>>` into a string, `>>` into an int),
  the entries the loader reads, and `Register`: in-order registration that
  stops at the first failure. Lemmas state which entries a manifest of
  well-formed entries yields; `ManifestExample` applies them to a
  two-marker manifest.
- `PixelFormat`: the format table of `setImageRaw`.
- `Distortion`: `Observer2Ideal`, kept in shape: three Newton passes with
  the zero-radius guard. Square root and division are uninterpreted.
- `Mesh`: the vertices, texture coordinates and quad strips of the
  undistortion mesh, with the tiling of the strips.
- `ARToolKit4Tracker`: the tracker as a class over its fields
  (`m_threshold`, `m_marker_num`, `m_markerlist`, the pixel format). Its
  methods `SetThreshold`, `SetImageRaw`, `AddSingleMarker`,
  `AddMultiMarker`, `SetupMarkers`, `Update` and `CreateUndistortedMesh`
  keep the source's loops. Each is proved against the functions above.

The detector `arDetectMarker` is a parameter: a function from the threshold
to the frame's detections, or an error. The image itself is reduced to
whether it is present. The manifest's file-open step is the `Option` that
`SetupMarkers` receives.

## Model

| member | source | states |
|---|---|---|
| Selection.SelectDetection | src/osgART/Tracker/ARToolKit4/ARToolKit4Tracker.cpp:359-368 | The scan returns -1 exactly when no detection has the marker's pattern ID. Otherwise it returns an index that matches, is at least as confident as every match, and is strictly more confident than every earlier match. |
| Selection.BestIsBestMatch | src/osgART/Tracker/ARToolKit4/ARToolKit4Tracker.cpp:359-368 | The recursive reference choice is -1 exactly when nothing matches, and otherwise it is the best match. |
| Selection.BestMatchUnique | src/osgART/Tracker/ARToolKit4/ARToolKit4Tracker.cpp:359-368 | At most one index meets the specification of the choice, so ties are decided: the first maximum wins. |
| Selection.SelectedIsBest | src/osgART/Tracker/ARToolKit4/ARToolKit4Tracker.cpp:359-368 | Any index meeting the scan's specification equals the reference choice. |
| Selection.SelectionExample | src/osgART/Tracker/ARToolKit4/ARToolKit4Tracker.cpp:359-368 | Concrete frames: the more confident of two matches is chosen, an absent pattern gives -1, and of two equally confident matches the first is chosen. |
| Selection.Best | src/osgART/Tracker/ARToolKit4/ARToolKit4Tracker.cpp:359-368 | The reference choice is -1 or an index into the detections. |
| Markers.SelectedInput | src/osgART/Tracker/ARToolKit4/ARToolKit4Tracker.cpp:370-377 | A single marker receives "not visible" exactly when no detection matches its pattern, and otherwise the detection at a best-match index. |
| Markers.FrameUpdateEffect | src/osgART/Tracker/ARToolKit4/ARToolKit4Tracker.cpp:348-386 | One frame keeps the registry's length and order. Each single marker gets exactly one new input, "not visible" exactly when nothing matches, and nothing else about it changes. Each multi-marker gets the whole detection array appended. |
| Markers.SingleReceivesBest | src/osgART/Tracker/ARToolKit4/ARToolKit4Tracker.cpp:370-377 | A single marker whose pattern is seen receives exactly the best-match detection. |
| Manifest.LastNotOf | src/osgART/Tracker/ARToolKit4/ARToolKit4Tracker.cpp:146 | `find_last_not_of`: -1 (npos) or the index of a kept character, with only dropped characters after it. |
| Manifest.FirstNotOf | src/osgART/Tracker/ARToolKit4/ARToolKit4Tracker.cpp:147 | `find_first_not_of`: the length of the string (npos) or the index of a kept character, with only dropped characters before it. |
| Manifest.Trim | src/osgART/Tracker/ARToolKit4/ARToolKit4Tracker.cpp:144-148 | The returned value is no longer than the argument's new value, which is no longer than the argument. |
| Manifest.TrimSpec | src/osgART/Tracker/ARToolKit4/ARToolKit4Tracker.cpp:144-148 | The argument loses exactly its longest run of dropped characters at the end. The returned value also loses exactly its longest such run at the start. |
| Manifest.TrimEmpty | src/osgART/Tracker/ARToolKit4/ARToolKit4Tracker.cpp:175 | The trimmed name is empty exactly when every character is dropped: the blank-line test. |
| Manifest.TrimExample | src/osgART/Tracker/ARToolKit4/ARToolKit4Tracker.cpp:144-148 | `"  foo.patt  "` trims to `"foo.patt"`, while the argument becomes `"  foo.patt"`; an all-space string trims to empty. |
| Manifest.TrimKeeps | src/osgART/Tracker/ARToolKit4/ARToolKit4Tracker.cpp:144-148 | A string that neither starts nor ends with a dropped character is left unchanged by both cuts. |
| Manifest.SkipSpaceSpec | src/osgART/Tracker/ARToolKit4/ARToolKit4Tracker.cpp:182 | The space skip of `>>` passes only spaces, and it stops at a non-space or at the end. |
| Manifest.WordEndSpec | src/osgART/Tracker/ARToolKit4/ARToolKit4Tracker.cpp:182 | A word read by `>>` runs over non-spaces only, and it ends at a space or at the end. |
| Manifest.LineEndSpec | src/osgART/Tracker/ARToolKit4/ARToolKit4Tracker.cpp:176 | `getline` stops at the first newline, or at the end. |
| Manifest.DigitsEnd | src/osgART/Tracker/ARToolKit4/ARToolKit4Tracker.cpp:165 | The digit run of `>>` into an int covers only digits, and it stops at a non-digit or at the end. |
| Manifest.GetLine | src/osgART/Tracker/ARToolKit4/ARToolKit4Tracker.cpp:176 | `getline` keeps the text, and either moves forward or, at the very end, sets end-of-file. |
| Manifest.GetLineSpec | src/osgART/Tracker/ARToolKit4/ARToolKit4Tracker.cpp:176 | The line is the text from the read position up to the next newline, without it. End-of-file is set exactly when no newline is left; otherwise reading resumes after the newline. |
| Manifest.ReadWord | src/osgART/Tracker/ARToolKit4/ARToolKit4Tracker.cpp:182 | At end-of-file the string keeps its previous value and the stream is unchanged. Reading never moves backwards, and it leaves end-of-file clear while text remains. |
| Manifest.ReadWordSpec | src/osgART/Tracker/ARToolKit4/ARToolKit4Tracker.cpp:182 | A word actually read is a non-empty token without spaces, found just before the new position, and followed by a space or the end. |
| Manifest.ReadInt | src/osgART/Tracker/ARToolKit4/ARToolKit4Tracker.cpp:165 | Reading the count keeps the text and never moves backwards; at end-of-file it yields 0 and leaves the stream as it was. |
| Manifest.ReadName | src/osgART/Tracker/ARToolKit4/ARToolKit4Tracker.cpp:174-177 | The blank-line loop ends with a name that is not blank once trimmed, or at end-of-file. Which name, and where reading resumes, is stated by `ReadNameSkipsBlankLine` and `ReadNameAt`. |
| Manifest.ReadEntry | src/osgART/Tracker/ARToolKit4/ARToolKit4Tracker.cpp:174-188 | Reading one entry keeps the text. What it reads from a well-formed entry is stated by `ReadEntryAt`. |
| Manifest.Entries | src/osgART/Tracker/ARToolKit4/ARToolKit4Tracker.cpp:171 | The loop reads no more entries than the count announces. Which entries it reads from well-formed entry texts is stated by `EntriesAt`. |
| Manifest.SkipSpaceIs | src/osgART/Tracker/ARToolKit4/ARToolKit4Tracker.cpp:182 | The space skip ends exactly at the first non-space after a run of spaces. |
| Manifest.WordEndIs | src/osgART/Tracker/ARToolKit4/ARToolKit4Tracker.cpp:182 | A word ends exactly at the first space after a run of non-spaces. |
| Manifest.LineEndIs | src/osgART/Tracker/ARToolKit4/ARToolKit4Tracker.cpp:176 | A line ends exactly at the first newline after a run of other characters. |
| Manifest.DigitsEndIs | src/osgART/Tracker/ARToolKit4/ARToolKit4Tracker.cpp:165 | The digit run ends exactly at the first non-digit after a run of digits. |
| Manifest.GetLineAt | src/osgART/Tracker/ARToolKit4/ARToolKit4Tracker.cpp:176 | On text laid out as prefix + line + newline + rest, `getline` at the line's start yields the line and resumes after the newline. |
| Manifest.ReadWordAt | src/osgART/Tracker/ARToolKit4/ARToolKit4Tracker.cpp:182 | On text laid out as prefix + spaces + word + rest, `>>` yields the word and stops at its end. End-of-file is set exactly when nothing follows it. |
| Manifest.ReadIntAt | src/osgART/Tracker/ARToolKit4/ARToolKit4Tracker.cpp:165 | On text laid out as prefix + spaces + digits + rest, `>>` into an int yields the decimal value of the digits and stops at their end. End-of-file is set exactly when nothing follows them. |
| Manifest.GetLineFrom | src/osgART/Tracker/ARToolKit4/ARToolKit4Tracker.cpp:176 | At a position whose line ends in a newline at e, `getline` yields the text up to e and resumes after the newline, with end-of-file clear. |
| Manifest.ReadWordFrom | src/osgART/Tracker/ARToolKit4/ARToolKit4Tracker.cpp:182 | At a position in front of spaces up to a and non-spaces up to q, followed by a space or the end, `>>` yields the characters from a to q and stops at q. End-of-file is set exactly when q is the end. |
| Manifest.ReadIntFrom | src/osgART/Tracker/ARToolKit4/ARToolKit4Tracker.cpp:165 | At a position in front of spaces up to a and digits up to q, followed by a non-digit or the end, `>>` into an int yields the decimal value of the digits and stops at q. End-of-file is set exactly when q is the end. |
| Manifest.ReadNameBlank | src/osgART/Tracker/ARToolKit4/ARToolKit4Tracker.cpp:175 | A line made only of spaces trims to empty, so the loop goes on from it as from the empty string it starts with. |
| Manifest.ReadNameSkipsBlankLine | src/osgART/Tracker/ARToolKit4/ARToolKit4Tracker.cpp:174-177 | A line of spaces ended by a newline is skipped: reading a name in front of it is reading a name after it. |
| Manifest.ReadNameAt | src/osgART/Tracker/ARToolKit4/ARToolKit4Tracker.cpp:174-177 | In front of a line that is not blank once trimmed, the name is that line with its trailing spaces cut off, and reading resumes after its newline, with end-of-file clear. |
| Manifest.ReadNameKept | src/osgART/Tracker/ARToolKit4/ARToolKit4Tracker.cpp:174-177 | In front of a non-empty line that neither starts nor ends with a space, the name is the whole line, and reading resumes after its newline. |
| Manifest.NameLineAt | src/osgART/Tracker/ARToolKit4/ARToolKit4Tracker.cpp:174-177 | At the newline that ends the previous line, in front of a name line: the rest of the previous line is skipped as blank, the name is read whole, and reading resumes after the name's newline. |
| Manifest.SingleFieldsFrom | src/osgART/Tracker/ARToolKit4/ARToolKit4Tracker.cpp:188 | At a space in front of three tokens, each after one space and the last followed by a space or the end, the three extractions yield the three tokens in order and stop after the last. |
| Manifest.SingleFieldsAt | src/osgART/Tracker/ARToolKit4/ARToolKit4Tracker.cpp:188 | On the fields text " w cx cy" of a SINGLE entry, the extractions yield the width w, then the centre cx and cy, and stop after cy. |
| Manifest.ReadEntryAt | src/osgART/Tracker/ARToolKit4/ARToolKit4Tracker.cpp:174-204 | On the text of a well-formed entry (a newline, the name line, the type and, for SINGLE, the three fields), followed by a space or the end, reading one entry yields exactly that entry, with its name, type, width and centre in that order, and stops at its end, whatever the previous type was. |
| Manifest.EntriesAt | src/osgART/Tracker/ARToolKit4/ARToolKit4Tracker.cpp:171-204 | On the texts of well-formed entries one after the other, as many as announced, the loop reads exactly those entries in order. |
| Manifest.ManifestEntriesAt | src/osgART/Tracker/ARToolKit4/ARToolKit4Tracker.cpp:164-204 | A manifest made of a decimal count, then as many well-formed entries as it announces, then a rest that starts with a space or is empty, yields exactly those entries. |
| ManifestExample.TwoMarkers | src/osgART/Tracker/ARToolKit4/ARToolKit4Tracker.cpp:164-204 | The manifest "2\nfoo.patt\nSINGLE 80 0 0\nbar.patt\nMULTI\n" yields two entries: foo.patt of type SINGLE with width 80 and centre (0, 0), then bar.patt of type MULTI. |
| Manifest.Configure | src/osgART/Tracker/ARToolKit4/ARToolKit4Tracker.cpp:184-210 | An entry yields a marker only for the SINGLE or MULTI type; any other type fails. A SINGLE entry fails exactly when its pattern fails to load, and otherwise yields a single marker with the loaded pattern ID and no inputs. A MULTI entry fails exactly when its configuration fails to load, and otherwise yields a multi-marker with no frames. |
| Manifest.RegisterStopsAtFirstFailure | src/osgART/Tracker/ARToolKit4/ARToolKit4Tracker.cpp:171-215 | The registered markers are those of the entries before the first failing one, in file order, and none is rolled back. The load succeeds exactly when every entry was registered; otherwise the entry right after the registered ones is the one that failed. |
| Manifest.RegisterAppend | src/osgART/Tracker/ARToolKit4/ARToolKit4Tracker.cpp:171-215 | Registering two lists of entries one after the other is registering the first and then, only if it succeeded, the second. |
| Manifest.RegisterStep | src/osgART/Tracker/ARToolKit4/ARToolKit4Tracker.cpp:184-210 | After a successful prefix, a failing entry ends the load at that entry with result false, whatever follows; a succeeding entry appends exactly its own marker. |
| PixelFormat.Translate | src/osgART/Tracker/ARToolKit4/ARToolKit4Tracker.cpp:280-316 | The switch selects a translation exactly for the nine listed video formats; every other format takes the `default:` branch. |
| PixelFormat.TranslationSizes | src/osgART/Tracker/ARToolKit4/ARToolKit4Tracker.cpp:280-313 | Every translation's size is the video format's bits per pixel divided by eight, and equals the detector format's number of one-byte channels. |
| PixelFormat.TranslationInjective | src/osgART/Tracker/ARToolKit4/ARToolKit4Tracker.cpp:309-313 | Distinct video formats select distinct detector formats, except Y8 and GREY8, which share MONO. |
| Distortion.Observer2Ideal | src/osgART/Tracker/ARToolKit4/ARToolKit4Tracker.cpp:20-58 | The loop, with its zero-radius exit and its exit after pass PD_LOOP, computes the ideal point given by the pass-by-pass definition. |
| Distortion.PassesCount | src/osgART/Tracker/ARToolKit4/ARToolKit4Tracker.cpp:37-52 | Away from the centre, the loop makes exactly PD_LOOP = 3 plain Newton passes, each on the radius of the current point, against the radius of the starting point. |
| Distortion.CenterIsFixed | src/osgART/Tracker/ARToolKit4/ARToolKit4Tracker.cpp:31-55 | The distortion centre maps to itself when sqrt(0) is 0 and 0 divided by the scale is 0. |
| Mesh.StripVertices | src/osgART/Tracker/ARToolKit4/ARToolKit4Tracker.cpp:409-431 | A row of cells contributes 2 * (cols + 1) vertices. |
| Mesh.StripTexCoords | src/osgART/Tracker/ARToolKit4/ARToolKit4Tracker.cpp:409-431 | A row of cells contributes 2 * (cols + 1) texture coordinates. |
| Mesh.VerticesUpTo | src/osgART/Tracker/ARToolKit4/ARToolKit4Tracker.cpp:408-431 | The first n rows of cells contribute n times a strip's length in vertices. |
| Mesh.TexCoordsUpTo | src/osgART/Tracker/ARToolKit4/ARToolKit4Tracker.cpp:408-431 | The first n rows of cells contribute n times a strip's length in texture coordinates. |
| Mesh.Vertices | src/osgART/Tracker/ARToolKit4/ARToolKit4Tracker.cpp:408-431 | The mesh has rows * 2 * (cols + 1) vertices. |
| Mesh.TexCoords | src/osgART/Tracker/ARToolKit4/ARToolKit4Tracker.cpp:408-431 | The mesh has one texture coordinate per vertex. |
| Mesh.Strips | src/osgART/Tracker/ARToolKit4/ARToolKit4Tracker.cpp:433-434 | The mesh has one primitive set per row of cells. |
| Mesh.StripPair | src/osgART/Tracker/ARToolKit4/ARToolKit4Tracker.cpp:409-429 | In a strip, vertex 2c is grid point (c, r) and vertex 2c + 1 is grid point (c, r + 1), both for positions and for texture coordinates. |
| Mesh.UpToPrefix | src/osgART/Tracker/ARToolKit4/ARToolKit4Tracker.cpp:408-431 | Appending further rows never changes the vertices and texture coordinates of earlier rows. |
| Mesh.StripsTile | src/osgART/Tracker/ARToolKit4/ARToolKit4Tracker.cpp:433-434 | Every primitive is a quad strip of 2 * (cols + 1) = 42 vertices. The first starts at 0, each starts where the one before ends, and the last ends at the vertex count, 840. |
| Mesh.StripCoversBand | src/osgART/Tracker/ARToolKit4/ARToolKit4Tracker.cpp:408-434 | The vertices that strip r draws are exactly row r's zigzag: vertex 2c at grid point (c, r) and vertex 2c + 1 at (c, r + 1), with their texture coordinates. |
| ARToolKit4Tracker.ClampBetween | src/osgART/Tracker/ARToolKit4/ARToolKit4Tracker.cpp:252 | The clamp never exceeds the upper bound, and it is at least the lower bound when the range is not empty. It is the identity inside the range, and it gives the nearer bound outside it. |
| ARToolKit4Tracker.ClampIsMinMax | src/osgART/Tracker/ARToolKit4/ARToolKit4Tracker.cpp:252 | The clamp is min(max(v, lo), hi). |
| ARToolKit4Tracker.ClampIdempotent | src/osgART/Tracker/ARToolKit4/ARToolKit4Tracker.cpp:252 | Clamping twice is clamping once. |
| ARToolKit4Tracker.ClampMonotone | src/osgART/Tracker/ARToolKit4/ARToolKit4Tracker.cpp:252 | The clamp preserves the order of values. |
| ARToolKit4Tracker.SetupStep | src/osgART/Tracker/ARToolKit4/ARToolKit4Tracker.cpp:184-210 | One pass of the loader's loop keeps the registry equal to the initial markers plus the registration of the entries read so far. After a failing entry, it equals the whole manifest's registration, which has failed. |
| ARToolKit4Tracker.Tracker.constructor | src/osgART/Tracker/ARToolKit4/ARToolKit4Tracker.cpp:69-82 | A new tracker has threshold 100, debugging off, a marker count of 0, no markers and no image. |
| ARToolKit4Tracker.Tracker.SetThreshold | src/osgART/Tracker/ARToolKit4/ARToolKit4Tracker.cpp:251-253 | The stored threshold is the argument clamped to [0, 255], so it always lies in that range, and an argument already in that range is stored unchanged. |
| ARToolKit4Tracker.Tracker.GetThreshold | src/osgART/Tracker/ARToolKit4/ARToolKit4Tracker.cpp:255-257 | Returns the stored threshold. |
| ARToolKit4Tracker.Tracker.SetImageRaw | src/osgART/Tracker/ARToolKit4/ARToolKit4Tracker.cpp:275-325 | A changed, supported format sets the detector format and pixel size from the table. An unchanged or unsupported format leaves both as they were. The image and its format are recorded in every case. |
| ARToolKit4Tracker.Tracker.AddSingleMarker | src/osgART/Tracker/ARToolKit4/ARToolKit4Tracker.cpp:218-232 | On success, exactly one single marker is appended and its index, size - 1, is returned. On failure, -1 is returned and the registry is unchanged. |
| ARToolKit4Tracker.Tracker.AddMultiMarker | src/osgART/Tracker/ARToolKit4/ARToolKit4Tracker.cpp:234-249 | On success, exactly one multi-marker is appended and its index, size - 1, is returned. On failure, -1 is returned and the registry is unchanged. |
| ARToolKit4Tracker.Tracker.ReadPatternName | src/osgART/Tracker/ARToolKit4/ARToolKit4Tracker.cpp:174-177 | The blank-line loop yields the name and stream position of `ReadName`: by `ReadNameSkipsBlankLine` and `ReadNameAt`, the first line that is not blank once trimmed, cut at its end, with reading resumed after its newline. |
| ARToolKit4Tracker.Tracker.SetupMarkers | src/osgART/Tracker/ARToolKit4/ARToolKit4Tracker.cpp:151-216 | An unopened file fails and changes nothing. Otherwise the registry gains exactly the markers of the manifest's entries up to the first failure, in file order, and the result is true exactly when no entry failed. |
| ARToolKit4Tracker.Tracker.Update | src/osgART/Tracker/ARToolKit4/ARToolKit4Tracker.cpp:327-387 | With no image, or when the detector fails, no marker and no count changes. Otherwise the count of detections is recorded, and the registry becomes the frame's update of every marker, in order. |
| ARToolKit4Tracker.Tracker.CreateUndistortedMesh | src/osgART/Tracker/ARToolKit4/ARToolKit4Tracker.cpp:394-436 | The geometry's vertices, texture coordinates and primitive sets are extended by exactly the mesh's vertices, texture coordinates and strips, and nothing else is changed. |
| ARToolKit4Tracker.Tracker.AppendStripVertices | src/osgART/Tracker/ARToolKit4/ARToolKit4Tracker.cpp:409-431 | The column loop appends exactly row r's strip of vertices and texture coordinates. |

## Left out

- `init` (camera parameter loading, handle creation, the call of `setupMarkers`) and `setProjection`: they are calls into ARToolKit and the OpenGL helper library, neither of which is part of this model. `distFactor` stands for the camera's distortion parameters that `init` loads.
- `getDebugImage`, `setDebugMode` and `getDebugMode`, with the `arDebug` global. The constructor sets `debugMode` to the default, and nothing else in the model reads it.
- The `osgART` field map, reference counting, the destructor and all `std::cerr` / `std::cout` logging.
- Floating point: vertex positions are reals, and the division and square root of `Observer2Ideal` are uninterpreted functions (`FloatOps`). Rounding, the float casts of the mesh and the `float`/`double` width of the arguments are not modelled.
- The `double` fields of a SINGLE entry are kept as the text of their tokens: converting a decimal string to a double is not modelled, and the loader oracle receives the tokens. A field read that fails at end-of-file passes the empty string, where the program passes an uninitialised `double`. This happens when a SINGLE line is cut short, or when `>>` keeps the type SINGLE past the last entry.
- A count larger than the number of entries: when the last entry is followed by a newline, the loop reads one more entry before end-of-file, with an empty name and the type kept from the entry before, as the program does (lines 171-204). For MULTI that is `Entry("", "MULTI", "", "", "")`, the program's extra `addMultiMarker("")`. `ManifestEntriesAt` covers only manifests whose count equals the number of entries.
- `ReadInt`: a failed `>>` into an int sets the stream's fail state. Only the count is read as an int, so a failed read yields 0 and the loop does not run. The model does not track the fail state for the later `>>` of the double fields, which are read as words.
- The stream's fail state, and so a loader that never ends. A SINGLE field that is not a number (line 188) sets the fail state without end-of-file. Every later `getline` (line 176) then fails without setting end-of-file, so the blank-line loop (line 175) never ends when another entry is announced. A count above `INT_MAX` (line 165) does the same. The model reads on and always terminates.
- The confidence `cf` of a detection is a C++ `double`, modelled as a real: a NaN, which no comparison selects, is not modelled.
- The file-open step is the `Option` given to `SetupMarkers`; `close` is not modelled.
- The branch of `update` for a marker that is neither single nor multi (line 384): a marker in this model is always one of the two kinds.
- `GenericTracker::setImageRaw` is not part of this model. `SetImageRaw` assumes it records the image and its format. The initial value of `m_imageptr_format` also belongs to `GenericTracker`: the model assumes it starts as no format (`None`), so the first `SetImageRaw` always translates. The call of `arSetPixelFormat` and its error message (lines 317-320) are not modelled.
- `arDetectMarker` is a parameter. On an error the model assumes it leaves `m_marker_num` unchanged.
- `AR_DEFAULT_LABELING_THRESH` is taken to be 100 and `AR_DEFAULT_DEBUG_MODE` to be off: the ARToolKit headers that define them are not part of this model.
- The internals of the marker classes (`initialise`, `update`, `getPatternID`): `initialise` is the `Loader` oracle, and each `update` is recorded as the marker's list of inputs or frames.
- The marker count, the returned index and the loop counters are unbounded integers: no `int` or `unsigned int` overflow is modelled.
- The mesh's primitive sets start at `r * 2 * (cols + 1)` however many vertices the geometry already held. The model keeps this; `StripsTile` and `StripCoversBand` describe a geometry that starts empty.
- The `dynamic_cast` of the geometry's arrays is assumed to succeed.
- `trim` only cuts the end of its argument, because the copy `r` is what loses the leading characters. So the pattern name the loader passes on keeps any leading spaces. The model follows the code in this.
- Manifest.ReadInt and Manifest.ReadEntry: their own contracts state only how they move through the text. What they read is stated by separate lemmas for texts of a given layout: `ReadIntAt` and `ReadIntFrom` for the count, `ReadEntryAt` for one entry, `EntriesAt` and `ManifestEntriesAt` for a whole manifest of well-formed entries.
- `ManifestEntriesAt` covers manifests whose entries are well-formed: one space between fields, names that neither start nor end with a space. Other layouts, such as blank lines between entries or names with outer spaces, are read by the same definitions, but no lemma states their entries.
