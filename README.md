# A verified model of the path tracer's exact core

The renderer reads a scene and its render settings from small XML files. It
bakes the scene's objects into a flat byte buffer, traces rays through it
with a recursive path integrator, supersamples every pixel, optionally
smooths the picture with a 3x3 Gaussian blur and writes the result as a
plain-text Portable Pixmap ("P3"). This project models the exact,
sequential parts of that pipeline in Dafny and proves what they promise:

- **Tag-structured text** (`Text`, `Tools`).
  - `std::string::find` and `std::to_string` are modelled with their specifications.
  - `removeComments` is an index-walking loop proved against `StripFrom`.
  - `parse_xml_bracket` is split into its tag scan, its key/value loop and its child loop. Each is a method proved against a function.
  - Where the source meets `npos` and computes on with the wrapped index, the model returns an `XmlError`.
- **Scene assembly** (`SceneAssembly`).
  - The `Scene` class holds the growing `objects` and `materials` lists and the diagnostics reported on the error stream.
  - Its methods are proved against folds over the parsed children.
  - `parseVec3`, `std::stof` and `eulerToRad` stay uninterpreted terms (`ParseVec3`, `Stof`, `EulerToRad`).
- **Scene baker** (`MemPrep`).
  - `bake_into_memory` writes one 108-byte record per object into an `array<byte>` with `memcpy`s at fixed offsets.
  - Payloads are opaque byte sequences.
- **Render settings and PPM header** (`Settings`, `RenderTools`).
  - `RenderSettings` is a class whose constructors validate the channel depth.
  - The header is a string function. A reader for the header is the partner of the round-trip lemmas.
- **Path integrator** (`Tracing`, `Cameras`).
  - `Camera.FullTrace` is the recursive tracer as a method over the `rngSeed` field. It is proved equal to the functional `Trace`, which returns the colour together with the seed it leaves behind.
  - The geometry the integrator calls but does not decide on is the `Env` parameter: the collision test on a record, mirroring, scattering, the sky gradient and the pixel-to-ray mapping.
  - The baked scene as the camera reads it is a `seq<real>`, 28 floats per record, with colour at float offset 20, intensity at 24 and diffuse at 25.
- **Render pass** (`Imaging`, `Pixmap`).
  - `RenderImage` fills a 2-D array by calling the kernel, blurs its interior into a second array and strings each row with a clamped `"%d %d %d "` per pixel, as `snprintf` into 12 bytes leaves it.
  - It then joins the header of `generate_PPM_header` and the rows with newlines. The corrected file, whose read-back is proved in full, is stated beside it (see Findings).
  - The kernel is a pure `Picture` here, because the pixels are computed by parallel threads that share the camera's seed. The smoothed buffer's border is never written and is the `border` parameter.

Colours are `real` vectors; float rounding, NaN and infinities are not
modelled except where a finding below says so.

## Model

| member | source | states |
|---|---|---|
| Text.Find | tools.h:37-49 | `s.find(pat, from)`: a found index lies at or after `from`, and the pattern fits in the text |
| Text.FindSpec | tools.h:37-49 | `find` returns the first occurrence at or after `from`, and fails only when there is none |
| Text.IndexOf | tools.h:85-91 | `find` for one character: a found index holds that character |
| Text.IndexOfSpec | tools.h:85-91 | the one-character search skips only other characters and fails only when none is left |
| Text.FindOneChar | tools.h:116-126 | searching for a one-character string is searching for that character |
| Text.Decimal | rendertools.h:8-10 | `std::to_string`: non-empty, digits only for non-negative values, a leading '-' otherwise, no space or newline |
| Text.DecimalRoundTrip | rendertools.h:8-10 | every `int` printed by `to_string` reads back as itself |
| Text.BelowTotal | Include/scene.h:88 | `std::string`'s order, in which `std::map` iterates its keys, relates any two distinct strings |
| Text.BelowTransitive | Include/scene.h:88 | that order is transitive |
| Text.LeastExists | Include/scene.h:121 | every non-empty key set has a least key, so iteration over a parameter map always has a next key |
| Tools.RemoveComments | tools.h:30-62 | the loop's result is `StripFrom(input, 0)`: text before each "<!--" kept, each span through the first following "-->" dropped, an unterminated "<!--" kept with the rest |
| Tools.NoCommentUnchanged | tools.h:37-42 | input without any "<!--" comes back unchanged |
| Tools.UnterminatedKept | tools.h:49-55 | an unterminated "<!--" and everything after it are copied verbatim |
| Tools.StripNotLonger | tools.h:35-60 | the output is never longer than the input, and at least five characters shorter when a complete comment is removed |
| Tools.StripOneComment | tools.h:46-58 | `before + "<!--" + body + "-->" + after` becomes `before + after` for comment-free parts; the unit test's input is an instance |
| Tools.ShortestComment | tools.h:49 | the close search starts at the opening itself, so "a<!-->b" becomes "ab" |
| Tools.StripTail | tools.h:38-42 | with no "<!--" left, the rest is copied as it is |
| Tools.TagName | tools.h:100-110 | the tag name is the tag's text up to the first space, or all of it, and holds no space |
| Tools.PairAt | tools.h:116-130 | one key/value turn: the key holds no '=', the value no '"', and the next key lies strictly further on |
| Tools.ScanPair | tools.h:116-130 | the method for one turn of the parameter loop computes `PairAt` |
| Tools.ParseParameters | tools.h:112-131 | the parameter loop computes `ParamsFrom` from the first key |
| Tools.ParamPair | tools.h:121-130 | a `key="value"` pair lands in the map with the text between the quotes; the loop then ends or continues after the space |
| Tools.RepeatedKeyKeepsLast | tools.h:125 | a repeated key keeps its last value |
| Tools.ParamsWellFormed | tools.h:116-125 | no parsed key contains '=' and no parsed value contains '"' |
| Tools.ChildEnd | tools.h:150-176 | a child ends just after the first "</name>" found from its own '>', inside the body and on a '>' |
| Tools.ScanChild | tools.h:150-173 | the scan for one child's end computes `ChildEnd` |
| Tools.CollectChildren | tools.h:147-180 | the child loop computes `ChildrenFrom(body, 0, [])` |
| Tools.TurnsInOrder | tools.h:147-180 | child i opens at the first '<' from the end of child i-1 (from the loop's start for the first) and ends where `ChildEnd` says, so the children lie in document order, o_0 < e_0 <= o_1 < e_1 <= ..., inside the body; no '<' follows the last child |
| Tools.TurnsGiveChildren | tools.h:147-180 | for any such sequence of spans the child loop succeeds, and its children are exactly the substrings `body[o_i..e_i]`, in order, after those already collected |
| Tools.ChildrenHaveTurns | tools.h:147-180 | whenever the child loop succeeds, a sequence of such spans exists that cuts out exactly its children |
| Tools.TurnsUnique | tools.h:147-180 | the spans are unique: the body alone fixes where every child begins and ends |
| Tools.ParseTag | tools.h:97-132 | the tag scan yields `TagName` and `TagParameters` of the opening tag's text |
| Tools.ParseElementAt | tools.h:97-182 | once the opening tag is delimited, the rest of the parse computes `ParseElement` |
| Tools.ParseXmlBracket | tools.h:82-183 | `parse_xml_bracket` computes `ParseBracket`: the tag name, the parameter map and the raw children, or the first `npos` it meets as an error |
| Tools.ParseAll | Include/scene.h:24-26 | each child text parsed on its own, one result per text |
| Tools.OpeningTag | tools.h:85-97 | an input that starts with its opening tag is parsed as the element that tag opens |
| Tools.OneParameterTag | tools.h:100-131 | the tag `name key="value"` has name `name` and the single parameter `key` = `value` |
| Tools.LeafChild | tools.h:147-180 | the body `<c></c>` yields exactly that one child |
| Tools.ParseNodeWithChild | Tests/tests_tools.cpp:84-90 | `<name key="value"><child></child></name>` parses to tag `name`, parameters {key: value} and exactly one child |
| SceneAssembly.FirstWithId | Include/scene.h:186-192 | the index found holds the id and no earlier material does; none is found only when no material holds it |
| SceneAssembly.ResolveFirst | Include/scene.h:186-191 | `getMaterial` returns the first material with the id, and nothing is reported |
| SceneAssembly.ResolveNone | Include/scene.h:193-194 | an unknown id yields "MISSING" with zero colour, intensity and diffuse, and is reported |
| SceneAssembly.Defaults | Include/scene.h:83-86 | a sphere's radius defaults to 1, "size" sets all three scale components to one value, and a material defaults to id "", reflection 0, roughness 0 |
| SceneAssembly.ReadSphere | Include/scene.h:117-139 | the sphere's parameter loop, in `std::map` key order, yields position, radius (default 1) and material id |
| SceneAssembly.ReadPlane | Include/scene.h:146-179 | the plane's loop yields position, rotation, scale and material id; "size" wins over "scale" because it sorts later |
| SceneAssembly.PlaneKey | Include/scene.h:153-174 | one key of the plane's loop updates exactly the field it names |
| SceneAssembly.ScaleBeforeSize | Include/scene.h:162-170 | "scale" sorts before "size" |
| SceneAssembly.ReadMaterial | Include/scene.h:83-110 | a material's loop yields id, colour, reflection and roughness, with defaults "", unset, 0, 0 |
| SceneAssembly.ObjectsFoldShape | Include/scene.h:52-70 | `ParseObjects` appends exactly the built objects in order and changes neither the materials nor the camera blocks |
| SceneAssembly.OneObjectPerShape | Include/scene.h:54-64 | each Sphere or Plane child appends exactly one object, in order |
| SceneAssembly.BuiltResolvesAgainst | Include/scene.h:140 | every appended object carries "MISSING" or a material from the list it was resolved against |
| SceneAssembly.MaterialsFoldShape | Include/scene.h:74-113 | `ParseMaterials` appends exactly the built materials in order and leaves the objects alone |
| SceneAssembly.OneMaterialPerChild | Include/scene.h:76-111 | each parsed child appends exactly one material, whatever its tag |
| SceneAssembly.RootStepGrows | Include/scene.h:24-44 | a root child never removes objects or materials |
| SceneAssembly.RootFoldGrows | Include/scene.h:24-45 | the lists after any prefix of the root's children are prefixes of the final lists |
| SceneAssembly.ObjectsSeeEarlierMaterials | Include/scene.h:24-40 | objects in an `<objects>` block can only resolve to "MISSING" or a material declared before that block |
| SceneAssembly.UnknownTagReported | Include/scene.h:41-44 | an unknown root child only adds a report |
| SceneAssembly.MissingBlockReported | Include/scene.h:46-49 | a missing camera or objects block only adds a report after the children are processed |
| SceneAssembly.DefinesNext | Include/scene.h:27-36 | the `defined_objects` and `defined_camera` flags become true exactly at a child with that tag |
| SceneAssembly.Scene.Blank | Include/scene.h:210 | `Scene()`: no objects, materials, camera blocks or reports |
| SceneAssembly.Scene.FromContent | Include/scene.h:205-209 | the constructor parses the content into an empty scene |
| SceneAssembly.Scene.ParseFromContent | Include/scene.h:14-50 | `parseFromFile` given the content: comments removed, root parsed and assembled (`Parse`) |
| SceneAssembly.Scene.AssembleRoot | Include/scene.h:18-49 | the root check, the loop over the children and the final missing-block report (`Assemble`) |
| SceneAssembly.Scene.DispatchChild | Include/scene.h:26-44 | one root child dispatched on its tag (`RootStep`) |
| SceneAssembly.Scene.ParseObjects | Include/scene.h:52-70 | the state becomes `ObjectsFold` over the parsed children |
| SceneAssembly.Scene.ParseCamera | Include/scene.h:72 | the call is recorded with its parameter map |
| SceneAssembly.Scene.ParseMaterials | Include/scene.h:74-113 | the state becomes `MaterialsFold` over the parsed children |
| SceneAssembly.Scene.CreateSphere | Include/scene.h:115-142 | one sphere appended, its material resolved among the materials so far (`AddSphere`) |
| SceneAssembly.Scene.CreatePlane | Include/scene.h:144-182 | one plane appended (`AddPlane`) |
| SceneAssembly.Scene.GetMaterial | Include/scene.h:184-195 | the linear search returns `Resolve(materials, id)`, leaves both lists alone and reports only a missing id |
| MemPrep.BakeIntoMemory | memprep.h:7-40 | the buffer has `108 * count` bytes and equals `Baked`: each record written at `108 * i` over the uninitialised contents |
| MemPrep.WriteRecord | memprep.h:13-37 | one turn's `memcpy`s write exactly record i's fields and keep its untouched bytes |
| MemPrep.Copy | memprep.h:15 | a `memcpy` splices its bytes in and changes nothing else |
| MemPrep.BakeStep | memprep.h:11-38 | after record i is written, the buffer is the bake of the first i + 1 records |
| MemPrep.RecordSlice | memprep.h:11-13 | record i occupies bytes [108i, 108i + 108), in list order |
| MemPrep.FieldPlaced | memprep.h:15-37 | each written field sits at its fixed offset: type +0, position +4, scale +20, normal +36, localX +52, localY +68, colour +84, intensity +100, diffuse +104 |
| MemPrep.FieldBytes | memprep.h:15-37 | each byte of a written field is the field's byte at the same position |
| MemPrep.FieldInside | memprep.h:15-37 | every field ends inside the 108-byte record |
| MemPrep.FieldsDisjoint | memprep.h:15-37 | the field ranges are pairwise disjoint |
| MemPrep.FieldAtCovers | memprep.h:15-37 | a record offset belongs to a field exactly when it lies in that field's range |
| MemPrep.PaddingUncovered | memprep.h:15-16 | bytes 1-3 of a record belong to no field |
| MemPrep.PaddingKept | memprep.h:15-16 | bytes 1-3 of every record keep the buffer's previous contents |
| MemPrep.PlaneFieldsSkipped | memprep.h:20-28 | for an object that is not a plane, bytes +36..+84 keep their previous contents |
| MemPrep.OtherRecordsUnchanged | memprep.h:11-38 | replacing object i changes no byte outside record i |
| MemPrep.MemcpysWriteRecord | memprep.h:15-37 | the sequence of `memcpy`s writes the whole record, skipping the plane frame when it is not a plane |
| RenderTools.Shl1 | rendertools.h:10 | `1 << depth` is at least 1 |
| RenderTools.GeneratePpmHeader | rendertools.h:7-10 | `generate_PPM_header` as written: the header reads back as width, height and `1 << depth` |
| RenderTools.PpmHeader | rendertools.h:7-10 | the corrected header reads back as width, height and `(1 << depth) - 1`, the scale the samples are multiplied by at Include/camera.h:198 |
| RenderTools.HeaderShape | rendertools.h:7-10 | the header starts with "P3 ", ends with one newline and has no other newline |
| RenderTools.HeaderRoundTrip | rendertools.h:7-10 | width, height and the last field, each in decimal and space-separated, read back from the header |
| RenderTools.HeaderOneAboveMaxSample | rendertools.h:10 | as written, the last field is 256 for 8 bits and 65536 for 16 bits, one above the largest sample |
| RenderTools.HeaderAnnouncesMaxSample | rendertools.h:7-10 | the corrected header reads back as width, height and (1 << depth) - 1, which is 255 or 65535 |
| Settings.KindOf | rendersettings.h:51-59 | the file constructor recognises exactly "resolution", "depth" and "outputpath" |
| Settings.CheckedDepth | rendersettings.h:30-35 | the stored depth is 8 or 16: the given one exactly when that is 8 or 16, and the default 8 otherwise |
| Settings.DepthLog | rendersettings.h:30-34 | an error is reported exactly when the depth is neither 8 nor 16 |
| Settings.Report | rendersettings.h:48-50 | a setting is reported only when it does not parse |
| Settings.ReportedGrows | rendersettings.h:48-60 | the loop only appends reports, at most one per setting |
| Settings.ReportedQuiet | rendersettings.h:48-60 | the loop reports nothing exactly when every setting parses |
| Settings.WellFormedLoadsQuietly | rendersettings.h:42-60 | a well-formed file with a `<rendersettings>` root reports nothing |
| Settings.WrongRootReported | rendersettings.h:44-47 | a wrong root is reported first, and the children are still processed |
| Settings.RenderSettings.Default | rendersettings.h:15-20 | resolution {1920, 1080}, path "render.ppm", depth 8 |
| Settings.RenderSettings.constructor | rendersettings.h:26-36 | resolution and path stored unchanged; depth 8 or 16 kept, any other replaced by 8 and reported |
| Settings.RenderSettings.FromContent | rendersettings.h:40-61 | no field is assigned: empty resolution and path, depth as uninitialised; only reports are produced |
| Settings.RenderSettings.LoadRoot | rendersettings.h:44-60 | the root check and the loop change no setting and append `RootLog` |
| Settings.RenderSettings.ReadSetting | rendersettings.h:50-59 | one setting is parsed and recognised but changes no field |
| Tracing.Scan | Include/camera.h:37-51 | the scan's choice, if any, is one of the records scanned |
| Tracing.ScanSpec | Include/camera.h:33-51 | no choice exactly when no record has a valid finite hit; the chosen hit is valid, no valid hit is strictly closer, and it is strictly closer than every earlier valid hit, so the first of equal hits wins |
| Tracing.NearestUnique | Include/camera.h:41 | a record with those properties is the one the scan chooses |
| Tracing.TraceDecisions | Include/camera.h:53-135 | a miss shows the sky at 0.5 * dir.y + 0.5; a hit whose diffuse value (float offset 25 of its record) is negative shows its colour (offset 20) whatever the budget; otherwise a hit with no bounces left is black and one with bounces left is shaded from the surface with colour at offset 20 and intensity at offset 24 |
| Tracing.Trunc | Include/camera.h:81 | the cast to `int` truncates toward zero |
| Tracing.Clamped | Include/camera.h:75 | the scatters used are `max(1, scatters)`: unchanged when positive, 1 otherwise |
| Tracing.RunsTotal | Include/camera.h:81-106 | for intensity in [0, 1] the specular loop runs trunc(s * intensity) + 1 times and both loops run s + 1 times in all |
| Tracing.RunsForShare | Include/camera.h:81-106 | for intensity in [0, 1) both loops run at least once |
| Tracing.TraceBounded | Include/camera.h:30-136 | in a scene whose sky, colours and shares lie in [0, 1], every traced colour lies in [0, 1] |
| Tracing.ShadeBounded | Include/camera.h:77-129 | the shaded colour of such a hit lies in [0, 1] |
| Tracing.PoolBounded | Include/camera.h:84-118 | the sum of n recursive contributions lies in [0, n] |
| Tracing.MeanBounded | Include/camera.h:120-122 | averaging a sum in [0, n] over n rays gives a colour in [0, 1] |
| Tracing.MixBounded | Include/camera.h:125-127 | mixing two colours in [0, 1] by a share in [0, 1] stays in [0, 1] |
| Tracing.MeanAsWritten | Include/camera.h:121-122 | as written, the average is undefined (a float NaN) exactly when the divisor is 0, which happens only when that pool cast no ray; a pool with a negative divisor also casts no ray, yet its average is a defined zero |
| Tracing.ShadeAsWritten | Include/camera.h:120-129 | as written, when the result is defined it is the corrected `Shade` |
| Tracing.PerfectMirrorIsNaN | Include/camera.h:81-129 | for intensity 1 the diffuse loop never runs and the source's colour is undefined |
| Tracing.PerfectMirrorReflects | Include/camera.h:81-103 | corrected: for intensity 1 the colour is the mean of the s + 1 specular rays |
| Tracing.OffsetInside | Include/camera.h:519-522 | each sub-pixel offset (i + 0.5) / steps lies strictly inside the pixel |
| Tracing.Row | Include/camera.h:520-528 | a row of the supersample grid has `steps` points |
| Tracing.GridSize | Include/camera.h:517-529 | the grid has steps * steps points |
| Tracing.GridAt | Include/camera.h:517-529 | point i * steps + j of the grid is the sub-pixel (i, j), rows first |
| Tracing.FoldSnoc | Include/camera.h:527 | tracing one more sub-pixel adds it after the earlier ones |
| Tracing.CellsFold | Include/camera.h:520-528 | the inner loop traces the points of row i in order |
| Tracing.RowsFold | Include/camera.h:517-529 | the nested loops trace exactly the grid's points, in order |
| Tracing.SupersampleBounded | Include/camera.h:509-533 | in a bounded scene the supersampled pixel lies in [0, 1] |
| Cameras.Camera.constructor | Include/camera.h:160-172 | the budget is copied from the render settings and the seed is (2004, 69, 42, 82) |
| Cameras.Camera.NearestHit | Include/camera.h:33-51 | the loop finds a valid collision exactly when `Scan` chooses a record, and then returns that record's hit and float offset 28k |
| Cameras.Camera.FullTrace | Include/camera.h:30-136 | the colour and the new seed are `Trace` of the ray, budget and old seed |
| Cameras.Camera.ShadeHit | Include/camera.h:74-129 | clamp, specular count, both loops and the mix are `Shade` |
| Cameras.Camera.CastRays | Include/camera.h:84-118 | a scatter loop from `from` to `to` runs max(0, to - from) times and equals `Pool`, each call with one bounce less |
| Cameras.Camera.KernelFull | Include/camera.h:509-533 | the kernel's colour and new seed are `Supersample`: the steps * steps grid traced in order and averaged |
| Cameras.Camera.SampleRows | Include/camera.h:517-529 | the outer loop is `Rows` over the sub-pixel rows |
| Cameras.Camera.SampleRow | Include/camera.h:520-528 | the inner loop is `Cells` over row i |
| Cameras.Camera.SampleAt | Include/camera.h:522-527 | one sub-pixel ray is traced with the camera's budget and added |
| Pixmap.Channel | Include/camera.h:289-291 | a channel is clamped to [0, 255] |
| Pixmap.ChannelTruncates | Include/camera.h:289-291 | a channel is the integer part of a sample in [0, 256), 0 below 1 and 255 from 255 on |
| Pixmap.RgbOf | Include/camera.h:289-291 | every printed pixel has its three channels in [0, 255] |
| Pixmap.RgbOfInRange | Include/camera.h:289-291 | inside [0, 255] the clamp leaves the truncated value |
| Pixmap.DecimalWidth | Include/camera.h:293 | a channel prints in one, two or three digits by its magnitude |
| Pixmap.PixelText | Include/camera.h:293 | a pixel's text ends in a space and holds no newline |
| Pixmap.PixelWidth | Include/camera.h:270-293 | a pixel's text fits in 12 characters, and takes all 12 exactly when every channel is at least 100 |
| Pixmap.PixelTextAsWritten | Include/camera.h:293 | as written, the 12-byte `snprintf` keeps the length of a printable pixel's text, so `buf_ptr` advances by the full length |
| Pixmap.AsWrittenDiffers | Include/camera.h:293 | as written, the pixel text is wrong exactly when every channel is at least 100, and then its last character is NUL |
| Pixmap.WhitePixelHasNul | Include/camera.h:293 | a white pixel prints as "255 255 255\0" instead of "255 255 255 " |
| Pixmap.PixelRoundTrip | Include/camera.h:293 | the corrected pixel text reads back as the pixel |
| Pixmap.RowTextOneLine | Include/camera.h:295 | a row's text holds no newline |
| Pixmap.RowTextSnoc | Include/camera.h:277-295 | one more pixel appends its text to the row |
| Pixmap.RowRoundTrip | Include/camera.h:274-296 | a row's text reads back as its pixels |
| Pixmap.LinesSnoc | Include/camera.h:315-318 | joining one more row appends it and a newline |
| Pixmap.LinesRoundTrip | Include/camera.h:315-318 | rows without newlines are recovered by splitting the joined text at newlines |
| Pixmap.RowAsWrittenSnoc | Include/camera.h:277-295 | as written, one more pixel appends its `snprintf` text to the row |
| Pixmap.RowAsWrittenAgrees | Include/camera.h:277-295 | a row of printable pixels is stored as intended exactly when none of its pixels has all three channels at 100 or more |
| Pixmap.PpmAsWrittenRoundTrip | Include/camera.h:197-318 | a header followed by the rows as written reads back as the header's fields and the pixels whenever no pixel has all three channels at 100 or more |
| Pixmap.ReadRowsRoundTrip | Include/camera.h:274-296 | the texts of all rows read back as the rows |
| Pixmap.PpmRoundTrip | Include/camera.h:197 | a header followed by the joined row texts reads back as the header's fields and the pixel rows |
| Imaging.ExposedBounded | Include/camera.h:198 | a kernel colour in [0, 1] times the channel scale lies in [0, scale] |
| Imaging.WeightIsGaussian | Include/camera.h:237-240 | the weights are 1, 2, 1 / 2, 4, 2 / 1, 2, 1 over 16 |
| Imaging.WeightsSumToOne | Include/camera.h:237-240 | the nine weights sum to 1 |
| Imaging.TapsFlat | Include/camera.h:249-256 | over a flat neighbourhood the partial blur sum is the colour times the partial weight sum |
| Imaging.TapsMonotone | Include/camera.h:249-256 | the partial blur sum is monotone in the pixels |
| Imaging.BlurOfFlat | Include/camera.h:247-258 | blurring a flat neighbourhood returns its colour |
| Imaging.BlurAtLeast | Include/camera.h:247-258 | the blur is at least any lower bound of the neighbourhood |
| Imaging.BlurAtMost | Include/camera.h:247-258 | the blur is at most any upper bound of the neighbourhood |
| Imaging.BlurBounded | Include/camera.h:247-258 | a neighbourhood in [0, b] blurs into [0, b] |
| Imaging.FillImage | Include/camera.h:211-228 | a w by h array whose cell (x, y) is the kernel's colour times the channel scale |
| Imaging.BlurAt | Include/camera.h:247-256 | the two kernel loops compute the Gaussian blur of the 3x3 neighbourhood |
| Imaging.SmoothRow | Include/camera.h:245-259 | one row's loop writes the blur into columns 1..w-2 of row y and nothing else |
| Imaging.SmoothImage | Include/camera.h:243-260 | only interior cells, x in [1, w-2] and y in [1, h-2], are written with the blur; the border keeps its uninitialised contents |
| Imaging.RowPixelsAt | Include/camera.h:277-291 | pixel x of a row is the clamped colour at (x, y) |
| Imaging.RowString | Include/camera.h:276-295 | one row's loop strings the pixels left to right, each as `snprintf` with 12 bytes leaves it |
| Imaging.StringRows | Include/camera.h:268-297 | the stored row strings of the whole image, one per row, with the truncation of Include/camera.h:293 |
| Imaging.JoinRows | Include/camera.h:315-318 | the file text is the header followed by every row and a newline, top to bottom |
| Imaging.RenderImage | Include/camera.h:195-318 | the file text is the header of `generate_PPM_header`, then the rows as written of the developed picture: blurred interior and uninitialised border when smoothing, the exposed kernel otherwise |
| Imaging.PixelsAt | Include/camera.h:274-296 | pixel (x, y) of the rows is the clamped colour at (x, y) |
| Imaging.RenderedPixel | Include/camera.h:278-291 | each printed pixel is the exposed kernel colour, its blur in the interior when smoothing, or the border when smoothing at the edge |
| Imaging.RenderAsWrittenReadsBack | Include/camera.h:197-318 | when no printed pixel has all three channels at 100 or more, the written file reads back as width, height, `1 << depth` and exactly the printed pixels |
| Imaging.RenderedRowAsIntended | Include/camera.h:274-296 | a stored row equals its intended text exactly when none of its pixels has all three channels at 100 or more |
| Imaging.RenderReadsBack | Include/camera.h:197-318 | the corrected file, with header maximum `(1 << depth) - 1` and a space after every pixel, reads back as width, height, that maximum and exactly the printed pixels |
| Imaging.ExposedPrintsTruncated | Include/camera.h:198-291 | at 8 bits a kernel colour in [0, 1] prints as its components times 255, truncated |
| Imaging.SmoothedBounded | Include/camera.h:243-258 | an interior blurred pixel of a kernel in [0, 1] lies in [0, scale] |

## Left out

- `readFile`, the output file write and the timing output (`std::cout`, `omp_get_wtime`) are I/O. The model takes the file content as a parameter and returns the output text.
- The OpenMP parallel loops are sequential loops here. The kernel passed to `RenderImage` is a pure `Picture`, because the pixels' threads share the camera's `rng_seed`, and their order of use is not determined.
- The `npos` branches of `parse_xml_bracket` print a message and then compute on with a wrapped-around index. The model stops with an `XmlError` instead. The same goes for a '=' without a following '"'. This covers self-closing tags such as `<material .../>` too.
- Diagnostics are kept as a list of values, not as text on the error stream. The per-key "unknown parameter" messages of `ParseMaterials`, `CreateSphere` and `CreatePlane` are not recorded.
- `ParseCamera` is only declared in Include/scene.h, and its body is not part of this model. Its call is recorded with its parameter map.
- `parseVec3`, `std::stof`, `eulerToRad` and `Vec3` arithmetic are uninterpreted terms.
- The camera's collision test, mirroring, scattering, the sky gradient and `GenerateRayFromPixel` are parameters (`Env`). The baked scene the camera reads is a `seq<real>`; reading the baked bytes as floats is not modelled.
- Floats are `real`s: no rounding, NaN or infinity except as stated under Findings. Converting a float outside `int`'s range to `int` is undefined in C++ and is not modelled (`Trunc` is total).
- `aligned_alloc`, `malloc` and `free` are left out. `MemPrep.BakeIntoMemory` requires the buffer size to be a multiple of 16, which `aligned_alloc(16, ...)` needs. The uninitialised contents are a `garbage` parameter.
- `object_type`'s in-memory representation is an opaque byte sequence with its first byte copied.
- RenderTools.Shl1: only depths 0 to 30 are modelled, where `1 << depth` does not overflow an `int`.
- Cameras.Camera.FullTrace: requires a non-negative bounce budget. The budget is never validated; with a negative one the source never meets `bounces == 0` (Include/camera.h:69) and recurses until every ray escapes, which need not end in a closed scene. `KernelFull` carries the same requirement, and `ShadeHit` and `CastRays`, reached only past that test, require at least one bounce. The traced colour uses the corrected average `Mean`, so where a pool of a hit has divisor 0 the model gives zero and the source NaN, which spreads into every enclosing ray's sum and into the pixel. `ShadeAsWritten` marks only the hit's own pools: a NaN from a deeper bounce is not carried.
- Cameras.Camera.KernelFull: with zero supersampling steps the source multiplies a zero sum by `1.0f / 0` (NaN), where the model returns zero. With negative steps neither loop runs and `steps * steps` is positive, so both return zero.
- Imaging.RenderImage: requires a non-negative width and height. With a negative height `vector<std::string> rows(resolution[1])` (Include/camera.h:206) throws; with a negative width the pixel loops run zero times and the header still prints the width. Neither case is modelled. It also requires `resolution` to hold at least two entries: settings loaded from a file (`Settings.RenderSettings.FromContent`) never assign `resolution`, so it stays empty, and `resolution[0]` and `resolution[1]` at Include/camera.h:206-211 then index an empty vector, which is undefined behaviour.
- RenderTools.GeneratePpmHeader: requires `resolution` to hold at least two entries. With the empty `resolution` of file-loaded settings, `rs.resolution[0]` at rendertools.h:8 is undefined behaviour, which is not modelled. `RenderTools.PpmHeader` carries the same requirement.
- Cameras.Camera.constructor: the position, look-at, field of view, look direction and skybox colours are not modelled. The tracing budget (`bounces`, `scatterbase`, `scatterredux`) and `supersampling_steps` are parameters, since those fields of `RenderSettings` are not declared in rendersettings.h.
- Settings.RenderSettings.FromContent: `channel_depth` is never initialised there, and the model leaves it as the `indeterminate` parameter.
- `kernel_colorTest` and the other render kernels are not modelled; `RenderImage` takes any kernel.

## Findings

| source | as written | input that shows it | evidently intended | confidence | as-written member | corrected member |
|---|---|---|---|---|---|---|
| rendertools.h:10 | the header's maximum sample field is `1 << channel_depth` | depth 8 writes 256, but the samples are scaled by (1 << 8) - 1 = 255 (Include/camera.h:198) | `(1 << channel_depth) - 1`, which is 255 or 65535 | not executed | RenderTools.HeaderOneAboveMaxSample | RenderTools.HeaderAnnouncesMaxSample |
| Include/camera.h:121-129 | the diffuse average divides by `1 + scatters - scatters_specular`, which is 0 for intensity 1 | a hit on a material with reflection 1.0: 0 * (1 / 0) gives NaN in every channel; with s scatters the diffuse divisor is 0 for every reflection in [1, 1 + 1/s), and the specular divisor is 0 when s * reflection lies in (-2, -1] | a perfect mirror returns the mean of its specular rays | not executed | Tracing.PerfectMirrorIsNaN | Tracing.PerfectMirrorReflects |
| Include/camera.h:293 | `snprintf(buf_ptr, 12, "%d %d %d ", ...)` truncates a 12-character pixel to 11 and a NUL, yet advances by 12 | pixel (255, 255, 255) prints "255 255 255\0", so the row holds NULs and no separating space | every pixel prints as "r g b " | not executed | Pixmap.WhitePixelHasNul | Pixmap.PixelRoundTrip |
