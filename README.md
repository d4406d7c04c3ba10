# TMRT-raytracer scene decoding, modelled in Dafny

TMRT-raytracer traces rays through a triangle/quad mesh on the GPU. Before
any kernel runs, the host layer (`TMRTLayer`) turns four flat binary streams
into the records it uploads:

- `vertices_data`: four floats per vertex (position, then a temperature).
  `parseVerticies` makes one `Vertex` from each complete group. The vertex is
  coloured blue-ish `(0.2, 0.2, 1.0)` when the temperature is above 300 and
  grey `(0.3, 0.3, 0.3)` otherwise.
- `indices_data`: 1-based vertex references in groups of four `(a, b, c, x)`.
  `x == 0xFFFFFFFF` (`GLuint(-1)`) marks a triangle; any other `x` is the
  fourth corner of a quad.
  - `parseIndices` emits a 0-based triangle index list: `(a, b, c)` and, for a
    quad, `(a, c, x)`. For every triangle it emits, it writes a facet normal
    into the triangle's last vertex, in place.
  - `parseFacets` reads the same stream again and makes one `Facet` per
    complete group. A facet holds its corner positions, `p4 = (-1, -1, -1)`
    for a triangle, the current normal of its third corner, and an id counted
    from 0.
- `material_data`: one specular/diffuse tag per facet, copied in by
  `OnAttach`.
- `rays_data`: three floats per ray. `parseRays` makes one `Ray` per complete
  group, with that group as its origin and every other field zero.

After tracing, `saveRays` writes, for every ray in order, three 32-bit `int`s:
`firstHitID`, `lastHitID` and `bounce`.

The project models these steps in the source's own imperative form:

- **Methods with loops over arrays.** `ParseIndices` mutates the vertex array
  in place. `ParseFacets` uses a four-slot scratch array. The material pass
  updates the facet array in place.
- **Specification functions.** Each method is proved equal to a function
  defined by recursion over the stream's groups: `IndexList`, `Renormal`,
  `Facets`, `ResultWords`.
- **Lemmas about those functions.**
  - Lengths and counts.
  - Stream splitting.
  - Positions are preserved.
  - Last writer wins: an independent write log is compared against the
    in-place array.
  - The facet normal is the last normal written to its third corner.
  - The result file decodes back to the rays' hit fields.

The modules are:

- `TMRTTypes`: the records of `TMRTLayer.h`, GLuint arithmetic and the constants.
- `SceneParsing`: `parseRays` and `parseVerticies`.
- `IndexDecoding`: `parseIndices`.
- `FacetExtraction`: `parseFacets` and the material pass.
- `SceneLoading`: the decoding part of `OnAttach`.
- `ResultExport`: the encoding loop of `saveRays`.

The decoders behave as follows:

- **Group stride.** The decoders use a fixed stride of four: the group counter
  resets after every fourth value, whatever that value is.
- **Trailing values.** `parseIndices` does not drop a trailing incomplete
  group. Its one to three values are still pushed, minus one, onto the index
  list. If the group has exactly three values, their triangle's normal is
  still written. `parseFacets` emits nothing for such a group.
- **Out-of-range references.** A reference outside `1..n` is not reported as
  an error. The code dereferences it unchecked, which is undefined behaviour.
  The model therefore makes "every dereferenced reference is in range" a
  precondition: `MeshIndexable` for `parseIndices`, `FacetIndexable` for
  `parseFacets`.

GLuint is a 32-bit unsigned newtype, and `data[i] - 1` is written out as `Dec`,
which wraps 0 to `0xFFFFFFFF`. The facet id `f.size()` is truncated to 32 bits.
The `int` written by `saveRays` is the two's-complement reinterpretation
`ToInt32`.

## Model

| member | source | states |
|---|---|---|
| `TMRTTypes.ToInt32` | TMRT-raytracer/src/TMRTLayer.cpp:350-355 | the `int` a GLuint field becomes is congruent to it mod 2^32, and converting back gives the same GLuint |
| `SceneParsing.ParseRays` | TMRT-raytracer/src/TMRTLayer.cpp:30-39 | one ray per complete group of three floats; ray i has origin `(d[3i], d[3i+1], d[3i+2])` and every other field zero |
| `SceneParsing.Colour` | TMRT-raytracer/src/TMRTLayer.cpp:58 | the colour is the hot colour iff the scalar is above 300, and the grey iff it is not |
| `SceneParsing.ParseVertices` | TMRT-raytracer/src/TMRTLayer.cpp:52-62 | one vertex per complete group of four floats; its position is the first three floats, its colour is hot iff the fourth is above 300 (grey otherwise), and its normal is zero |
| `IndexDecoding.IndexListLength` | TMRT-raytracer/src/TMRTLayer.cpp:64-87 | every complete group is a triangle or a quad; the index list has 3 entries per triangle, 6 per quad and 1 per trailing value |
| `IndexDecoding.IndexListSplit` | TMRT-raytracer/src/TMRTLayer.cpp:67-85 | decoding whole groups and then anything else gives the concatenation of the two decodings |
| `IndexDecoding.RenormalKeepsPositions` | TMRT-raytracer/src/TMRTLayer.cpp:64-87 | parseIndices never changes a vertex's position or colour |
| `IndexDecoding.MeshIndexableSplit` | TMRT-raytracer/src/TMRTLayer.cpp:67-85 | whole groups followed by anything else can be dereferenced iff both parts can |
| `IndexDecoding.RenormalSplit` | TMRT-raytracer/src/TMRTLayer.cpp:67-85 | the vertex array is threaded through the groups in stream order: processing a prefix of whole groups, then the rest, is processing the whole stream |
| `IndexDecoding.ParseIndices` | TMRT-raytracer/src/TMRTLayer.cpp:64-87 | returns exactly `IndexList(data)` (each group's triangle `(a,b,c)`, plus `(a,c,x)` for a quad, 0-based, then the trailing values minus one) and leaves the vertex array equal to `Renormal` of the old one |
| `IndexDecoding.PushCorner` | TMRT-raytracer/src/TMRTLayer.cpp:68-73 | a group's first three values are pushed minus one; the third also stores the triangle's normal in its last vertex, and the first two change no vertex |
| `IndexDecoding.CloseGroup` | TMRT-raytracer/src/TMRTLayer.cpp:74-84 | a sentinel fourth value changes nothing; any other fourth value x pushes `(a, c, x)` and stores that triangle's normal in x |
| `IndexDecoding.CloseGroupIndices` | TMRT-raytracer/src/TMRTLayer.cpp:75-78 | after the fourth value, the index list is the earlier groups' list followed by this group's indices |
| `IndexDecoding.StoreTriangleNormal` | TMRT-raytracer/src/TMRTLayer.cpp:79 | only the normal of the triangle's last vertex changes, to the facet normal of its three positions |
| `IndexDecoding.LastWriteAppend` | TMRT-raytracer/src/TMRTLayer.cpp:67-85 | in a log of writes, a later part overrides an earlier one for every vertex it writes |
| `IndexDecoding.WritesReadPositions` | TMRT-raytracer/src/TMRTLayer.cpp:70 | the normals written depend only on the vertices' positions, never on their normals or colours |
| `IndexDecoding.GroupLastWrite` | TMRT-raytracer/src/TMRTLayer.cpp:70-79 | one group's in-place writes agree with its two-entry write log; a vertex outside the log is untouched |
| `IndexDecoding.LastWriterWins` | TMRT-raytracer/src/TMRTLayer.cpp:64-87 | after parseIndices, vertex j's normal is the last normal the write log records for j, or its original normal; a vertex no triangle ends at is unchanged |
| `FacetExtraction.Id` | TMRT-raytracer/src/TMRTLayer.cpp:100 | the id is the facet count itself whenever that count fits in a GLuint |
| `FacetExtraction.MeshIsFacetIndexable` | TMRT-raytracer/src/TMRTLayer.cpp:89-119 | every reference parseFacets dereferences is one parseIndices already dereferenced, so a stream safe for parseIndices is safe for parseFacets |
| `FacetExtraction.FacetsFrom` | TMRT-raytracer/src/TMRTLayer.cpp:93-117 | exactly one facet per complete group; a trailing incomplete group yields none |
| `FacetExtraction.FacetsAt` | TMRT-raytracer/src/TMRTLayer.cpp:93-117 | facet k is made from the k-th group, with id k, the positions of its corners, `p4` the fourth corner's position for a quad and `(-1,-1,-1)` for a triangle, and the normal of its third corner |
| `FacetExtraction.FacetIndexableSplit` | TMRT-raytracer/src/TMRTLayer.cpp:93-117 | whole groups followed by anything else can be dereferenced by parseFacets iff both parts can |
| `FacetExtraction.FacetsSplit` | TMRT-raytracer/src/TMRTLayer.cpp:93-117 | the facets of whole groups followed by more are the two parts' facets, the second part's ids following on from the first's |
| `FacetExtraction.ParseFacets` | TMRT-raytracer/src/TMRTLayer.cpp:89-119 | returns exactly `Facets(vertices, data)` and reads but does not change the vertex array |
| `FacetExtraction.AssignMaterials` | TMRT-raytracer/src/TMRTLayer.cpp:172-174 | facet i gets specular tag `material[i]` and keeps every other field |
| `SceneLoading.FacetNormalIsLastWrite` | TMRT-raytracer/src/TMRTLayer.cpp:168-170 | because parseFacets runs after parseIndices, facet k's normal is the last normal written to its third corner by any triangle of the whole stream, not necessarily its own |
| `SceneLoading.LaterTriangleOverrides` | TMRT-raytracer/src/TMRTLayer.cpp:168-170 | with two triangles `(1,2,3)` and `(4,5,3)`, facet 0 carries the second triangle's normal |
| `SceneLoading.LoadScene` | TMRT-raytracer/src/TMRTLayer.cpp:168-176 | the scene after decoding: vertex positions from the float stream and colours chosen by `Colour` (hot above 300, grey otherwise), each normal the last write to it (zero if none), the index list, one facet per complete group with its material, and the rays |
| `ResultExport.ResultWords` | TMRT-raytracer/src/TMRTLayer.cpp:349-356 | the result file holds three words per ray |
| `ResultExport.EncodeResults` | TMRT-raytracer/src/TMRTLayer.cpp:349-356 | the saveRays loop writes exactly `ResultWords(result)` |
| `ResultExport.ResultWordsAt` | TMRT-raytracer/src/TMRTLayer.cpp:350-355 | words 3i, 3i+1 and 3i+2 are ray i's firstHitID, lastHitID and bounce, as `int` |
| `ResultExport.DecodeEncode` | TMRT-raytracer/src/TMRTLayer.cpp:349-356 | reading the file back three words at a time recovers every ray's three hit fields, in order |

## Left out

- `LoadBinaryFile` (file I/O): the four streams are parameters of `LoadScene`.
- File writing in `saveRays`: the byte layout of each `int` and the file
  itself are not modelled. The model stops at the sequence of 32-bit words.
- Reading the results back from the GPU buffer in `saveRays`: the read-back
  rays are a parameter of `EncodeResults`.
- The GPU side of `OnAttach` and the layer's other members (`OnUpdate`,
  `OnImGuiRender`, `Reset`, `Execute`, `updateFPS`), and `hash`: the shader
  storage buffers, compute kernels, camera, UI and timing are outside the
  host-side decoding.
- `computeFacetNormal`: a cross product and a normalisation in floating point.
  It is the parameter `nf`, and the model places no constraint on it. The results
  hold for any normal function.
- Floating point: floats are reals. NaN, rounding and the `float` comparison
  `> 300.0f` on non-finite values are not modelled.
- `FacetExtraction.ParseFacets`: `Facet fc` is declared without
  initialisation, so its `specular` field is indeterminate until the material
  pass. The model gives it 0. After `OnAttach`'s material loop every facet's
  tag is defined, and that is what `LoadScene` states.
- `FacetExtraction.AssignMaterials`: the source's loop counter is a signed
  `int` compared with `facets.size()`. Counts above 2^31 are not modelled.
- `ResultExport.EncodeResults`: the saveRays loop counter is a signed `int`
  compared with `result.size()`. Counts above 2^31 rays are not modelled.
- `SceneParsing.ParseVertices` and `SceneLoading.LoadScene`: the zero initial
  normal assumes that `vertices.resize` value-initialises the normal to
  `(0, 0, 0)`. That depends on the rendering library's `Vertex` definition,
  which is not part of this model.
- The vertex record of the rendering library may carry more fields than
  position, colour and normal. The decoder touches only these three, so only
  these are modelled.
- `LoadScene` copies the parsed vertex and facet sequences into arrays. This
  stands for the source's `std::vector`s, which are passed by reference.
- `App.cpp`: application start-up is not part of this model.
