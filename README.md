# Textured sphere source and glTF importer session state

This project models two small cores of VTK (the Visualization Toolkit) in Dafny
and proves properties of them.

**Textured sphere source** (`textured_sphere.dfy`, module `TexturedSphere`).
`vtkTexturedSphereSource` builds a UV sphere. Its constructor raises the
resolution (8 by default) to at least 4 and uses it for both directions, with
radius 0.5.
`RequestData` emits one point, one normal and one texture coordinate for each
sample of a theta-major grid of `(ThetaResolution+1) × (PhiResolution+1)`
samples. It then emits two triangles for each of the `ThetaResolution ×
PhiResolution` grid cells, computing their point ids with integer arithmetic in
a three-slot buffer. The model keeps the floating-point coordinates abstract.
Each emitted point, normal and texture coordinate is represented by the grid
sample `GridSample(i, j)` it is computed from. Everything discrete is modelled
exactly: the counts, the index layout, the connectivity formulas, and the facts
that every vertex id is in range and that no triangle repeats a vertex.
`RequestData` runs the two loop nests of `vtkTexturedSphereSource::RequestData` in order, each as a method of
its own: `GeneratePoints` appends the samples to sequences, and
`GenerateConnectivity` rewrites a local `pts` array of three ids in place before
each triangle, as `vtkTexturedSphereSource::RequestData` does. Their postconditions tie the result to the
specification functions `SphereSamples` and `Connectivity`, and the lemmas
beside them state the layout and the connectivity.

**glTF importer** (`gltf_importer.dfy`, module `GLTFImporter`; `gltf_asset.dfy`,
module `GLTFAsset`). `vtkGLTFImporter` is a class whose fields hold a small
session state, modelled as the class `Importer` with those fields:
- the source choice: a file name, or a stream with a URI loader and a binary flag;
- one enable flag per animation;
- the selected camera, where a negative value means the importer drives no camera;
- the index-keyed caches of cameras, textures, actor lists and armature actors.

Its methods carry the contracts that the header's comments document. These
cover source precedence and the revert-to-file rule, enabling and disabling
animations, camera selection, and the temporal information reported for an
animation. The loaded document is opaque. It is represented only by its
`asset.version` string, its animations' names and time ranges, and its camera
count.
`GLTFAsset` states the format rule: an asset is imported only when its version
(the `"<major>.<minor>"` string of section 3.2 of the Khronos glTF 2.0
specification) has major version 2. It also states the KHR_lights_punctual
rule: a spot light's cone angle is its `outerConeAngle`, and its
`innerConeAngle` is ignored. `wrappers.dfy` holds the `Option` type. It stands
for the C++ class's nullable pointers.

The importer's implementation file, IO/Import/vtkGLTFImporter.cxx, is not part
of this model, so several behaviours are this model's own choices. Each choice follows the header's wording and is listed
under "Left out":
- out-of-range indices;
- the step-count convention of `GetTemporalInformation`;
- what an import resets;
- which source a null stream with a non-null URI loader selects;
- the exact grammar of the version string.

Where the header's comments disagree with its code, the model follows the code.
The comment on `GetCamera` (IO/Import/vtkGLTFImporter.h:101-103) says that the
asset's first camera is applied by default. The field initializer
`EnabledCamera = -1` (IO/Import/vtkGLTFImporter.h:199) means, by the comment on
`SetCamera`, that no importer camera is used. The model starts with
`enabledCamera == -1` and `!UsesImporterCamera()`. Likewise, the class comment
(IO/Import/vtkGLTFImporter.h:24-25) says that the importer does not support
animations, yet the class declares and overrides the animation interface
(IO/Import/vtkGLTFImporter.h:117-134 and 152-161) and keeps the
`EnabledAnimations` field (IO/Import/vtkGLTFImporter.h:198). The model follows
that interface.

## Model

| member | source | states |
|---|---|---|
| TexturedSphere.TexturedSphereSource.constructor | Filters/Sources/vtkTexturedSphereSource.cxx:30-43 | both resolutions equal the requested one (8 when none is given) raised to at least 4; radius 0.5, Theta = Phi = 0, single-precision points |
| TexturedSphere.NewDefaultSource | Filters/Sources/vtkTexturedSphereSource.cxx:30-31 | a source built without a resolution has the default resolution 8 in both the Theta and the Phi direction, and radius 0.5 |
| TexturedSphere.TexturedSphereSource.RequestData | Filters/Sources/vtkTexturedSphereSource.cxx:65-163 | the points are the theta-major sample grid and number `(P+1)*(T+1)`; one normal and one texture coordinate per point, of the same sample; the triangles are `Connectivity(P, T)`, number `2*P*T`, and every vertex id indexes the point buffer; no triangle repeats a vertex id |
| TexturedSphere.GeneratePoints | Filters/Sources/vtkTexturedSphereSource.cxx:110-145 | the point loops emit exactly the theta-major sample grid `SphereSamples(P, T)`, with one normal and one texture coordinate of the same sample per point |
| TexturedSphere.GenerateConnectivity | Filters/Sources/vtkTexturedSphereSource.cxx:146-162 | the connectivity loops, rewriting the three-slot `pts` buffer before each insert, emit exactly `Connectivity(P, T)` |
| TexturedSphere.GridLength | Filters/Sources/vtkTexturedSphereSource.cxx:110-126 | `r` theta rows of `P+1` samples give `(P+1)*r` points |
| TexturedSphere.GridAt | Filters/Sources/vtkTexturedSphereSource.cxx:110-126 | sample (i, j) of the first `r` rows sits at index `(P+1)*i + j` |
| TexturedSphere.SphereLayout | Filters/Sources/vtkTexturedSphereSource.cxx:110-126 | the point buffer has `numPts` entries and the point of theta step i, phi step j is at `(P+1)*i + j` |
| TexturedSphere.SphereSampleAt | Filters/Sources/vtkTexturedSphereSource.cxx:110-126 | conversely, entry k of the point buffer is the sample (k div (P+1), k mod (P+1)), so the layout is a bijection |
| TexturedSphere.CellTriangles | Filters/Sources/vtkTexturedSphereSource.cxx:154-161 | a cell gives two triangles of pairwise distinct ids that share the diagonal edge |
| TexturedSphere.CellFormula | Filters/Sources/vtkTexturedSphereSource.cxx:154-161 | with `base = (P+1)*i + j` the triangles of cell (i, j) are `(base, base+1, base+P+2)` and `(base, base+P+2, base+P+1)` |
| TexturedSphere.BandLength | Filters/Sources/vtkTexturedSphereSource.cxx:152-162 | n cells of a band give 2n triangles |
| TexturedSphere.ConnectivityLength | Filters/Sources/vtkTexturedSphereSource.cxx:149-163 | the connectivity loops emit `P*2*T` triangles, which is `numPolys` |
| TexturedSphere.ConnectivityAt | Filters/Sources/vtkTexturedSphereSource.cxx:149-163 | the triangles of cell (i, j) are entries `2*(P*i+j)` and `2*(P*i+j)+1`, for every i < T and j < P |
| TexturedSphere.CellInRange | Filters/Sources/vtkTexturedSphereSource.cxx:154-160 | both triangles of a cell in band i < T index into `numPts` points |
| TexturedSphere.ConnectivityInRange | Filters/Sources/vtkTexturedSphereSource.cxx:154-160 | every vertex id of every emitted triangle lies in `[0, numPts)` |
| TexturedSphere.BandDistinct | Filters/Sources/vtkTexturedSphereSource.cxx:152-162 | every triangle of a theta band has three pairwise distinct vertex ids |
| TexturedSphere.ConnectivityDistinct | Filters/Sources/vtkTexturedSphereSource.cxx:149-163 | every emitted triangle has three pairwise distinct vertex ids |
| TexturedSphere.ConnectivityEntry | Filters/Sources/vtkTexturedSphereSource.cxx:149-163 | conversely, entry k of the triangle buffer is triangle k mod 2 of cell ((k div 2) div P, (k div 2) mod P), so every entry comes from exactly the cell the loops visit |
| TexturedSphere.SphereWellFormed | Filters/Sources/vtkTexturedSphereSource.cxx:70-74 | the point and triangle counts equal `numPts` and `numPolys`, every triangle indexes the points, and no triangle repeats a vertex id |
| GLTFImporter.StreamTakesPrecedence | IO/Import/vtkGLTFImporter.h:83-98 | with a stream and a URI loader set, the stream is the source and the file name does not matter |
| GLTFImporter.NullStreamRevertsToFile | IO/Import/vtkGLTFImporter.h:89-96 | with stream and URI loader both null the file name is the source, whatever the binary flag |
| GLTFImporter.Importer.constructor | IO/Import/vtkGLTFImporter.h:188-205 | null file name, stream and loader, binary false, empty caches and flags, `EnabledCamera == -1` (no importer camera) |
| GLTFImporter.Importer.SetFileName | IO/Import/vtkGLTFImporter.h:75-81 | sets the file name and nothing else; `GetFileName` then returns it |
| GLTFImporter.Importer.GetFileName | IO/Import/vtkGLTFImporter.h:80 | returns the stored file name: null on a fresh importer (constructor), and `n` after `SetFileName(n)` |
| GLTFImporter.Importer.SetInputStream | IO/Import/vtkGLTFImporter.h:83-98 | stores stream, loader and flag; a stream becomes the active source, null stream and loader make the file name the active source |
| GLTFImporter.Importer.Import | IO/Import/vtkGLTFImporter.h:27 | a document is accepted iff its version is 2.x; a rejected one changes nothing; an accepted one empties the caches and disables every animation, one flag per animation |
| GLTFImporter.Importer.GetNumberOfAnimations | IO/Import/vtkGLTFImporter.h:117-120 | 0 before a document is imported; after an accepted `Import(doc)`, the number of animations of `doc`, which `Valid()` ties to the number of enable flags |
| GLTFImporter.Importer.IsAnimationEnabled | IO/Import/vtkGLTFImporter.h:127-134 | true only for an index naming an animation whose flag is set; for a valid index it reads that animation's flag |
| GLTFImporter.Importer.EnableAnimation | IO/Import/vtkGLTFImporter.h:127-134 | afterwards the animation is enabled iff the index names one; every other flag is unchanged |
| GLTFImporter.Importer.DisableAnimation | IO/Import/vtkGLTFImporter.h:127-134 | afterwards the animation is not enabled; every other flag is unchanged |
| GLTFImporter.Importer.GetTemporalInformation | IO/Import/vtkGLTFImporter.h:152-161 | returns true iff the animation is present; then sets the time range; only when frameRate > 0 also sets the step count and the evenly spaced steps `start + k/frameRate`, all inside the range; what is not set keeps its incoming value |
| GLTFImporter.StepsWithinRange | IO/Import/vtkGLTFImporter.h:152-161 | every time step lies in the animation's time range |
| GLTFImporter.StepCountMaximal | IO/Import/vtkGLTFImporter.h:152-161 | the steps cover the range: the step after the last lies past its end |
| GLTFImporter.TwentyOneSteps | IO/Import/vtkGLTFImporter.h:152-161 | the range [0, 2] at 10 frames per second gives 21 steps, the last being 2.0 |
| GLTFImporter.Importer.GetNumberOfCameras | IO/Import/vtkGLTFImporter.h:136-139 | 0 before a document is imported; after an accepted `Import(doc)`, the camera count of `doc`, which bounds the indices `SetCamera` accepts |
| GLTFImporter.Importer.SetCamera | IO/Import/vtkGLTFImporter.h:146-150 | an index below the camera count is selected, a larger one is refused and the old selection kept; after a negative index no importer camera is used |
| GLTFImporter.Importer.GetCamera | IO/Import/vtkGLTFImporter.h:100-105 | null exactly when no camera is cached for id; after `CacheCamera(id, c)` it returns `c`, and the results for other ids are unchanged |
| GLTFImporter.Importer.CacheCamera | IO/Import/vtkGLTFImporter.h:193 | stores the camera at its index, replacing any earlier one; `GetCamera` then returns it and is unchanged elsewhere |
| GLTFImporter.Importer.TextureFor | IO/Import/vtkGLTFImporter.h:194 | an index already cached returns its texture and changes nothing; otherwise the new texture is cached at that index |
| GLTFImporter.Importer.AppendActor | IO/Import/vtkGLTFImporter.h:195 | appends to the actor list of one node index and leaves every other list unchanged |
| GLTFImporter.Importer.CacheArmatureActor | IO/Import/vtkGLTFImporter.h:205 | stores the armature actor at its node index, replacing any earlier one; the others are kept |
| GLTFImporter.Importer.GetOutputsDescription | IO/Import/vtkGLTFImporter.h:107-110 | returns the stored outputs description: empty on a fresh importer (constructor); no modelled operation changes it |
| GLTFAsset.ParseNatToString | IO/Import/vtkGLTFImporter.h:27 | reading back the decimal spelling of a version number gives the number |
| GLTFAsset.ParseFormatVersion | IO/Import/vtkGLTFImporter.h:27 | reading back a formatted `"<major>.<minor>"` version gives the version |
| GLTFAsset.SupportedVersions | IO/Import/vtkGLTFImporter.h:27 | a version `"M.m"` is supported iff M = 2 |
| GLTFAsset.ParseVersionShape | IO/Import/vtkGLTFImporter.h:27 | the version parser succeeds exactly on strings of the `VersionShaped` form: a first '.' with a non-empty digit run before it and a non-empty digit run (no further '.') after it |
| GLTFAsset.MalformedVersionRejected | IO/Import/vtkGLTFImporter.h:27 | a version string that is not `VersionShaped` is rejected |
| GLTFAsset.ThreeComponentsRejected | IO/Import/vtkGLTFImporter.h:27 | `"2.0.1"` is not of the version shape and is rejected |
| GLTFAsset.LeadingZeroAccepted | IO/Import/vtkGLTFImporter.h:27 | `"02.0"` is of the version shape, reads as version 2.0 and is accepted |
| GLTFAsset.ConeAngle | IO/Import/vtkGLTFImporter.h:38-42 | exactly spot lights have a cone angle |
| GLTFAsset.ConeAngleIgnoresInner | IO/Import/vtkGLTFImporter.h:38-42 | a spot light's cone angle is its outer cone angle, whatever its inner cone angle |

## Left out

- The sphere's sine/cosine point coordinates, the normalisation of normals and its zero-norm guard, and the two float texture coordinates. These are floating-point values. Each is represented by the grid sample it is computed from.
- The VTK pipeline plumbing of `RequestData` (information lookups, down-casts, `Allocate` hints, `SetPoints`/`SetNormals`/`SetTCoords`/`SetPolys`, reference counting). It holds no logic. The constant return value 1 is not modelled either.
- The choice of point data type from `OutputPointsPrecision`. The model keeps the field and its default but does not choose a type.
- TexturedSphere.TexturedSphereSource.RequestData: does not model 32-bit `int` overflow of `numPts`, `numPolys` or the point ids. The resolution bounds are enforced by setters that are not part of this model, so the resolutions are unbounded `nat` fields here.
- The `Theta` and `Phi` fields are set by the constructor, but `RequestData` does not read them. The model keeps the fields.
- The unimplemented capsule variant that the source describes in its TODO comments.
- `PrintSelf` in both classes. It is stream output only.
- The importer's `ImportBegin`, `ImportActors`, `ImportCameras`, `ImportLights`, `ApplySkinningMorphing`, `InitializeLoader` and `ApplyArmatureProperties`. Their bodies are not part of this model, and they depend on the document loader and the renderer. `Importer.Import` stands for the outcome of loading one document: the version check and the reset of the session state. The cache methods stand for the insertions that `ImportActors`, `ImportCameras` and `ImportLights` make into `Actors`, `Cameras`, `Textures` and `ArmatureActors`.
- `UpdateAtTimeValue`, `GetAnimationName` and `GetCameraName`. They sample or name the opaque document's contents.
- How `OutputsDescription` is built. Only the field and its getter are modelled.
- GLTFImporter.Importer.EnableAnimation: the header does not say what an out-of-range index does. The model treats such an index as a usage error and leaves the flags unchanged.
- GLTFImporter.Importer.DisableAnimation: the same choice for an out-of-range index: the flags are unchanged.
- GLTFImporter.Importer.IsAnimationEnabled: reads false for an index that names no animation; the header does not say.
- GLTFImporter.Importer.SetCamera: the header does not say what happens to an index at or past the camera count. The model refuses it and keeps the previous selection. A negative index is stored as given, and every negative value means "no importer camera".
- GLTFImporter.Importer.GetTemporalInformation: the header does not fix how many steps there are or where they fall. The model uses an inclusive convention: `floor((end - start) * frameRate) + 1` steps at `start + k / frameRate`. An animation is "present" when its index names an animation of the loaded document. Times are exact reals, not doubles.
- GLTFImporter.Importer.Import: an accepted import starts with one false flag per animation and empty caches; this is the model's choice. The camera selection `enabledCamera` is kept as it was, so after importing a document with fewer cameras a non-negative selection can lie at or past `GetNumberOfCameras()`. What `ImportBegin` actually resets is not part of this model.
- GLTFImporter.SelectSource: the header documents only that a set stream wins and that a null stream with a null URI loader reverts to the file name. The model also falls back to the file name when the stream is null but a URI loader is set; this is the model's choice.
- GLTFAsset.ParseVersion: reads the version as two non-empty decimal digit strings around the first '.' (`ParseVersionShape`). It accepts leading zeros (so "02.0" reads as 2.0, `LeadingZeroAccepted`) and rejects a sign, spaces and any further '.' (`ThreeComponentsRejected`). This grammar is the model's choice; the exact grammar the loader applies is not part of this model.
- The animation `name` field is kept for completeness; `GetAnimationName`, which reads it, is not modelled.
- Smart-pointer ownership, stream I/O, URI resolution, the `vtkDoubleArray` container and rendering. Streams, loaders, cameras, textures and actors are opaque handles.
