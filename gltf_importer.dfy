/**
 * Session state of the glTF importer: which source it loads from (a file name,
 * or a stream with a URI loader and a binary flag), the per-animation enable
 * flags, the selected camera, the index-keyed caches of cameras, textures and
 * actors, and the temporal information it reports for an animation.
 *
 * The document loader and the renderer stay opaque: a loaded document is
 * represented only by what these operations consult (its version string, its
 * animations' names and time ranges, and its number of cameras), and cameras, textures,
 * actors, streams and URI loaders are opaque handles.
 */
module GLTFImporter {
  import opened Wrappers
  import GLTFAsset

  datatype ResourceStream = ResourceStream(id: nat)
  datatype URILoader = URILoader(id: nat)
  datatype Camera = Camera(id: nat)
  datatype Texture = Texture(id: nat)
  datatype Actor = Actor(id: nat)

  /** An animation of the loaded document: its name and the time range its channels span. */
  datatype Animation = Animation(name: string, startTime: real, endTime: real)

  /** What the importer consults of a loaded document. */
  datatype Document = Document(version: string, animations: seq<Animation>, cameraCount: nat)

  /** The active source configuration: the next import reads from it. */
  datatype Source =
    | FromFile(fileName: Option<string>)
    | FromStream(stream: ResourceStream, uriLoader: Option<URILoader>, binary: bool)

  /**
   * A set stream wins over the file name; with no stream the file name is used
   * (and the binary flag plays no part).
   */
  function SelectSource(fileName: Option<string>, stream: Option<ResourceStream>,
                        uriLoader: Option<URILoader>, binary: bool): Source
  {
    match stream
    case Some(s) => FromStream(s, uriLoader, binary)
    case None => FromFile(fileName)
  }

  /** With a stream and a URI loader both set, the stream is used and the file name is ignored. */
  lemma StreamTakesPrecedence(fileName: Option<string>, otherName: Option<string>,
                              stream: ResourceStream, uriLoader: URILoader, binary: bool)
    ensures SelectSource(fileName, Some(stream), Some(uriLoader), binary)
         == SelectSource(otherName, Some(stream), Some(uriLoader), binary)
         == FromStream(stream, Some(uriLoader), binary)
  {
  }

  /** With stream and URI loader both null the file name is used, whatever the binary flag. */
  lemma NullStreamRevertsToFile(fileName: Option<string>, binary: bool, otherBinary: bool)
    ensures SelectSource(fileName, None, None, binary)
         == SelectSource(fileName, None, None, otherBinary)
         == FromFile(fileName)
  {
  }

  // ---------------------------------------------------------------------------
  // Temporal information
  // ---------------------------------------------------------------------------

  /**
   * Number of time steps of an animation at frameRate frames per second: the
   * steps are startTime + k / frameRate for k = 0, 1, ..., and both ends of the
   * range are included when they fall on a step.
   */
  function StepCount(a: Animation, frameRate: real): nat
    requires frameRate > 0.0
  {
    if a.endTime < a.startTime then 0 else ((a.endTime - a.startTime) * frameRate).Floor + 1
  }

  /** The k-th time step of an animation at frameRate. */
  function TimeStep(a: Animation, frameRate: real, k: nat): real
    requires frameRate > 0.0
  {
    a.startTime + (k as real) / frameRate
  }

  /** Every time step lies in the animation's time range. */
  lemma StepsWithinRange(a: Animation, frameRate: real, k: nat)
    requires frameRate > 0.0 && k < StepCount(a, frameRate)
    ensures a.startTime <= TimeStep(a, frameRate, k) <= a.endTime
  {
  }

  /** The steps cover the whole range: one more step would fall past its end. */
  lemma StepCountMaximal(a: Animation, frameRate: real)
    requires frameRate > 0.0
    ensures TimeStep(a, frameRate, StepCount(a, frameRate)) > a.endTime
  {
  }

  /** For a range of [0, 2] at 10 frames per second there are 21 steps, 0.0, 0.1, ..., 2.0. */
  lemma TwentyOneSteps()
    ensures StepCount(Animation("", 0.0, 2.0), 10.0) == 21
    ensures TimeStep(Animation("", 0.0, 2.0), 10.0, 20) == 2.0
  {
  }

  // ---------------------------------------------------------------------------
  // The importer
  // ---------------------------------------------------------------------------

  class Importer {
    var fileName: Option<string>
    var fileStream: Option<ResourceStream>
    var streamURILoader: Option<URILoader>
    var streamIsBinary: bool

    var cameras: map<int, Camera>
    var textures: map<int, Texture>
    var actors: map<int, seq<Actor>>
    /** The document loaded by the last successful import, if any. */
    var document: Option<Document>
    var outputsDescription: string
    var enabledAnimations: seq<bool>
    var enabledCamera: int

    var armatureActors: map<int, Actor>

    /** There is one enable flag per animation of the loaded document. */
    ghost predicate Valid()
      reads this
    {
      |enabledAnimations| == GetNumberOfAnimations()
    }

    /** A fresh importer: no source but the (null) file name, empty caches, no camera selected. */
    constructor ()
      ensures Valid()
      ensures fileName == None && fileStream == None && streamURILoader == None && !streamIsBinary
      ensures ActiveSource() == FromFile(None)
      ensures cameras == map[] && textures == map[] && actors == map[] && armatureActors == map[]
      ensures document == None && outputsDescription == ""
      ensures enabledAnimations == [] && enabledCamera == -1 && !UsesImporterCamera()
    {
      fileName := None;
      fileStream := None;
      streamURILoader := None;
      streamIsBinary := false;
      cameras := map[];
      textures := map[];
      actors := map[];
      document := None;
      outputsDescription := "";
      enabledAnimations := [];
      enabledCamera := -1;
      armatureActors := map[];
    }

    // -- source selection -----------------------------------------------------

    method SetFileName(name: Option<string>)
      modifies this`fileName
      ensures fileName == name && GetFileName() == name
    {
      fileName := name;
    }

    function GetFileName(): (name: Option<string>)
      reads this
      ensures name == fileName
    {
      fileName
    }

    /** The source the next import reads from. */
    function ActiveSource(): Source
      reads this
    {
      SelectSource(fileName, fileStream, streamURILoader, streamIsBinary)
    }

    method SetInputStream(stream: Option<ResourceStream>, uriLoader: Option<URILoader>, binary: bool)
      modifies this`fileStream, this`streamURILoader, this`streamIsBinary
      ensures fileStream == stream && streamURILoader == uriLoader && streamIsBinary == binary
      ensures stream.Some? ==> ActiveSource() == FromStream(stream.value, uriLoader, binary)
      ensures stream.None? && uriLoader.None? ==> ActiveSource() == FromFile(fileName)
    {
      fileStream := stream;
      streamURILoader := uriLoader;
      streamIsBinary := binary;
    }

    // -- import -----------------------------------------------------------------

    /**
     * Binds a document delivered by the loader from ActiveSource(). Only 2.x
     * assets are accepted; a rejected document leaves the whole state as it was.
     * An accepted one empties the caches (to be filled again by ImportActors,
     * ImportCameras and ImportLights) and starts with every animation disabled.
     */
    method Import(doc: Document) returns (ok: bool)
      requires Valid()
      modifies this`document, this`enabledAnimations, this`cameras, this`textures, this`actors,
               this`armatureActors
      ensures Valid()
      ensures ok == GLTFAsset.IsSupportedVersion(doc.version)
      ensures !ok ==> document == old(document) && enabledAnimations == old(enabledAnimations)
                      && cameras == old(cameras) && textures == old(textures)
                      && actors == old(actors) && armatureActors == old(armatureActors)
      ensures ok ==> document == Some(doc) && cameras == map[] && textures == map[]
                     && actors == map[] && armatureActors == map[]
      ensures ok ==> enabledAnimations == seq(|doc.animations|, _ => false)
      ensures ok ==> forall i :: 0 <= i < |doc.animations| ==> !IsAnimationEnabled(i)
    {
      ok := GLTFAsset.IsSupportedVersion(doc.version);
      if ok {
        document := Some(doc);
        enabledAnimations := seq(|doc.animations|, _ => false);
        cameras := map[];
        textures := map[];
        actors := map[];
        armatureActors := map[];
      }
    }

    // -- animations ---------------------------------------------------------------

    function GetNumberOfAnimations(): (n: nat)
      reads this
      ensures document.None? ==> n == 0
      ensures document.Some? ==> n == |document.value.animations|
    {
      match document
      case Some(d) => |d.animations|
      case None => 0
    }

    /** The flag of animation i; false for an index that names no animation. */
    function IsAnimationEnabled(i: int): (r: bool)
      reads this
      ensures r ==> 0 <= i < |enabledAnimations| && enabledAnimations[i]
      ensures Valid() && r ==> 0 <= i < GetNumberOfAnimations()
      ensures Valid() && 0 <= i < GetNumberOfAnimations() ==> (r <==> enabledAnimations[i])
    {
      0 <= i < |enabledAnimations| && enabledAnimations[i]
    }

    method EnableAnimation(i: int)
      requires Valid()
      modifies this`enabledAnimations
      ensures Valid()
      ensures 0 <= i < GetNumberOfAnimations() ==> enabledAnimations == old(enabledAnimations)[i := true]
      ensures !(0 <= i < GetNumberOfAnimations()) ==> enabledAnimations == old(enabledAnimations)
      ensures IsAnimationEnabled(i) <==> 0 <= i < GetNumberOfAnimations()
      ensures forall k :: k != i ==> IsAnimationEnabled(k) == old(IsAnimationEnabled(k))
    {
      if 0 <= i < |enabledAnimations| {
        enabledAnimations := enabledAnimations[i := true];
      }
    }

    method DisableAnimation(i: int)
      requires Valid()
      modifies this`enabledAnimations
      ensures Valid()
      ensures 0 <= i < GetNumberOfAnimations() ==> enabledAnimations == old(enabledAnimations)[i := false]
      ensures !(0 <= i < GetNumberOfAnimations()) ==> enabledAnimations == old(enabledAnimations)
      ensures !IsAnimationEnabled(i)
      ensures forall k :: k != i ==> IsAnimationEnabled(k) == old(IsAnimationEnabled(k))
    {
      if 0 <= i < |enabledAnimations| {
        enabledAnimations := enabledAnimations[i := false];
      }
    }

    /**
     * Temporal information of an animation. The C++ method's reference
     * parameters become in-parameters (their values on entry) and out-parameters
     * (their values on return): what is not set keeps its value on entry.
     */
    method GetTemporalInformation(animationIndex: int, frameRate: real, nbTimeSteps: int,
                                  timeRange: (real, real), timeSteps: seq<real>)
      returns (present: bool, nbTimeSteps': int, timeRange': (real, real), timeSteps': seq<real>)
      ensures present <==> 0 <= animationIndex < GetNumberOfAnimations()
      ensures !present ==> nbTimeSteps' == nbTimeSteps && timeRange' == timeRange && timeSteps' == timeSteps
      ensures present ==>
                var a := document.value.animations[animationIndex];
                timeRange' == (a.startTime, a.endTime)
      ensures present && frameRate <= 0.0 ==> nbTimeSteps' == nbTimeSteps && timeSteps' == timeSteps
      ensures present && frameRate > 0.0 ==>
                var a := document.value.animations[animationIndex];
                nbTimeSteps' == StepCount(a, frameRate) && |timeSteps'| == nbTimeSteps'
                && (forall k :: 0 <= k < |timeSteps'| ==>
                      timeSteps'[k] == TimeStep(a, frameRate, k)
                      && a.startTime <= timeSteps'[k] <= a.endTime)
    {
      present := 0 <= animationIndex < GetNumberOfAnimations();
      nbTimeSteps', timeRange', timeSteps' := nbTimeSteps, timeRange, timeSteps;
      if present {
        var a := document.value.animations[animationIndex];
        timeRange' := (a.startTime, a.endTime);
        if frameRate > 0.0 {
          var n := StepCount(a, frameRate);
          var steps: seq<real> := [];
          var k := 0;
          while k < n
            invariant 0 <= k <= n
            invariant |steps| == k
            invariant forall m :: 0 <= m < k ==>
                        steps[m] == TimeStep(a, frameRate, m) && a.startTime <= steps[m] <= a.endTime
          {
            StepsWithinRange(a, frameRate, k);
            steps := steps + [a.startTime + (k as real) / frameRate];
            k := k + 1;
          }
          nbTimeSteps', timeSteps' := n, steps;
        }
      }
    }

    // -- cameras ------------------------------------------------------------------

    function GetNumberOfCameras(): (n: nat)
      reads this
      ensures document.None? ==> n == 0
      ensures document.Some? ==> n == document.value.cameraCount
    {
      match document
      case Some(d) => d.cameraCount
      case None => 0
    }

    /** Whether the importer drives a camera; a negative selection means it drives none. */
    predicate UsesImporterCamera()
      reads this
    {
      enabledCamera >= 0
    }

    /**
     * Selects camera camIndex. An index past the document's cameras is refused
     * and the previous selection is kept; any negative index selects no camera.
     */
    method SetCamera(camIndex: int)
      modifies this`enabledCamera
      ensures camIndex < GetNumberOfCameras() ==> enabledCamera == camIndex
      ensures camIndex >= GetNumberOfCameras() ==> enabledCamera == old(enabledCamera)
      ensures camIndex < 0 ==> !UsesImporterCamera()
      ensures 0 <= camIndex < GetNumberOfCameras() ==> UsesImporterCamera()
    {
      if camIndex < GetNumberOfCameras() {
        enabledCamera := camIndex;
      }
    }

    /** The cached camera of document camera id, or null when there is none. */
    function GetCamera(id: nat): (r: Option<Camera>)
      reads this
      ensures r.Some? <==> id in cameras
      ensures r.Some? ==> r.value == cameras[id]
    {
      if id in cameras then Some(cameras[id]) else None
    }

    // -- object caches, as ImportActors, ImportCameras and ImportLights fill them -

    /** Registers the live camera of a document camera; a second registration at an index replaces the first. */
    method CacheCamera(index: nat, camera: Camera)
      modifies this`cameras
      ensures cameras == old(cameras)[index := camera]
      ensures GetCamera(index) == Some(camera)
      ensures forall id: nat :: id != index ==> GetCamera(id) == old(GetCamera(id))
    {
      cameras := cameras[index := camera];
    }

    /**
     * The texture of a document texture index: the cached one when there is one,
     * otherwise `created`, which is cached. One instance per index.
     */
    method TextureFor(index: int, created: Texture) returns (t: Texture)
      modifies this`textures
      ensures index in textures && textures[index] == t
      ensures index in old(textures) ==> t == old(textures[index]) && textures == old(textures)
      ensures index !in old(textures) ==> t == created && textures == old(textures)[index := created]
    {
      if index in textures {
        t := textures[index];
      } else {
        t := created;
        textures := textures[index := created];
      }
    }

    /** The actors of node index, in the order they were added; none for an unbound node. */
    function ActorsOf(index: int): seq<Actor>
      reads this
    {
      if index in actors then actors[index] else []
    }

    /** Appends one more actor (one per mesh primitive) to node index's actor list. */
    method AppendActor(index: int, actor: Actor)
      modifies this`actors
      ensures actors == old(actors)[index := old(ActorsOf(index)) + [actor]]
      ensures ActorsOf(index) == old(ActorsOf(index)) + [actor]
      ensures forall k :: k != index ==> ActorsOf(k) == old(ActorsOf(k))
    {
      actors := actors[index := ActorsOf(index) + [actor]];
    }

    /** Registers the armature proxy actor of a skinned node; a second registration replaces the first. */
    method CacheArmatureActor(index: int, actor: Actor)
      modifies this`armatureActors
      ensures armatureActors == old(armatureActors)[index := actor]
      ensures forall k :: k != index ==> (k in armatureActors <==> k in old(armatureActors))
      ensures forall k :: k != index && k in armatureActors ==> armatureActors[k] == old(armatureActors)[k]
    {
      armatureActors := armatureActors[index := actor];
    }

    function GetOutputsDescription(): (s: string)
      reads this
      ensures s == outputsDescription
    {
      outputsDescription
    }
  }
}
