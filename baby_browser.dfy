/** `BabyBrowserLogic`: the configuration of the baby brain atlases, loading the
    twenty registered atlas volumes into a dictionary, and loading the 4D
    developmental atlas into a multivolume whose frames are per-voxel components.

    File system access and the image library are parameters: `load` loads one
    volume file (or fails), `readHeader` gives the NIfTI header the image
    library reads from a path, and `readFile` gives a file's bytes. */
module BabyBrowser {
  import opened Wrappers
  import opened Layout
  import opened Nifti
  import opened FrameLabels
  import opened Paths
  import opened AtlasLoading

  /** The atlas directory the constructor always sets. */
  const ATLAS_PATH := "/Users/pieper/data/babybrain"

  const VOLUME_TYPES: seq<string> := ["", "_stdev"]

  const TIME_POINTS: seq<string> := [
    "week0-1", "quarter0_excludingweek0", "quarter1", "quarter2", "quarter3",
    "year1-2", "year2-3", "year3-4", "year4-5", "year5-6"
  ]

  /** The path of the 4D developmental atlas under the atlas directory `root`. */
  function DevelopmentalPath(root: string): string {
    JoinPath(JoinPath(root, "babyBrain/MGH_ADC_Atlases_registered_4Ddramms"), "reg_allatlases_dramms4D.nii")
  }

  /** What loading the file of each key gives. */
  function Fetch<V>(root: string, load: string -> Option<V>): Key -> Option<V> {
    key => load(VolumePath(root, key))
  }

  /** The multivolume node handed to the scene: a voxel-major float image of
      `columns x rows x slices` voxels with `components` values each, its frame
      count, its name and its "MultiVolume.FrameLabels" attribute. */
  datatype MultiVolume<T> = MultiVolume(
    image: array<T>,
    columns: nat, rows: nat, slices: nat, components: nat,
    numberOfFrames: nat,
    name: string,
    frameLabels: string)

  class BabyBrowserLogic<V> {
    var atlasPath: string
    var developmentalPath: string
    var volumeTypes: seq<string>
    var timePoints: seq<string>
    var volumesByTypeAndAge: map<Key, V>

    /** The argument is overwritten before it is used, so every instance gets the
        same fixed paths, the two volume types, the ten time points and an empty dictionary. */
    constructor(atlasPathArgument: Option<string>)
      ensures atlasPath == ATLAS_PATH
      ensures developmentalPath == DevelopmentalPath(atlasPath)
      ensures volumeTypes == VOLUME_TYPES && timePoints == TIME_POINTS
      ensures volumesByTypeAndAge == map[]
    {
      atlasPath := ATLAS_PATH;
      developmentalPath := DevelopmentalPath(ATLAS_PATH);
      volumeTypes := VOLUME_TYPES;
      timePoints := TIME_POINTS;
      volumesByTypeAndAge := map[];
    }

    /** Loads the volume of every (volume type, time point) pair, volume types in
        the outer loop, into the dictionary. The first file that does not load
        stops the loop with an error naming its path; the entries stored before
        it stay in the dictionary. */
    method LoadAtlas(load: string -> Option<V>) returns (r: Result<(), string>)
      modifies this`volumesByTypeAndAge
      ensures var outcome := LoadKeys(old(volumesByTypeAndAge), AtlasKeys(volumeTypes, timePoints), Fetch(atlasPath, load));
              volumesByTypeAndAge == outcome.volumes &&
              (r.Ok? <==> outcome.failedKey.None?) &&
              (r.Err? ==> r.error == VolumePath(atlasPath, outcome.failedKey.value))
    {
      var types, points, root := volumeTypes, timePoints, atlasPath;
      ghost var fetch := Fetch(root, load);
      ghost var start := volumesByTypeAndAge;
      for i := 0 to |types|
        invariant volumeTypes == types && timePoints == points && atlasPath == root
        invariant LoadKeys(start, AtlasKeys(types[..i], points), fetch) == Outcome(volumesByTypeAndAge, None)
      {
        ghost var done := AtlasKeys(types[..i], points);
        var failedPath := LoadTimePoints(root, types[i], points, load);
        LoadKeysAppend(start, done, Row(types[i], points), fetch);
        assert types[..i + 1][..i] == types[..i];
        if failedPath.Some? {
          AtlasKeysPrefix(types, points, i + 1);
          FailedPrefix(start, AtlasKeys(types[..i + 1], points), AtlasKeys(types, points), fetch);
          return Err(failedPath.value);
        }
      }
      assert types[..|types|] == types;
      r := Ok(());
    }

    /** The inner loop of `LoadAtlas` for one volume type: loads the file of each
        time point in turn and stores it, or stops at the first file that does
        not load and gives its path. */
    method LoadTimePoints(root: string, volumeType: string, points: seq<string>, load: string -> Option<V>)
        returns (failedPath: Option<string>)
      modifies this`volumesByTypeAndAge
      ensures var outcome := LoadKeys(old(volumesByTypeAndAge), Row(volumeType, points), Fetch(root, load));
              volumesByTypeAndAge == outcome.volumes &&
              (failedPath.None? <==> outcome.failedKey.None?) &&
              (failedPath.Some? ==> failedPath.value == VolumePath(root, outcome.failedKey.value))
    {
      var registeredAtlasPath := JoinPath(root, "atlases_rigidregistered");
      ghost var fetch := Fetch(root, load);
      ghost var start := volumesByTypeAndAge;
      assert points[..0] == [];
      for j := 0 to |points|
        invariant LoadKeys(start, Row(volumeType, points[..j]), fetch) == Outcome(volumesByTypeAndAge, None)
      {
        var timePoint := points[j];
        var fileName := AtlasFileName(timePoint, volumeType);
        var volumePath := JoinPath(registeredAtlasPath, fileName);
        var node := load(volumePath);
        FetchLoadsPath(root, load, (volumeType, timePoint));
        RowExtends(volumeType, points, j);
        LoadKeysSnoc(start, Row(volumeType, points[..j]), (volumeType, timePoint), fetch);
        if node.None? {
          RowPrefix(volumeType, points, j + 1);
          FailedPrefix(start, Row(volumeType, points[..j + 1]), Row(volumeType, points), fetch);
          return Some(volumePath);
        }
        volumesByTypeAndAge := volumesByTypeAndAge[(volumeType, timePoint) := node.value];
      }
      assert points[..|points|] == points;
      failedPath := None;
    }

    /** Reads the developmental atlas: refuses a header whose data type is not
        float32, reads the payload after `vox_offset` as frame-major samples of
        shape (frames, slices, rows, columns), and copies each frame into the
        matching component of a new voxel-major image. */
    method LoadDevelopmentalAtlas<T(0)>(readHeader: string -> Header, readFile: string -> seq<byte>, decode: seq<byte> -> T)
        returns (r: Result<MultiVolume<T>, LoadError>)
      ensures var expected := ReadFrameMajor(readHeader(developmentalPath), readFile(developmentalPath), decode);
              (r.Err? <==> expected.Err?) &&
              (r.Err? ==> r.error == expected.error) &&
              (r.Ok? ==>
                 var shape := expected.value.0;
                 fresh(r.value.image) &&
                 r.value.image[..] == Repacked(shape.frames, Voxels(shape), expected.value.1) &&
                 r.value.columns == shape.columns && r.value.rows == shape.rows && r.value.slices == shape.slices &&
                 r.value.components == shape.frames && r.value.numberOfFrames == shape.frames &&
                 r.value.name == "DevelopmentalAtlas" &&
                 r.value.frameLabels == FrameLabelString(timePoints))
    {
      var header := readHeader(developmentalPath);
      if header.dataType != DT_FLOAT32 {
        return Err(UnsupportedDataType(header.dataType));
      }
      var file := readFile(developmentalPath);
      var samples := Samples(file, header.voxOffset, decode);
      if !(ExtentsValid(header) && |samples| == Size(ShapeOf(header))) {
        return Err(ReshapeFailed(|samples|, header.dim4, header.dim3, header.dim2, header.dim1));
      }
      var shape := ShapeOf(header);
      SizeIsProduct(shape);
      var image := new T[shape.columns * shape.rows * shape.slices * shape.frames];
      CopyFramesToComponents(shape.frames, Voxels(shape), samples, image);
      r := Ok(MultiVolume(image, shape.columns, shape.rows, shape.slices, shape.frames,
                          shape.frames, "DevelopmentalAtlas", FrameLabelString(timePoints)));
    }
  }

  /** The loader is asked for the registered atlas file of the key. */
  lemma FetchLoadsPath<V>(root: string, load: string -> Option<V>, key: Key)
    ensures Fetch(root, load)(key) == load(JoinPath(JoinPath(root, "atlases_rigidregistered"), AtlasFileName(key.1, key.0)))
  {
    assert VolumePath(root, key) == JoinPath(JoinPath(root, "atlases_rigidregistered"), AtlasFileName(key.1, key.0));
  }

  /** Loading one more key takes one more step. */
  lemma LoadKeysSnoc<V>(volumes: map<Key, V>, keys: seq<Key>, key: Key, fetch: Key -> Option<V>)
    ensures LoadKeys(volumes, keys + [key], fetch) == Step(LoadKeys(volumes, keys, fetch), key, fetch)
  {
    assert (keys + [key])[..|keys|] == keys;
  }

  /** Loading `a + b` is loading `a`, then, unless that failed, loading `b` into the result. */
  lemma {:induction false} LoadKeysAppend<V>(volumes: map<Key, V>, a: seq<Key>, b: seq<Key>, fetch: Key -> Option<V>)
    ensures LoadKeys(volumes, a + b, fetch) ==
            (var first := LoadKeys(volumes, a, fetch);
             if first.failedKey.Some? then first else LoadKeys(first.volumes, b, fetch))
  {
    if |b| == 0 {
      assert a + b == a;
    } else {
      var front := b[..|b| - 1];
      LoadKeysAppend(volumes, a, front, fetch);
      assert (a + b)[..|a + b| - 1] == a + front;
    }
  }

  /** The keys of one more time point extend the row. */
  lemma RowExtends(volumeType: string, timePoints: seq<string>, j: nat)
    requires j < |timePoints|
    ensures Row(volumeType, timePoints[..j + 1]) == Row(volumeType, timePoints[..j]) + [(volumeType, timePoints[j])]
  {
    assert timePoints[..j + 1][..j] == timePoints[..j];
  }

  lemma {:induction false} RowPrefix(volumeType: string, timePoints: seq<string>, j: nat)
    requires j <= |timePoints|
    ensures Row(volumeType, timePoints[..j]) <= Row(volumeType, timePoints)
  {
    if j < |timePoints| {
      var n := |timePoints| - 1;
      RowPrefix(volumeType, timePoints[..n], j);
      assert timePoints[..n][..j] == timePoints[..j];
    }
  }

  lemma {:induction false} AtlasKeysPrefix(volumeTypes: seq<string>, timePoints: seq<string>, i: nat)
    requires i <= |volumeTypes|
    ensures AtlasKeys(volumeTypes[..i], timePoints) <= AtlasKeys(volumeTypes, timePoints)
  {
    if i < |volumeTypes| {
      var n := |volumeTypes| - 1;
      AtlasKeysPrefix(volumeTypes[..n], timePoints, i);
      assert volumeTypes[..n][..i] == volumeTypes[..i];
    } else {
      assert volumeTypes[..i] == volumeTypes;
    }
  }

  /** Once loading stops, the remaining keys change nothing. */
  lemma {:induction false} FailedPrefix<V>(volumes: map<Key, V>, prefix: seq<Key>, keys: seq<Key>, fetch: Key -> Option<V>)
    requires prefix <= keys
    requires LoadKeys(volumes, prefix, fetch).failedKey.Some?
    ensures LoadKeys(volumes, keys, fetch) == LoadKeys(volumes, prefix, fetch)
  {
    if |keys| > |prefix| {
      FailedPrefix(volumes, prefix, keys[..|keys| - 1], fetch);
    } else {
      assert keys == prefix;
    }
  }

  /** The configured volume types and time points give twenty distinct keys. */
  lemma ConfiguredKeys()
    ensures |AtlasKeys(VOLUME_TYPES, TIME_POINTS)| == 20
    ensures Distinct(AtlasKeys(VOLUME_TYPES, TIME_POINTS))
    ensures |set key | key in AtlasKeys(VOLUME_TYPES, TIME_POINTS)| == 20
  {
    AtlasKeysLength(VOLUME_TYPES, TIME_POINTS);
    AtlasKeysDistinct(VOLUME_TYPES, TIME_POINTS);
    DistinctCardinality(AtlasKeys(VOLUME_TYPES, TIME_POINTS));
  }

  /** When every atlas file loads, a fresh instance ends with exactly twenty entries,
      one per configured (volume type, time point) pair. */
  lemma ConfiguredLoadFillsDictionary<V>(load: string -> Option<V>)
    requires AllLoad(AtlasKeys(VOLUME_TYPES, TIME_POINTS), Fetch(ATLAS_PATH, load))
    ensures var outcome := LoadKeys(map[], AtlasKeys(VOLUME_TYPES, TIME_POINTS), Fetch(ATLAS_PATH, load));
            outcome.failedKey.None? &&
            outcome.volumes.Keys == set key | key in AtlasKeys(VOLUME_TYPES, TIME_POINTS) &&
            |outcome.volumes| == 20
  {
    var keys := AtlasKeys(VOLUME_TYPES, TIME_POINTS);
    var fetch := Fetch(ATLAS_PATH, load);
    LoadKeysCompletes(map[], keys, fetch);
    LoadKeysEntries(map[], keys, fetch);
    ConfiguredKeys();
    assert LoadKeys(map[], keys, fetch).volumes.Keys == set key | key in keys;
  }

  /** The frame-label attribute of the configured time points. */
  lemma ConfiguredFrameLabels()
    ensures FrameLabelString(TIME_POINTS) == Quoted(TIME_POINTS)
  {
    ConfiguredNamesPlain();
    FrameLabelsOfPlainNames(TIME_POINTS);
  }

  /** No configured time point needs quotes or escapes in its `repr`. */
  lemma ConfiguredNamesPlain()
    ensures forall k :: 0 <= k < |TIME_POINTS| ==> Plain(TIME_POINTS[k])
  {
  }
}
