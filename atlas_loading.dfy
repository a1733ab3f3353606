/** What `loadAtlas` does, as a function of the volume types, time points and a
    volume loader: the (volume type, time point) pairs in loop order, the path
    loaded for each, and the dictionary of loaded volumes, including the
    entries already stored when a load fails and the loop stops. */
module AtlasLoading {
  import opened Wrappers
  import opened Paths

  type Key = (string, string)

  /** The file loaded for key (volumeType, timePoint) under the atlas directory `root`. */
  function VolumePath(root: string, key: Key): string {
    JoinPath(JoinPath(root, "atlases_rigidregistered"), AtlasFileName(key.1, key.0))
  }

  /** Under an atlas directory written without a trailing '/', every volume is the
      atlas file of its key in the `atlases_rigidregistered` subdirectory. */
  lemma VolumePathUnderRegistered(root: string, key: Key)
    requires |root| > 0 && root[|root| - 1] != '/'
    ensures VolumePath(root, key) == root + "/atlases_rigidregistered/" + AtlasFileName(key.1, key.0)
  {
    var dir := JoinPath(root, "atlases_rigidregistered");
    assert dir == root + "/" + "atlases_rigidregistered";
    assert dir[|dir| - 1] == 'd';
    var name := AtlasFileName(key.1, key.0);
    assert name[0] == 'a';
    assert dir + "/" + name == root + "/atlases_rigidregistered/" + name;
  }

  /** The keys (volumeType, timePoint) for one volume type, in inner-loop order. */
  function Row(volumeType: string, timePoints: seq<string>): (row: seq<Key>)
    ensures |row| == |timePoints|
    ensures forall k :: 0 <= k < |row| ==> row[k] == (volumeType, timePoints[k])
  {
    if |timePoints| == 0 then []
    else Row(volumeType, timePoints[..|timePoints| - 1]) + [(volumeType, timePoints[|timePoints| - 1])]
  }

  /** All keys in the order of the nested loops: volume types outside, time points inside. */
  function AtlasKeys(volumeTypes: seq<string>, timePoints: seq<string>): seq<Key> {
    if |volumeTypes| == 0 then []
    else AtlasKeys(volumeTypes[..|volumeTypes| - 1], timePoints) + Row(volumeTypes[|volumeTypes| - 1], timePoints)
  }

  lemma {:induction false} AtlasKeysLength(volumeTypes: seq<string>, timePoints: seq<string>)
    ensures |AtlasKeys(volumeTypes, timePoints)| == |volumeTypes| * |timePoints|
  {
    if |volumeTypes| > 0 {
      AtlasKeysLength(volumeTypes[..|volumeTypes| - 1], timePoints);
      assert |volumeTypes| * |timePoints| == (|volumeTypes| - 1) * |timePoints| + |timePoints|;
    }
  }

  /** A key is visited exactly when its volume type and its time point are configured. */
  lemma {:induction false} AtlasKeysMembers(volumeTypes: seq<string>, timePoints: seq<string>, key: Key)
    ensures key in AtlasKeys(volumeTypes, timePoints) <==> key.0 in volumeTypes && key.1 in timePoints
  {
    if |volumeTypes| > 0 {
      var front := volumeTypes[..|volumeTypes| - 1];
      var last := volumeTypes[|volumeTypes| - 1];
      AtlasKeysMembers(front, timePoints, key);
      assert volumeTypes == front + [last];
      if key in Row(last, timePoints) {
        var k :| 0 <= k < |timePoints| && Row(last, timePoints)[k] == key;
      }
      if key.0 == last && key.1 in timePoints {
        var k :| 0 <= k < |timePoints| && timePoints[k] == key.1;
        assert Row(last, timePoints)[k] == key;
      }
    }
  }

  predicate Distinct<X(==)>(xs: seq<X>) {
    forall i, j :: 0 <= i < j < |xs| ==> xs[i] != xs[j]
  }

  /** Distinct volume types and distinct time points give distinct keys. */
  lemma {:induction false} AtlasKeysDistinct(volumeTypes: seq<string>, timePoints: seq<string>)
    requires Distinct(volumeTypes) && Distinct(timePoints)
    ensures Distinct(AtlasKeys(volumeTypes, timePoints))
  {
    if |volumeTypes| > 0 {
      var front := volumeTypes[..|volumeTypes| - 1];
      var last := volumeTypes[|volumeTypes| - 1];
      var earlier := AtlasKeys(front, timePoints);
      var row := Row(last, timePoints);
      AtlasKeysDistinct(front, timePoints);
      forall i, j | 0 <= i < |earlier| && 0 <= j < |row| ensures earlier[i] != row[j] {
        AtlasKeysMembers(front, timePoints, earlier[i]);
        assert earlier[i] in earlier;
        assert last !in front;
      }
      var all := earlier + row;
      forall i, j | 0 <= i < j < |all| ensures all[i] != all[j] {
        if j < |earlier| {
          assert all[i] == earlier[i] && all[j] == earlier[j];
        } else if i >= |earlier| {
          assert all[i] == row[i - |earlier|] && all[j] == row[j - |earlier|];
        } else {
          assert all[i] == earlier[i] && all[j] == row[j - |earlier|];
        }
      }
    }
  }

  /** A sequence without repetitions has as many distinct elements as positions. */
  lemma {:induction false} DistinctCardinality<X>(xs: seq<X>)
    requires Distinct(xs)
    ensures |set x | x in xs| == |xs|
  {
    if |xs| > 0 {
      var front := xs[..|xs| - 1];
      var last := xs[|xs| - 1];
      DistinctCardinality(front);
      assert xs == front + [last];
      assert last !in front;
      assert (set x | x in xs) == (set x | x in front) + {last};
    }
  }

  /** The dictionary of loaded volumes and, when a load failed, the key whose file failed. */
  datatype Outcome<V> = Outcome(volumes: map<Key, V>, failedKey: Option<Key>)

  /** Loads the volumes of `keys` in order into `volumes`, stopping at the first
      failed load; `fetch(key)` is the result of loading the file of `key`. */
  function LoadKeys<V>(volumes: map<Key, V>, keys: seq<Key>, fetch: Key -> Option<V>): Outcome<V> {
    if |keys| == 0 then Outcome(volumes, None)
    else Step(LoadKeys(volumes, keys[..|keys| - 1], fetch), keys[|keys| - 1], fetch)
  }

  /** One iteration of the inner loop: load the key's file and store it, or stop. */
  function Step<V>(before: Outcome<V>, key: Key, fetch: Key -> Option<V>): (after: Outcome<V>)
    ensures after.failedKey.None? <==> before.failedKey.None? && fetch(key).Some?
  {
    if before.failedKey.Some? then before
    else
      match fetch(key)
      case None => Outcome(before.volumes, Some(key))
      case Some(node) => Outcome(before.volumes[key := node], None)
  }

  predicate AllLoad<V>(keys: seq<Key>, fetch: Key -> Option<V>) {
    forall k :: 0 <= k < |keys| ==> fetch(keys[k]).Some?
  }

  lemma AllLoadSnoc<V>(keys: seq<Key>, fetch: Key -> Option<V>)
    requires |keys| > 0
    ensures AllLoad(keys, fetch) <==> AllLoad(keys[..|keys| - 1], fetch) && fetch(keys[|keys| - 1]).Some?
  {
    var front := keys[..|keys| - 1];
    assert forall k :: 0 <= k < |front| ==> front[k] == keys[k];
  }

  /** Loading completes exactly when every key's file loads. */
  lemma {:induction false} LoadKeysCompletes<V>(volumes: map<Key, V>, keys: seq<Key>, fetch: Key -> Option<V>)
    ensures LoadKeys(volumes, keys, fetch).failedKey.None? <==> AllLoad(keys, fetch)
  {
    if |keys| > 0 {
      LoadKeysCompletes(volumes, keys[..|keys| - 1], fetch);
      AllLoadSnoc(keys, fetch);
    }
  }

  /** After a complete load the dictionary holds the old entries and one entry per
      key, each the volume loaded from that key's file. */
  lemma {:induction false} LoadKeysEntries<V>(volumes: map<Key, V>, keys: seq<Key>, fetch: Key -> Option<V>)
    requires LoadKeys(volumes, keys, fetch).failedKey.None?
    ensures var loaded := LoadKeys(volumes, keys, fetch).volumes;
            (forall key :: key in loaded <==> key in volumes || key in keys) &&
            (forall key :: key in keys ==> fetch(key).Some? && loaded[key] == fetch(key).value) &&
            (forall key :: key in volumes && key !in keys ==> loaded[key] == volumes[key])
  {
    if |keys| > 0 {
      var front := keys[..|keys| - 1];
      var last := keys[|keys| - 1];
      LoadKeysEntries(volumes, front, fetch);
      assert keys == front + [last];
    }
  }

  /** A failed load names a key whose file does not load; every earlier key loaded,
      and the dictionary holds exactly what loading the earlier keys alone gives. */
  lemma {:induction false} LoadKeysFirstFailure<V>(volumes: map<Key, V>, keys: seq<Key>, fetch: Key -> Option<V>)
    requires LoadKeys(volumes, keys, fetch).failedKey.Some?
    ensures exists k :: 0 <= k < |keys| &&
              LoadKeys(volumes, keys, fetch).failedKey == Some(keys[k]) &&
              fetch(keys[k]).None? &&
              AllLoad(keys[..k], fetch) &&
              LoadKeys(volumes, keys, fetch).volumes == LoadKeys(volumes, keys[..k], fetch).volumes
  {
    var front := keys[..|keys| - 1];
    var k := |keys| - 1;
    if LoadKeys(volumes, front, fetch).failedKey.Some? {
      LoadKeysFirstFailure(volumes, front, fetch);
      var j :| 0 <= j < |front| &&
               LoadKeys(volumes, front, fetch).failedKey == Some(front[j]) &&
               fetch(front[j]).None? &&
               AllLoad(front[..j], fetch) &&
               LoadKeys(volumes, front, fetch).volumes == LoadKeys(volumes, front[..j], fetch).volumes;
      assert front[..j] == keys[..j] && front[j] == keys[j];
    } else {
      LoadKeysCompletes(volumes, front, fetch);
      assert keys[..k] == front;
    }
  }
}
