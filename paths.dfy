/** Path construction of the atlas loader: `os.path.join` on POSIX and the
    file-name pattern of the rigidly registered atlases. */
module Paths {

  /** `os.path.join(a, b)` with POSIX separators: an absolute `b` replaces `a`;
      otherwise a '/' is put between them unless `a` is empty or already ends in one. */
  function JoinPath(a: string, b: string): (path: string)
    ensures |b| <= |path| && path[|path| - |b|..] == b
    ensures (|b| == 0 || b[0] != '/') ==> |a| <= |path| && path[..|a|] == a
    ensures |b| > 0 && b[0] == '/' ==> path == b
  {
    if |b| > 0 && b[0] == '/' then b
    else if |a| == 0 || a[|a| - 1] == '/' then a + b
    else a + "/" + b
  }

  const ATLAS_PREFIX := "atlas_"
  const ATLAS_SUFFIX := "_rigidtoyear1-2.nii.gz"

  /** "atlas_%s%s_rigidtoyear1-2.nii.gz" % (timePoint, volumeType) */
  function AtlasFileName(timePoint: string, volumeType: string): string {
    ATLAS_PREFIX + timePoint + volumeType + ATLAS_SUFFIX
  }

  /** The part of an atlas file name between the fixed prefix and suffix. */
  function AtlasStem(name: string): string
    requires |ATLAS_PREFIX| + |ATLAS_SUFFIX| <= |name|
  {
    name[|ATLAS_PREFIX|..|name| - |ATLAS_SUFFIX|]
  }

  /** An atlas file name gives back the time point and volume type written into it
      (as one string: the format puts nothing between them). */
  lemma AtlasStemOfFileName(timePoint: string, volumeType: string)
    ensures |ATLAS_PREFIX| + |ATLAS_SUFFIX| <= |AtlasFileName(timePoint, volumeType)|
    ensures AtlasStem(AtlasFileName(timePoint, volumeType)) == timePoint + volumeType
  {
    var name := AtlasFileName(timePoint, volumeType);
    assert name == ATLAS_PREFIX + (timePoint + volumeType) + ATLAS_SUFFIX;
  }

  /** Two atlas file names are equal exactly when their time point and volume type
      concatenate to the same text. */
  lemma AtlasFileNameEqual(tp1: string, vt1: string, tp2: string, vt2: string)
    ensures AtlasFileName(tp1, vt1) == AtlasFileName(tp2, vt2) <==> tp1 + vt1 == tp2 + vt2
  {
    if AtlasFileName(tp1, vt1) == AtlasFileName(tp2, vt2) {
      AtlasStemOfFileName(tp1, vt1);
      AtlasStemOfFileName(tp2, vt2);
    } else {
      assert AtlasFileName(tp1, vt1) == ATLAS_PREFIX + (tp1 + vt1) + ATLAS_SUFFIX;
      assert AtlasFileName(tp2, vt2) == ATLAS_PREFIX + (tp2 + vt2) + ATLAS_SUFFIX;
    }
  }
}
