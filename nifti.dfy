/** The part of a NIfTI-1 file the developmental atlas loader looks at: the
    header fields it queries, the payload that follows `vox_offset`, and the
    float32 samples read from that payload and viewed as a 4D array.

    The header itself is parsed by the image library and arrives here as a
    record. A float32 sample is decoded from its four bytes by a caller-given
    function, so the sample type `T` stays opaque. */
module Nifti {
  import opened Wrappers
  import opened Layout

  newtype byte = x: int | 0 <= x < 256

  /** The `datatype` code of 32-bit IEEE floats in the NIfTI-1 header. */
  const DT_FLOAT32: int := 16

  /** Bytes per float32 sample. */
  const SAMPLE_BYTES: nat := 4

  /** The header fields read by the loader: `datatype`, `dim[1]` .. `dim[4]`
      (columns, rows, slices, frames) and `vox_offset`. */
  datatype Header = Header(dataType: int, dim1: int, dim2: int, dim3: int, dim4: int, voxOffset: int)

  /** Why loading the developmental atlas fails. */
  datatype LoadError =
    | UnsupportedDataType(code: int)   // "Can only load float data"
    | ReshapeFailed(sampleCount: nat, frames: int, slices: int, rows: int, columns: int)

  /** The bytes left after reading and discarding `offset` bytes from the start of `file`.
      A negative count reads the whole file, and a count past the end reads up to it,
      so in both cases nothing is left. */
  function Payload(file: seq<byte>, offset: int): (p: seq<byte>)
    ensures 0 <= offset <= |file| ==> file == file[..offset] + p
    ensures !(0 <= offset <= |file|) ==> p == []
  {
    if offset < 0 || offset > |file| then [] else file[offset..]
  }

  /** The payload cut into consecutive 4-byte words; a trailing partial word is dropped. */
  function Words(p: seq<byte>): (ws: seq<seq<byte>>)
    ensures |ws| == |p| / SAMPLE_BYTES
  {
    if |p| < SAMPLE_BYTES then [] else [p[..SAMPLE_BYTES]] + Words(p[SAMPLE_BYTES..])
  }

  /** Word `k` is bytes `4k` .. `4k + 3` of the payload. */
  lemma {:induction false} WordAt(p: seq<byte>, k: nat)
    requires k < |Words(p)|
    ensures SAMPLE_BYTES * k + SAMPLE_BYTES <= |p|
    ensures Words(p)[k] == p[SAMPLE_BYTES * k..SAMPLE_BYTES * k + SAMPLE_BYTES]
  {
    if k > 0 {
      var tail := p[SAMPLE_BYTES..];
      WordAt(tail, k - 1);
      assert Words(p)[k] == Words(tail)[k - 1];
    }
  }

  function Concat(ws: seq<seq<byte>>): seq<byte> {
    if |ws| == 0 then [] else ws[0] + Concat(ws[1..])
  }

  /** Cutting into words loses nothing but a trailing partial word: the words,
      put back together, are the payload minus fewer than four final bytes. */
  lemma {:induction false} WordsConcat(p: seq<byte>)
    ensures |Concat(Words(p))| <= |p| < |Concat(Words(p))| + SAMPLE_BYTES
    ensures Concat(Words(p)) == p[..|Concat(Words(p))|]
  {
    if |p| >= SAMPLE_BYTES {
      var tail := p[SAMPLE_BYTES..];
      WordsConcat(tail);
      assert Words(p)[1..] == Words(tail);
      assert Concat(Words(p)) == p[..SAMPLE_BYTES] + Concat(Words(tail));
    }
  }

  /** The samples read from the rest of the file after the header, one per whole word. */
  function Samples<T>(file: seq<byte>, offset: int, decode: seq<byte> -> T): (xs: seq<T>)
    ensures |xs| == |Payload(file, offset)| / SAMPLE_BYTES
  {
    var ws := Words(Payload(file, offset));
    seq(|ws|, k requires 0 <= k < |ws| => decode(ws[k]))
  }

  /** Sample `k` is decoded from bytes `offset + 4k` .. `offset + 4k + 3` of the file. */
  lemma SampleBytes<T>(file: seq<byte>, offset: int, decode: seq<byte> -> T, k: nat)
    requires k < |Samples(file, offset, decode)|
    ensures 0 <= offset && offset + SAMPLE_BYTES * k + SAMPLE_BYTES <= |file|
    ensures Samples(file, offset, decode)[k] ==
            decode(file[offset + SAMPLE_BYTES * k..offset + SAMPLE_BYTES * k + SAMPLE_BYTES])
  {
    var p := Payload(file, offset);
    WordAt(p, k);
    assert p == file[offset..];
    assert p[SAMPLE_BYTES * k..SAMPLE_BYTES * k + SAMPLE_BYTES]
        == file[offset + SAMPLE_BYTES * k..offset + SAMPLE_BYTES * k + SAMPLE_BYTES];
  }

  /** The extents of the reshape `(frames, slices, rows, columns)` are all non-negative. */
  predicate ExtentsValid(h: Header) {
    h.dim1 >= 0 && h.dim2 >= 0 && h.dim3 >= 0 && h.dim4 >= 0
  }

  function ShapeOf(h: Header): (sh: Shape)
    requires ExtentsValid(h)
    ensures sh.frames == h.dim4 && sh.slices == h.dim3 && sh.rows == h.dim2 && sh.columns == h.dim1
  {
    Shape(h.dim4, h.dim3, h.dim2, h.dim1)
  }

  /** The reshape takes exactly as many samples as the header's extents multiply to. */
  lemma ShapeOfSize(h: Header)
    requires ExtentsValid(h)
    ensures Size(ShapeOf(h)) == h.dim1 * h.dim2 * h.dim3 * h.dim4
  {
    SizeIsProduct(ShapeOf(h));
  }

  /** Checks the data type, reads the float32 payload and views it as
      (frames, slices, rows, columns): the frame-major samples and their shape. */
  function ReadFrameMajor<T>(h: Header, file: seq<byte>, decode: seq<byte> -> T): (r: Result<(Shape, seq<T>), LoadError>)
    ensures r.Ok? ==> |r.value.1| == Size(r.value.0)
  {
    if h.dataType != DT_FLOAT32 then Err(UnsupportedDataType(h.dataType))
    else
      var samples := Samples(file, h.voxOffset, decode);
      if ExtentsValid(h) && |samples| == Size(ShapeOf(h)) then Ok((ShapeOf(h), samples))
      else Err(ReshapeFailed(|samples|, h.dim4, h.dim3, h.dim2, h.dim1))
  }

  /** A header whose data type is not float32 is refused whatever the file holds:
      the payload is never looked at. */
  lemma UnsupportedTypeIgnoresFile<T>(h: Header, file1: seq<byte>, file2: seq<byte>, decode1: seq<byte> -> T, decode2: seq<byte> -> T)
    requires h.dataType != DT_FLOAT32
    ensures ReadFrameMajor(h, file1, decode1) == ReadFrameMajor(h, file2, decode2) == Err(UnsupportedDataType(h.dataType))
  {
  }

  /** Reading succeeds exactly when the header says float32, no extent is negative
      and the payload holds exactly `frames * slices * rows * columns` whole samples
      (up to three trailing bytes are ignored). */
  lemma ReadSucceedsIff<T>(h: Header, file: seq<byte>, decode: seq<byte> -> T)
    ensures ReadFrameMajor(h, file, decode).Ok? <==>
              h.dataType == DT_FLOAT32 && ExtentsValid(h) &&
              SAMPLE_BYTES * Size(ShapeOf(h)) <= |Payload(file, h.voxOffset)| < SAMPLE_BYTES * Size(ShapeOf(h)) + SAMPLE_BYTES
  {
  }

  /** On success the shape is the header's and sample `k` comes from the `k`-th
      word after `vox_offset`. */
  lemma ReadFrameMajorSamples<T>(h: Header, file: seq<byte>, decode: seq<byte> -> T, k: nat)
    requires ReadFrameMajor(h, file, decode).Ok?
    requires k < |ReadFrameMajor(h, file, decode).value.1|
    ensures ExtentsValid(h) && ReadFrameMajor(h, file, decode).value.0 == ShapeOf(h)
    ensures 0 <= h.voxOffset && h.voxOffset + SAMPLE_BYTES * k + SAMPLE_BYTES <= |file|
    ensures ReadFrameMajor(h, file, decode).value.1[k] ==
            decode(file[h.voxOffset + SAMPLE_BYTES * k..h.voxOffset + SAMPLE_BYTES * k + SAMPLE_BYTES])
  {
    SampleBytes(file, h.voxOffset, decode, k);
  }
}
