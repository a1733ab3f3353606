/** The two memory layouts of the developmental atlas and the repack between them.

    The NIfTI payload is frame-major: shape (frames, slices, rows, columns) in
    C order, so a whole 3D frame is contiguous. The image handed to the
    multivolume node is voxel-major: shape (slices, rows, columns, frames), so
    the frames of one voxel are contiguous and become its components.
    Both layouts order the spatial axes alike, so with `V` voxels per frame and
    `F` frames the repack is the transpose of an F x V matrix into a V x F one.
    Sample values are only ever copied, so they are an opaque type `T`. */
module Layout {
  import opened MixedRadix
  import opened GridCounts

  /** Extents of the 4D atlas: dim[4], dim[3], dim[2] and dim[1] of the header. */
  datatype Shape = Shape(frames: nat, slices: nat, rows: nat, columns: nat)

  /** Number of spatial voxels in one frame. */
  function Voxels(sh: Shape): nat {
    sh.slices * sh.rows * sh.columns
  }

  /** Number of samples in the whole volume, in either layout. */
  function Size(sh: Shape): nat {
    Voxels(sh) * sh.frames
  }

  /** Size is the product of the four extents, in the order the payload is reshaped
      and in the order the image is allocated. */
  lemma SizeIsProduct(sh: Shape)
    ensures Size(sh) == sh.frames * sh.slices * sh.rows * sh.columns
    ensures Size(sh) == sh.columns * sh.rows * sh.slices * sh.frames
  {
  }

  predicate InShape(sh: Shape, f: int, s: int, r: int, c: int) {
    0 <= f < sh.frames && 0 <= s < sh.slices && 0 <= r < sh.rows && 0 <= c < sh.columns
  }

  /** C-order index of voxel (s, r, c) within one frame. */
  function VoxelIndex(sh: Shape, s: nat, r: nat, c: nat): (v: nat)
    requires s < sh.slices && r < sh.rows && c < sh.columns
    ensures v < Voxels(sh)
  {
    SlotBound(sh.rows, sh.slices, s, r);
    SlotBound(sh.columns, sh.slices * sh.rows, s * sh.rows + r, c);
    (s * sh.rows + r) * sh.columns + c
  }

  /** Flat position of sample `v` of frame `f` in a frame-major buffer. */
  function FrameSample(frames: nat, voxels: nat, f: nat, v: nat): (i: nat)
    requires f < frames && v < voxels
    ensures i < voxels * frames
  {
    SlotBound(voxels, frames, f, v);
    f * voxels + v
  }

  /** Flat position of component `f` of voxel `v` in a voxel-major buffer. */
  function ComponentSlot(frames: nat, voxels: nat, v: nat, f: nat): (i: nat)
    requires f < frames && v < voxels
    ensures i < voxels * frames
  {
    SlotBound(frames, voxels, v, f);
    v * frames + f
  }

  /** Index ((f*S + s)*R + r)*C + c of the payload viewed as (frames, slices, rows, columns). */
  function FrameMajorIndex(sh: Shape, f: nat, s: nat, r: nat, c: nat): (i: nat)
    requires InShape(sh, f, s, r, c)
    ensures i == FrameSample(sh.frames, Voxels(sh), f, VoxelIndex(sh, s, r, c))
  {
    FrameMajorSplit(sh.slices, sh.rows, sh.columns, f, s, r);
    ((f * sh.slices + s) * sh.rows + r) * sh.columns + c
  }

  /** The frame number factors out of a frame-major index: `((f*S + s)*R + r)*C`
      is `f*(S*R*C) + (s*R + r)*C`. */
  lemma FrameMajorSplit(slices: nat, rows: nat, columns: nat, f: nat, s: nat, r: nat)
    ensures ((f * slices + s) * rows + r) * columns == f * (slices * rows * columns) + (s * rows + r) * columns
  {
    calc {
      ((f * slices + s) * rows + r) * columns;
    ==
      (f * slices * rows + (s * rows + r)) * columns;
    ==
      f * slices * rows * columns + (s * rows + r) * columns;
    ==  { assert f * slices * rows * columns == f * (slices * rows * columns); }
      f * (slices * rows * columns) + (s * rows + r) * columns;
    }
  }

  /** Index ((s*R + r)*C + c)*F + f of the image viewed as (slices, rows, columns, frames). */
  function VoxelMajorIndex(sh: Shape, s: nat, r: nat, c: nat, f: nat): (i: nat)
    requires InShape(sh, f, s, r, c)
    ensures i == ComponentSlot(sh.frames, Voxels(sh), VoxelIndex(sh, s, r, c), f)
  {
    ((s * sh.rows + r) * sh.columns + c) * sh.frames + f
  }

  /** Each in-range (slice, row, column, component) has its own slot of the image:
      the index is below the image size, and distinct positions get distinct indices. */
  lemma VoxelMajorIndexInjective(sh: Shape, s1: nat, r1: nat, c1: nat, f1: nat, s2: nat, r2: nat, c2: nat, f2: nat)
    requires InShape(sh, f1, s1, r1, c1) && InShape(sh, f2, s2, r2, c2)
    ensures VoxelMajorIndex(sh, s1, r1, c1, f1) < Size(sh)
    ensures VoxelMajorIndex(sh, s1, r1, c1, f1) == VoxelMajorIndex(sh, s2, r2, c2, f2)
            <==> s1 == s2 && r1 == r2 && c1 == c2 && f1 == f2
  {
    if VoxelMajorIndex(sh, s1, r1, c1, f1) == VoxelMajorIndex(sh, s2, r2, c2, f2) {
      var v1, v2 := VoxelIndex(sh, s1, r1, c1), VoxelIndex(sh, s2, r2, c2);
      SlotInjective(sh.frames, v1, f1, v2, f2);
      SlotInjective(sh.columns, s1 * sh.rows + r1, c1, s2 * sh.rows + r2, c2);
      SlotInjective(sh.rows, s1, r1, s2, r2);
    }
  }

  /** The frame-major position whose sample lands at voxel-major position `i`. */
  function SourceOf(frames: nat, voxels: nat, i: nat): (j: nat)
    requires i < voxels * frames
    ensures j < voxels * frames
  {
    SplitIndex(frames, voxels, i);
    FrameSample(frames, voxels, i % frames, i / frames)
  }

  /** The voxel-major image the repack produces from frame-major samples. */
  function Repacked<T>(frames: nat, voxels: nat, samples: seq<T>): (image: seq<T>)
    requires |samples| == voxels * frames
    ensures |image| == voxels * frames
  {
    seq(voxels * frames, i requires 0 <= i < voxels * frames => samples[SourceOf(frames, voxels, i)])
  }

  /** The voxel-major position that frame-major position `j` is moved to. */
  function TargetOf(frames: nat, voxels: nat, j: nat): (i: nat)
    requires j < voxels * frames
    ensures i < voxels * frames
  {
    SplitIndex(voxels, frames, j);
    ComponentSlot(frames, voxels, j % voxels, j / voxels)
  }

  /** The frame-major samples a voxel-major image holds: reading component `f`
      of every voxel gives back frame `f`. The inverse of Repacked. */
  function Unpacked<T>(frames: nat, voxels: nat, image: seq<T>): (samples: seq<T>)
    requires |image| == voxels * frames
    ensures |samples| == voxels * frames
  {
    seq(voxels * frames, j requires 0 <= j < voxels * frames => image[TargetOf(frames, voxels, j)])
  }

  /** Component `f` of voxel `v` of the repacked image is sample `v` of frame `f`. */
  lemma RepackedAt<T>(frames: nat, voxels: nat, samples: seq<T>, v: nat, f: nat)
    requires |samples| == voxels * frames && v < voxels && f < frames
    ensures Repacked(frames, voxels, samples)[ComponentSlot(frames, voxels, v, f)]
         == samples[FrameSample(frames, voxels, f, v)]
  {
    DivModSlot(frames, v, f);
  }

  /** output[s, r, c, f] == input[f, s, r, c] for every in-range index. */
  lemma RepackedIndex<T>(sh: Shape, samples: seq<T>, f: nat, s: nat, r: nat, c: nat)
    requires |samples| == Size(sh) && InShape(sh, f, s, r, c)
    ensures Repacked(sh.frames, Voxels(sh), samples)[VoxelMajorIndex(sh, s, r, c, f)]
         == samples[FrameMajorIndex(sh, f, s, r, c)]
  {
    RepackedAt(sh.frames, Voxels(sh), samples, VoxelIndex(sh, s, r, c), f);
  }

  /** Sample `v` of frame `f` of the unpacked samples is component `f` of voxel `v`. */
  lemma UnpackedAt<T>(frames: nat, voxels: nat, image: seq<T>, v: nat, f: nat)
    requires |image| == voxels * frames && v < voxels && f < frames
    ensures Unpacked(frames, voxels, image)[FrameSample(frames, voxels, f, v)]
         == image[ComponentSlot(frames, voxels, v, f)]
  {
    DivModSlot(voxels, f, v);
  }

  /** Reading the frames back out of the repacked image gives the payload:
      no sample is lost, duplicated or moved to another frame. */
  lemma UnpackRepacked<T>(frames: nat, voxels: nat, samples: seq<T>)
    requires |samples| == voxels * frames
    ensures Unpacked(frames, voxels, Repacked(frames, voxels, samples)) == samples
  {
    var back := Unpacked(frames, voxels, Repacked(frames, voxels, samples));
    forall j | 0 <= j < voxels * frames ensures back[j] == samples[j] {
      SplitIndex(voxels, frames, j);
      var f, v := j / voxels, j % voxels;
      UnpackedAt(frames, voxels, Repacked(frames, voxels, samples), v, f);
      RepackedAt(frames, voxels, samples, v, f);
    }
  }

  /** Every voxel-major image is the repack of exactly one payload, its unpacking. */
  lemma RepackUnpacked<T>(frames: nat, voxels: nat, image: seq<T>)
    requires |image| == voxels * frames
    ensures Repacked(frames, voxels, Unpacked(frames, voxels, image)) == image
  {
    var again := Repacked(frames, voxels, Unpacked(frames, voxels, image));
    forall i | 0 <= i < voxels * frames ensures again[i] == image[i] {
      SplitIndex(frames, voxels, i);
      var v, f := i / frames, i % frames;
      RepackedAt(frames, voxels, Unpacked(frames, voxels, image), v, f);
      UnpackedAt(frames, voxels, image, v, f);
    }
  }

  /** The payload, read frame by frame, holds the cells of the grid `cell(f, v)`. */
  lemma PayloadCount<T>(frames: nat, voxels: nat, samples: seq<T>, cell: (nat, nat) -> T, x: T)
    requires |samples| == voxels * frames
    requires forall f, v :: 0 <= f < frames && 0 <= v < voxels ==>
               cell(f, v) == samples[FrameSample(frames, voxels, f, v)]
    ensures multiset(samples)[x] == RowsCount(cell, x, frames, voxels)
  {
    forall f | 0 <= f <= frames ensures RowStart(voxels, f) == f * voxels {
      RowStartIsProduct(voxels, f);
    }
    forall f, v | 0 <= f < frames && 0 <= v < voxels ensures StoredAt(samples, voxels, f, v, cell(f, v)) {
      RowStartIsProduct(voxels, f);
    }
    RowMajorCount(samples, cell, x, voxels, frames);
    assert samples[..RowStart(voxels, frames)] == samples;
  }

  /** The repacked image, read voxel by voxel, holds the same grid column by column. */
  lemma ImageCount<T>(frames: nat, voxels: nat, samples: seq<T>, cell: (nat, nat) -> T, x: T)
    requires |samples| == voxels * frames
    requires forall f, v :: 0 <= f < frames && 0 <= v < voxels ==>
               cell(f, v) == samples[FrameSample(frames, voxels, f, v)]
    ensures multiset(Repacked(frames, voxels, samples))[x] == ColumnsCount(cell, x, frames, voxels)
  {
    var image := Repacked(frames, voxels, samples);
    forall v | 0 <= v <= voxels ensures RowStart(frames, v) == v * frames {
      RowStartIsProduct(frames, v);
    }
    forall v, f | 0 <= v < voxels && 0 <= f < frames
      ensures StoredAt(image, frames, v, f, cell(f, v))
    {
      RepackedAt(frames, voxels, samples, v, f);
    }
    ColumnMajorCount(image, cell, x, frames, voxels);
    assert image[..RowStart(frames, voxels)] == image;
  }

  /** The repacked image is a permutation of the payload: every sample appears
      in it exactly as often as in the payload. */
  lemma RepackedIsPermutation<T>(frames: nat, voxels: nat, samples: seq<T>)
    requires |samples| == voxels * frames
    ensures multiset(Repacked(frames, voxels, samples)) == multiset(samples)
  {
    var image := Repacked(frames, voxels, samples);
    if |samples| == 0 {
      assert image == [];
    } else {
      // cell (f, v) of the grid is sample v of frame f
      var cell := (f: nat, v: nat) =>
        if f < frames && v < voxels then samples[FrameSample(frames, voxels, f, v)] else samples[0];
      forall x ensures multiset(image)[x] == multiset(samples)[x] {
        PayloadCount(frames, voxels, samples, cell, x);
        ImageCount(frames, voxels, samples, cell, x);
        CountsExchange(cell, x, frames, voxels);
      }
    }
  }

  /** One pass of the frame loop: component slot `f` of every voxel receives
      frame `f`; every other slot keeps its value. */
  method CopyFrame<T>(frames: nat, voxels: nat, samples: seq<T>, image: array<T>, f: nat)
    requires |samples| == voxels * frames && image.Length == voxels * frames && f < frames
    modifies image
    ensures forall v :: 0 <= v < voxels ==>
              image[ComponentSlot(frames, voxels, v, f)] == samples[FrameSample(frames, voxels, f, v)]
    ensures forall v, g :: 0 <= v < voxels && 0 <= g < frames && g != f ==>
              image[ComponentSlot(frames, voxels, v, g)] == old(image[ComponentSlot(frames, voxels, v, g)])
  {
    forall v1, v2 | 0 <= v1 < voxels && 0 <= v2 < voxels &&
                    ComponentSlot(frames, voxels, v1, f) == ComponentSlot(frames, voxels, v2, f)
      ensures v1 == v2
    {
      SlotInjective(frames, v1, f, v2, f);
    }
    forall v | 0 <= v < voxels {
      image[ComponentSlot(frames, voxels, v, f)] := samples[FrameSample(frames, voxels, f, v)];
    }
    forall v, g, w | 0 <= v < voxels && 0 <= g < frames && g != f && 0 <= w < voxels
      ensures ComponentSlot(frames, voxels, v, g) != ComponentSlot(frames, voxels, w, f)
    {
      if ComponentSlot(frames, voxels, v, g) == ComponentSlot(frames, voxels, w, f) {
        SlotInjective(frames, v, g, w, f);
      }
    }
  }

  /** The frame loop: for each frame in turn, copy it into its component slot.
      The image ends up holding the repack of the payload, whatever it held before. */
  method CopyFramesToComponents<T>(frames: nat, voxels: nat, samples: seq<T>, image: array<T>)
    requires |samples| == voxels * frames && image.Length == voxels * frames
    modifies image
    ensures image[..] == Repacked(frames, voxels, samples)
  {
    for f := 0 to frames
      invariant forall v, g :: 0 <= v < voxels && 0 <= g < f ==>
                  image[ComponentSlot(frames, voxels, v, g)] == samples[FrameSample(frames, voxels, g, v)]
      invariant forall v, g :: 0 <= v < voxels && f <= g < frames ==>
                  image[ComponentSlot(frames, voxels, v, g)] == old(image[ComponentSlot(frames, voxels, v, g)])
    {
      CopyFrame(frames, voxels, samples, image, f);
    }
    forall i | 0 <= i < voxels * frames ensures image[i] == Repacked(frames, voxels, samples)[i] {
      SplitIndex(frames, voxels, i);
      RepackedAt(frames, voxels, samples, i / frames, i % frames);
    }
  }

  /** Eight cells that hold samples 0, 4, 1, 5, 2, 6, 3, 7 are that interleaving. */
  lemma Interleaved<T>(image: seq<T>, samples: seq<T>)
    requires |image| == 8 && |samples| == 8
    requires image[0] == samples[0] && image[1] == samples[4] && image[2] == samples[1] && image[3] == samples[5]
    requires image[4] == samples[2] && image[5] == samples[6] && image[6] == samples[3] && image[7] == samples[7]
    ensures image == [samples[0], samples[4], samples[1], samples[5], samples[2], samples[6], samples[3], samples[7]]
  {
  }

  /** Two frames of four voxels: each voxel's components pair the two frames' samples. */
  lemma TwoFrames<T>(samples: seq<T>)
    requires |samples| == 8
    ensures Repacked(2, 4, samples)
         == [samples[0], samples[4], samples[1], samples[5], samples[2], samples[6], samples[3], samples[7]]
  {
    var image := Repacked(2, 4, samples);
    assert image[0] == samples[0] by { RepackedAt(2, 4, samples, 0, 0); }
    assert image[1] == samples[4] by { RepackedAt(2, 4, samples, 0, 1); }
    assert image[2] == samples[1] by { RepackedAt(2, 4, samples, 1, 0); }
    assert image[3] == samples[5] by { RepackedAt(2, 4, samples, 1, 1); }
    assert image[4] == samples[2] by { RepackedAt(2, 4, samples, 2, 0); }
    assert image[5] == samples[6] by { RepackedAt(2, 4, samples, 2, 1); }
    assert image[6] == samples[3] by { RepackedAt(2, 4, samples, 3, 0); }
    assert image[7] == samples[7] by { RepackedAt(2, 4, samples, 3, 1); }
    Interleaved(image, samples);
  }

  /** Two frames of a 1 x 2 x 2 volume: frame 0 holds 1, 2, 3, 4 and frame 1 holds
      5, 6, 7, 8. */
  lemma TwoFrameExample()
    ensures Repacked(2, 4, [1, 2, 3, 4, 5, 6, 7, 8]) == [1, 5, 2, 6, 3, 7, 4, 8]
  {
    TwoFrames([1, 2, 3, 4, 5, 6, 7, 8]);
  }
}
