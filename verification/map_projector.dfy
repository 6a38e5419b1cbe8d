/** `Node::MapPointsToPointCloud`: the SLAM map's points, each with a world
    position and an observation count, are laid out in a `PointCloud2`
    message of one row. Every input point owns one 12-byte slot, in input
    order; a point seen at least `threshold` times has its position written
    there in ROS axes, any other point leaves its slot as the zeros of the
    freshly resized buffer. */
module MapProjector {
  import opened Wrappers
  import opened Linear
  import opened PointCloud2
  import Frames

  /** A map point as the serialiser sees it: a world position and an
      observation count, taken as one consistent snapshot. The code reads
      them separately instead: `nObs` directly, and each coordinate through
      its own `GetWorldPos()` call, so an engine thread moving the point
      meanwhile could mix two positions in one slot. That interleaving is
      not modelled. */
  datatype MapPoint = MapPoint(worldPos: Vec3, nObs: int)

  /** The node's default minimum observation count; the reconfigure
      callback replaces it at run time, so the model takes the threshold as
      a parameter. */
  const DefaultMinObservations: int := 2

  /** Channels per point: x, y, z. */
  const NumChannels: nat := 3

  /** Bytes per point: `num_channels * sizeof(float)`, three floats of four
      bytes. */
  const PointStep: nat := 12

  const ChannelIds: seq<string> := ["x", "y", "z"]

  /** What the serialiser emits besides the message: the line it prints for
      an empty map. */
  const EmptyMapDiagnostic: string := "Map point vector is empty!"

  /** The serialiser's output: the message and the diagnostics printed
      while building it. */
  datatype Projection = Projection(cloud: Cloud, diagnostics: seq<string>)

  /** `row_step` does not fit the message's `uint32` field. */
  datatype ProjectError = RowStepOverflow

  /** The axis change written out by hand in the serialiser: x from the
      world z, y from minus the world x, z from minus the world y. It is the
      same coordinate change that the pose conversion applies as a matrix. */
  function RemapAxes(p: Vec3): (r: Vec3)
    ensures r == MatVec(Frames.OrbToRos, p)
  {
    Frames.OrbToRosRemapsAxes(p);
    Vec3(p.z, -p.x, -p.y)
  }

  predicate Kept(p: MapPoint, threshold: int) {
    p.nObs >= threshold
  }

  /** The 12 bytes copied from `data_array`. */
  function PointBytes(v: Vec3): seq<Byte> {
    FloatBytes(v.x) + FloatBytes(v.y) + FloatBytes(v.z)
  }

  /** The final content of the slot a point owns. */
  function SlotBytes(p: MapPoint, threshold: int): (r: seq<Byte>)
    ensures |r| == PointStep
  {
    if Kept(p, threshold) then PointBytes(RemapAxes(p.worldPos)) else ZeroBytes(PointStep)
  }

  /** Reference definition of the whole data buffer: the slots of the points
      one after the other. */
  function ExpectedData(points: seq<MapPoint>, threshold: int): (r: seq<Byte>)
    ensures |r| == PointStep * |points|
  {
    if |points| == 0 then []
    else
      var n := |points| - 1;
      ExpectedData(points[..n], threshold) + SlotBytes(points[n], threshold)
  }

  /** Point `i` owns bytes `i * point_step` up to the next point's slot, in
      input order. */
  lemma {:induction false} ExpectedDataSlot(points: seq<MapPoint>, threshold: int, i: nat)
    requires i < |points|
    ensures ExpectedData(points, threshold)[PointStep * i..PointStep * i + PointStep]
         == SlotBytes(points[i], threshold)
  {
    var n := |points| - 1;
    var prefix := ExpectedData(points[..n], threshold);
    var last := SlotBytes(points[n], threshold);
    assert ExpectedData(points, threshold) == prefix + last;
    if i < n {
      ExpectedDataSlot(points[..n], threshold, i);
      SliceInPrefix(prefix, last, PointStep * i, PointStep * i + PointStep);
    } else {
      SliceInPrefix(prefix + last, [], PointStep * i, PointStep * i + PointStep);
      assert (prefix + last)[|prefix|..] == last;
    }
  }

  /** A slice that ends inside the first part of a concatenation lies in
      that part. */
  lemma SliceInPrefix<T>(a: seq<T>, b: seq<T>, lo: nat, hi: nat)
    requires lo <= hi <= |a|
    ensures (a + b)[lo..hi] == a[lo..hi]
  {
  }

  /** The three field descriptors: "x", "y" and "z", one float each, at
      byte offsets 0, 4 and 8. */
  function XyzFields(): (r: seq<PointField>)
    ensures |r| == NumChannels
    ensures r[0] == PointField("x", 0, Float32, 1)
    ensures r[1] == PointField("y", 4, Float32, 1)
    ensures r[2] == PointField("z", 8, Float32, 1)
  {
    seq(NumChannels, i requires 0 <= i < NumChannels => PointField(ChannelIds[i], i * FloatSize, Float32, 1))
  }

  /** The loop that fills the descriptors after `fields.resize(3)` left
      three default-constructed ones. */
  method BuildFields() returns (fields: seq<PointField>)
    ensures fields == XyzFields()
    ensures fields == [PointField("x", 0, Float32, 1), PointField("y", 4, Float32, 1), PointField("z", 8, Float32, 1)]
  {
    fields := seq(NumChannels, _ => PointField("", 0, 0, 0));
    var i := 0;
    while i < NumChannels
      invariant 0 <= i <= NumChannels
      invariant |fields| == NumChannels
      invariant forall j :: 0 <= j < i ==> fields[j] == PointField(ChannelIds[j], j * FloatSize, Float32, 1)
    {
      fields := fields[i := PointField(ChannelIds[i], i * FloatSize, Float32, 1)];
      i := i + 1;
    }
  }

  /** The loop over the points after `data.resize(row_step * height)`: a
      kept point's bytes are copied to offset `i * point_step`, a dropped
      point's slot is left alone. */
  method FillData(points: seq<MapPoint>, threshold: int) returns (data: seq<Byte>)
    ensures data == ExpectedData(points, threshold)
  {
    data := ZeroBytes(PointStep * |points|);
    var i := 0;
    while i < |points|
      invariant 0 <= i <= |points|
      invariant FilledUpTo(data, points, threshold, i)
    {
      var before := data;
      if Kept(points[i], threshold) {
        data := Memcpy(data, i * PointStep, PointBytes(RemapAxes(points[i].worldPos)));
      }
      FillStep(before, data, points, threshold, i);
      i := i + 1;
    }
    assert points[..|points|] == points;
  }

  /** The loop's state after `i` points: their slots are final, the rest of
      the buffer is still zero. */
  predicate FilledUpTo(data: seq<Byte>, points: seq<MapPoint>, threshold: int, i: nat)
    requires i <= |points|
  {
    && |data| == PointStep * |points|
    && data[..PointStep * i] == ExpectedData(points[..i], threshold)
    && forall k :: PointStep * i <= k < |data| ==> data[k] == Zero
  }

  /** One iteration of the loop keeps `FilledUpTo`. */
  lemma FillStep(before: seq<Byte>, data: seq<Byte>, points: seq<MapPoint>, threshold: int, i: nat)
    requires i < |points| && FilledUpTo(before, points, threshold, i)
    requires data == if Kept(points[i], threshold)
                     then Memcpy(before, i * PointStep, PointBytes(RemapAxes(points[i].worldPos)))
                     else before
    ensures FilledUpTo(data, points, threshold, i + 1)
  {
    var start := PointStep * i;
    var slot := SlotBytes(points[i], threshold);
    assert i * PointStep == start;
    ExpectedDataAppend(points, threshold, i);
    if Kept(points[i], threshold) {
      MemcpyParts(before, start, slot);
    } else {
      assert data[start..start + PointStep] == slot;
      assert data[..start + PointStep] == data[..start] + slot;
    }
    assert data[..start + PointStep] == before[..start] + slot;
  }

  /** The buffer for one more point is the buffer so far followed by that
      point's slot. */
  lemma ExpectedDataAppend(points: seq<MapPoint>, threshold: int, i: nat)
    requires i < |points|
    ensures ExpectedData(points[..i + 1], threshold)
         == ExpectedData(points[..i], threshold) + SlotBytes(points[i], threshold)
  {
    assert points[..i + 1][..i] == points[..i];
  }

  /** Whether `n` points fit: `row_step = point_step * width` is a `uint32`. */
  predicate RowStepFits(n: nat) {
    PointStep * n < Uint32Limit
  }

  /** The serialiser, with the diagnostic for an empty map and with the
      `uint32` overflow of `row_step` reported instead of built. */
  function MapPointsToPointCloud(points: seq<MapPoint>, threshold: int, header: Header)
    : (r: Result<Projection, ProjectError>)
    ensures r.Failure? <==> !RowStepFits(|points|)
    ensures r.Success? ==>
              var c := r.value.cloud;
              && c.header == header
              && c.height == 1
              && c.width == |points|
              && !c.isBigendian
              && c.isDense
              && c.pointStep == PointStep
              && c.rowStep == PointStep * |points|
              && |c.data| == PointStep * |points|
              && c.fields == XyzFields()
              && r.value.diagnostics == (if |points| == 0 then [EmptyMapDiagnostic] else [])
  {
    if !RowStepFits(|points|) then Failure(RowStepOverflow)
    else
      var width := |points|;
      var rowStep := PointStep * width;
      var cloud := Cloud(header, 1, width, false, true, PointStep, rowStep, XyzFields(),
                         ExpectedData(points, threshold));
      Success(Projection(cloud, if width == 0 then [EmptyMapDiagnostic] else []))
  }

  /** The cloud's slots: a kept point's slot holds its position in ROS
      axes, a dropped point's slot stays all zero. */
  lemma CloudSlot(points: seq<MapPoint>, threshold: int, header: Header, i: nat)
    requires RowStepFits(|points|)
    requires i < |points|
    ensures var c := MapPointsToPointCloud(points, threshold, header).value.cloud;
            var w := points[i].worldPos;
            c.data[PointStep * i..PointStep * i + PointStep]
            == if points[i].nObs >= threshold then PointBytes(Vec3(w.z, -w.x, -w.y)) else ZeroBytes(PointStep)
  {
    var data := MapPointsToPointCloud(points, threshold, header).value.cloud.data;
    var w := points[i].worldPos;
    assert data == ExpectedData(points, threshold);
    ExpectedDataSlot(points, threshold, i);
    assert RemapAxes(w) == Vec3(w.z, -w.x, -w.y);
  }

  /** The three floats of a 12-byte slot, in x, y, z order. */
  function DecodeSlot(slot: seq<Byte>): Option<Vec3>
    requires |slot| == PointStep
  {
    match (DecodeFloat(slot[0..4]), DecodeFloat(slot[4..8]), DecodeFloat(slot[8..12]))
    case (Some(x), Some(y), Some(z)) => Some(Vec3(x, y, z))
    case _ => None
  }

  /** Decoding a written slot gives the point back; decoding a zero slot
      gives the origin. */
  lemma DecodeSlotRoundTrip(v: Vec3)
    ensures DecodeSlot(PointBytes(v)) == Some(v)
    ensures DecodeSlot(ZeroBytes(PointStep)) == Some(Zero3)
  {
    var b := PointBytes(v);
    assert b[0..4] == FloatBytes(v.x) && b[4..8] == FloatBytes(v.y) && b[8..12] == FloatBytes(v.z);
    DecodeFloatRoundTrip(v.x);
    DecodeFloatRoundTrip(v.y);
    DecodeFloatRoundTrip(v.z);
    var z := ZeroBytes(PointStep);
    assert z[0..4] == ZeroBytes(FloatSize) && z[4..8] == ZeroBytes(FloatSize) && z[8..12] == ZeroBytes(FloatSize);
  }

  /** With the x, y, z descriptors a subscriber finds each channel at the
      offset the serialiser wrote it. */
  lemma XyzFieldsFound()
    ensures FindField(XyzFields(), "x") == Some(PointField("x", 0, Float32, 1))
    ensures FindField(XyzFields(), "y") == Some(PointField("y", 4, Float32, 1))
    ensures FindField(XyzFields(), "z") == Some(PointField("z", 8, Float32, 1))
  {
    var fs := XyzFields();
    assert fs[0].name != "y" && fs[0].name != "z" && fs[1].name != "z";
    assert fs[1..][1..] == [fs[2]];
  }

  /** A one-float field read from point `i` is read from that point's
      slot, at the field's offset. */
  lemma ReadFloatInSlot(c: Cloud, i: nat, f: PointField)
    requires c.pointStep == PointStep && PointStep * i + PointStep <= |c.data|
    requires f.kind == Float32 && f.count == 1 && f.offset + FloatSize <= PointStep
    ensures ReadFloat(c, i, f)
         == DecodeFloat(c.data[PointStep * i..PointStep * i + PointStep][f.offset..f.offset + FloatSize])
  {
    var base := PointStep * i;
    assert i * c.pointStep == base;
    assert c.data[base..base + PointStep][f.offset..f.offset + FloatSize]
        == c.data[base + f.offset..base + f.offset + FloatSize];
  }

  /** Reading point `i` of a cloud laid out like the serialiser's output is
      decoding its slot. */
  lemma ReadPointDecodesSlot(c: Cloud, i: nat)
    requires c.fields == XyzFields() && c.pointStep == PointStep
    requires c.height == 1 && i < c.width && PointStep * i + PointStep <= |c.data|
    ensures ReadPoint(c, i) == DecodeSlot(c.data[PointStep * i..PointStep * i + PointStep])
  {
    XyzFieldsFound();
    ReadFloatInSlot(c, i, PointField("x", 0, Float32, 1));
    ReadFloatInSlot(c, i, PointField("y", 4, Float32, 1));
    ReadFloatInSlot(c, i, PointField("z", 8, Float32, 1));
  }

  /** A subscriber reading the cloud through its field descriptors finds,
      at every index, the remapped position of a kept point and the origin
      for a dropped one. */
  lemma ReadPointRoundTrip(points: seq<MapPoint>, threshold: int, header: Header, i: nat)
    requires RowStepFits(|points|)
    requires i < |points|
    ensures MapPointsToPointCloud(points, threshold, header).Success?
    ensures ReadPoint(MapPointsToPointCloud(points, threshold, header).value.cloud, i)
         == Some(if Kept(points[i], threshold) then RemapAxes(points[i].worldPos) else Zero3)
  {
    var c := MapPointsToPointCloud(points, threshold, header).value.cloud;
    ExpectedDataSlot(points, threshold, i);
    ReadPointDecodesSlot(c, i);
    DecodeSlotRoundTrip(RemapAxes(points[i].worldPos));
  }

  /** A slot is left all zero exactly when its point was dropped: the
      filter decides which slots are written, never how many slots there
      are. This holds of the abstract bytes; with IEEE-754 signed zeros a
      kept point at world `(-0.0, -0.0, +0.0)` also writes twelve zero
      bytes. */
  lemma SlotWrittenIffKept(points: seq<MapPoint>, threshold: int, header: Header, i: nat)
    requires RowStepFits(|points|)
    requires i < |points|
    ensures var c := MapPointsToPointCloud(points, threshold, header).value.cloud;
            c.data[PointStep * i..PointStep * i + PointStep] == ZeroBytes(PointStep)
            <==> !Kept(points[i], threshold)
  {
    ExpectedDataSlot(points, threshold, i);
    if Kept(points[i], threshold) {
      assert PointBytes(RemapAxes(points[i].worldPos))[0] != Zero;
    }
  }

  /** The message's size fields agree with each other and with the buffer:
      `row_step = point_step * width` and the buffer holds `row_step *
      height` bytes. */
  lemma LayoutArithmetic(points: seq<MapPoint>, threshold: int, header: Header)
    requires RowStepFits(|points|)
    ensures var c := MapPointsToPointCloud(points, threshold, header).value.cloud;
            c.rowStep == c.pointStep * c.width && |c.data| == c.rowStep * c.height
  {
  }

  /** The layout does not depend on the threshold: width, row step and
      buffer size are those of the whole input. */
  lemma LayoutIgnoresThreshold(points: seq<MapPoint>, t1: int, t2: int, header: Header)
    requires RowStepFits(|points|)
    ensures var c1 := MapPointsToPointCloud(points, t1, header).value.cloud;
            var c2 := MapPointsToPointCloud(points, t2, header).value.cloud;
            c1.width == c2.width == |points| && c1.rowStep == c2.rowStep
            && |c1.data| == |c2.data| && c1.fields == c2.fields
  {
  }

  /** An empty map gives an empty, valid cloud and one diagnostic. */
  lemma EmptyMap(threshold: int, header: Header)
    ensures var r := MapPointsToPointCloud([], threshold, header);
            r.Success? && r.value.cloud.width == 0 && r.value.cloud.rowStep == 0
            && r.value.cloud.data == [] && r.value.diagnostics == [EmptyMapDiagnostic]
  {
  }

  /** The slots tile the buffer: every write `i * point_step` of
      `point_step` bytes lies inside it, and slots of different points do
      not overlap, the earlier point's slot coming first. */
  lemma SlotsTileBuffer(points: seq<MapPoint>, threshold: int, header: Header)
    requires RowStepFits(|points|)
    ensures var c := MapPointsToPointCloud(points, threshold, header).value.cloud;
            forall i :: 0 <= i < |points| ==> i * c.pointStep + c.pointStep <= |c.data|
    ensures var c := MapPointsToPointCloud(points, threshold, header).value.cloud;
            forall i, j :: 0 <= i < j < |points| ==> i * c.pointStep + c.pointStep <= j * c.pointStep
  {
    var c := MapPointsToPointCloud(points, threshold, header).value.cloud;
    assert c.pointStep == 12;
    assert |c.data| == 12 * |points|;
  }

  /** The three descriptors name distinct channels and each float lies
      inside the 12-byte point, without overlapping the others. */
  lemma FieldsTilePoint()
    ensures forall k :: 0 <= k < NumChannels ==>
              XyzFields()[k].offset + FloatSize <= PointStep
    ensures forall k, l :: 0 <= k < l < NumChannels ==>
              XyzFields()[k].offset + FloatSize <= XyzFields()[l].offset
              && XyzFields()[k].name != XyzFields()[l].name
  {
  }

  /** Reference value: a kept point at world `(1, 2, 3)` reads back
      as `(3, -1, -2)`. */
  lemma SinglePointExample(header: Header)
    ensures ReadPoint(MapPointsToPointCloud([MapPoint(Vec3(1.0, 2.0, 3.0), 2)], DefaultMinObservations, header)
                        .value.cloud, 0)
         == Some(Vec3(3.0, -1.0, -2.0))
  {
    ReadPointRoundTrip([MapPoint(Vec3(1.0, 2.0, 3.0), 2)], DefaultMinObservations, header, 0);
  }

  // The code as written computes the layout in 32-bit unsigned arithmetic.

  /** Width, row step and buffer length as the `uint32` fields hold them. */
  datatype Layout = Layout(width: nat, rowStep: nat, dataLength: nat)

  /** `width = size()` truncated to 32 bits, `row_step = point_step * width`
      and `row_step * height` both wrapping modulo 2^32. */
  function AsWrittenLayout(n: nat): (l: Layout)
    ensures l.width < Uint32Limit && l.rowStep < Uint32Limit && l.dataLength == l.rowStep
  {
    var width := n % Uint32Limit;
    var rowStep := (PointStep * width) % Uint32Limit;
    Layout(width, rowStep, (rowStep * 1) % Uint32Limit)
  }

  /** `i * point_step` in `unsigned int` arithmetic. */
  function AsWrittenWriteOffset(i: nat): nat {
    (i * PointStep) % Uint32Limit
  }

  /** Where the row step fits, the 32-bit layout is the exact one, so the
      corrected serialiser agrees with the code on every such input. */
  lemma AsWrittenAgreesWhenRowStepFits(n: nat, i: nat)
    requires RowStepFits(n)
    requires i < n
    ensures AsWrittenLayout(n) == Layout(n, PointStep * n, PointStep * n)
    ensures AsWrittenWriteOffset(i) == PointStep * i
  {
  }

  /** With 357913942 points the row step wraps to 8, the buffer gets 8
      bytes, and copying a kept first point writes 12 bytes into it. */
  lemma AsWrittenOverflowsBuffer()
    ensures var l := AsWrittenLayout(357913942);
            l.width == 357913942 && l.dataLength == 8
            && AsWrittenWriteOffset(0) + PointStep > l.dataLength
  {
  }
}
