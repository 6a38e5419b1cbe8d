# orb_slam2_ros node: map points to `PointCloud2`, and the pose conversion

A Dafny model of the two pure computations in the ROS wrapper node
`ros/src/Node.cc` of `orb_slam2_ros`:

- `Node::MapPointsToPointCloud`, which serialises the SLAM map's points into
  a `sensor_msgs/PointCloud2` message of one row. It uses three `FLOAT32`
  channels `x`, `y`, `z` at offsets 0, 4 and 8, and a 12-byte point step.
  Every input point owns one slot in input order. A point observed at least
  `min_observations_per_point_` times has its position written there, with
  the axes changed from the SLAM engine's camera convention to ROS
  (`(x, y, z) -> (z, -x, -y)`). Any other point leaves its slot as the zeros
  of the freshly resized buffer.
- The fixed matrix algebra of `Node::TransformFromMat`. It splits the 4x4
  pose into a rotation and a translation, left-multiplies both by the axis
  change, inverts, and left-multiplies by the axis change again.

Modules:

- `Wrappers`: `Option` and `Result`.
- `Linear`: exact real 3-vectors and 3x3 matrices with the `tf` operations the
  conversion uses.
- `Frames`: rigid transforms, the axis change `OrbToRos`, and the pose
  conversion.
- `PointCloud2`: the message, an abstract byte buffer, `memcpy`, and how a
  subscriber reads a point back through the field descriptors.
- `MapProjector`: the serialiser, its fill loop, its round trip through
  `ReadPoint`, and the 32-bit layout arithmetic as the code writes it.

The headline properties:

- Every point's slot reads back as the remapped position when the point is
  kept, and as the origin when it is dropped (`ReadPointRoundTrip`).
- The fill loop builds exactly the reference buffer (`FillData`).
- The pose conversion is the inverse pose conjugated by the axis change
  (`ToRosCoordinates`). For a rotation basis, it carries a
  camera point back to its map point (`ToRosCoordinatesUndoesPose`).
- The serialiser's hand-written axis remap is the same matrix
  (`RemapAxes`).

Two consequences of the code worth stating:

- Points below the observation threshold are not skipped. `width` stays
  the number of input points and their slots stay zero (`SlotWrittenIffKept`,
  `LayoutIgnoresThreshold`).
- `is_dense` is set to true regardless of those zero slots.

## Model

| member | source | states |
|---|---|---|
| `MapProjector.MapPointsToPointCloud` | ros/src/Node.cc:203-247 | fails exactly when `row_step` would not fit in 32 bits. On success: header as given, height 1, width = number of input points, little-endian, dense, point step 12, `row_step` = 12 * width, buffer of that many bytes, the x/y/z descriptors, and the "Map point vector is empty!" diagnostic exactly when the map is empty |
| `MapProjector.ReadPointRoundTrip` | ros/src/Node.cc:203-247 | a subscriber reading point `i` through the descriptors gets the point's position in ROS axes if it was observed at least `threshold` times, and the origin otherwise |
| `MapProjector.CloudSlot` | ros/src/Node.cc:235-244 | bytes `12i .. 12i+12` of the buffer hold the floats `(z, -x, -y)` of point `i`'s world position when `nObs >= threshold`, and are all zero otherwise |
| `MapProjector.SlotWrittenIffKept` | ros/src/Node.cc:230-244 | a slot is all zero if and only if its point was dropped by the observation filter |
| `MapProjector.FillData` | ros/src/Node.cc:230-244 | the resize-then-memcpy loop over all points produces exactly the reference buffer: the slots of the points, in input order |
| `MapProjector.FillStep` | ros/src/Node.cc:235-243 | one iteration keeps the loop's state: slots before `i + 1` are final and the rest of the buffer is still zero |
| `MapProjector.ExpectedDataSlot` | ros/src/Node.cc:235-244 | in the reference buffer, point `i` owns bytes `i * point_step` to `(i + 1) * point_step`, and they hold that point's slot |
| `MapProjector.SlotsTileBuffer` | ros/src/Node.cc:230-242 | for every point `i`, the write `memcpy(ptr + i * point_step, ..., 12)` lies inside the buffer, and slots of distinct points do not overlap, in index order |
| `MapProjector.LayoutArithmetic` | ros/src/Node.cc:214-230 | `row_step == point_step * width` and the buffer holds `row_step * height` bytes |
| `MapProjector.LayoutIgnoresThreshold` | ros/src/Node.cc:214-219 | width, row step, buffer size and descriptors do not depend on the observation threshold |
| `MapProjector.EmptyMap` | ros/src/Node.cc:204-206 | an empty map still gives a valid, empty cloud, together with the one diagnostic line |
| `MapProjector.XyzFields` | ros/src/Node.cc:220-228 | three descriptors: "x", "y" and "z", each one `FLOAT32` value, at offsets 0, 4 and 8 |
| `MapProjector.BuildFields` | ros/src/Node.cc:220-228 | the loop over the three resized descriptors produces exactly the descriptors the cloud carries (`XyzFields`): "x" at offset 0, "y" at 4, "z" at 8, each one `FLOAT32` value |
| `MapProjector.FieldsTilePoint` | ros/src/Node.cc:218-227 | the three channels have distinct names and lie inside the 12-byte point step without overlapping |
| `MapProjector.XyzFieldsFound` | ros/src/Node.cc:222-228 | looking up "x", "y" and "z" by name finds the descriptors at offsets 0, 4 and 8 |
| `MapProjector.RemapAxes` | ros/src/Node.cc:237-239 | the hand-written remap `(z, -x, -y)` of a world position is the axis-change matrix of the pose conversion applied to it |
| `MapProjector.Kept` | ros/src/Node.cc:236 | the observation filter `nObs >= threshold`; what it decides is stated by `CloudSlot`, `SlotWrittenIffKept` and `ReadPointRoundTrip` |
| `MapProjector.DecodeSlotRoundTrip` | ros/src/Node.cc:234-242 | the 12 bytes copied from `data_array` decode back to its three floats, and a zero slot decodes to the origin |
| `MapProjector.ReadFloatInSlot` | ros/src/Node.cc:223-242 | a one-float field of point `i` is read from inside that point's slot, at the field's offset |
| `MapProjector.ReadPointDecodesSlot` | ros/src/Node.cc:220-242 | reading point `i` through the x/y/z descriptors is decoding the 12 bytes of its slot |
| `MapProjector.SinglePointExample` | ros/src/Node.cc:236-242 | a kept point at world `(1, 2, 3)` reads back as `(3, -1, -2)` |
| `MapProjector.AsWrittenLayout` | ros/src/Node.cc:215-230 | width, `row_step` and buffer length in the code's `uint32` arithmetic each stay below 2^32, and the buffer length equals `row_step` |
| `MapProjector.AsWrittenAgreesWhenRowStepFits` | ros/src/Node.cc:215-242 | whenever `12 * n` fits in 32 bits, the code's wrapping layout and write offsets are the exact ones the corrected serialiser uses |
| `MapProjector.AsWrittenOverflowsBuffer` | ros/src/Node.cc:215-242 | with 357913942 points the code's `row_step` wraps to 8, so the buffer has 8 bytes and the first kept point's 12-byte copy overruns it |
| `PointCloud2.Memcpy` | ros/src/Node.cc:242 | copying into a large enough buffer changes exactly bytes `offset .. offset + len` and makes them the source bytes; the length is unchanged |
| `PointCloud2.MemcpyParts` | ros/src/Node.cc:242 | after the copy, the buffer up to the copied range's end is the old prefix followed by the source, and the rest is unchanged |
| `PointCloud2.ZeroBytes` | ros/src/Node.cc:230 | a freshly resized buffer has the requested length and every byte zero |
| `PointCloud2.DecodeFloatRoundTrip` | ros/src/Node.cc:234-242 | a float's four written bytes read back as that float, and four zero bytes read as `0.0` |
| `Frames.PoseFromMat` | ros/src/Node.cc:73-83 | the rotation (rows and columns 0..2) and translation (column 3) taken from the pose act on a point as the homogeneous matrix does |
| `Frames.OrbToRosRemapsAxes` | ros/src/Node.cc:85-88 | the axis-change matrix sends `(a, b, c)` to `(c, -a, -b)` |
| `Frames.OrbToRosTransposeUndoes` | ros/src/Node.cc:85-88 | the transpose of the axis change undoes it on either side |
| `Frames.ToRosCoordinates` | ros/src/Node.cc:86-101 | the step-by-step conversion equals: undo the axis change, apply the inverse of the pose, redo the axis change |
| `Frames.ToRosCoordinatesApplies` | ros/src/Node.cc:86-101 | applying the converted transform to a point `w` is `OrbToRos (pose^-1 (OrbToRos^T w))` |
| `Frames.ToRosCoordinatesUndoesPose` | ros/src/Node.cc:71-101 | for a rotation basis, the converted transform carries the ROS-axis image of a camera point `pose(v)` back to the ROS-axis image of the map point `v` |
| `Frames.InvertCancels` | ros/src/Node.cc:93-95 | for a basis whose transpose undoes it, "transpose the basis, origin `-(R^T t)`" applied after the transform gives the identity transform |
| `Frames.InvertCancelsRight` | ros/src/Node.cc:93-95 | when the transpose is also a right inverse of the basis, the inverse applied before the transform gives the identity transform too |
| `Frames.InvertUndoes` | ros/src/Node.cc:93-95 | for a rotation basis, applying the transform and then its inverse gives the point back |
| `Frames.ComposeApplies` | ros/src/Node.cc:126 | the product of two transforms applies the right one first, then the left one |
| `Frames.Compose` | ros/src/Node.cc:126 | the `tf::Transform` product; `ComposeApplies` states that it applies the right operand first, then the left |
| `Frames.Invert` | ros/src/Node.cc:93-95 | the "Inverse matrix" step: basis transposed, origin `-(R^T t)`; `InvertCancels`, `InvertCancelsRight` and `InvertUndoes` state that it undoes a rotation-basis transform |

## Left out

- Node construction, parameter reading and publisher setup (`ros/src/Node.cc:5-25`) are not modelled. They are ROS I/O.
- `Update`, `PublishMapPoints`, `PublishPositionAsTransform` and `PublishRenderedImage` (`ros/src/Node.cc:33-68`) are not modelled. They only fetch data and publish it.
- The `head_camera_link` lookup and the composition with it (`ros/src/Node.cc:104-126`) are not modelled. The lookup uses the tf network and a one-second wait. `Frames.ComposeApplies` models only the `tf::Transform` product itself. Because the code builds a fresh `StampedTransform` on each call, there is no cached fallback to model.
- The commented-out code at `ros/src/Node.cc:130-197` is not modelled. It is dead.
- `ParamsChangedCallback` (`ros/src/Node.cc:250-260`) and the concurrency it implies are not modelled. The observation threshold is a parameter of the serialiser instead, and its default 2 is `DefaultMinObservations`.
- Concurrent map updates are not modelled. The model takes each map point as one snapshot of `(worldPos, nObs)`. The code reads `nObs` without a lock (`ros/src/Node.cc:236`) and reads x, y and z through three separate `GetWorldPos()` calls (`ros/src/Node.cc:237-239`). If the SLAM engine's mapping threads move a point between those calls, one slot can mix coordinates of two positions, and the filter can see a stale count. The `MapPoint` class itself is not part of this model.
- Single-precision rounding is not modelled, either in the pose algebra or in the `-1.0 *` negations. Values are exact reals.
- The IEEE-754 byte pattern of a float is not modelled. A byte is either zero or byte `k` of the encoding of a value, so offsets and sizes are exact but bit layouts are not. In particular the encoding of `+0.0` is not four zero bytes here.
- MapProjector.SlotWrittenIffKept: holds of the abstract bytes only. With IEEE-754 signed zeros, a kept point at world `(-0.0, -0.0, +0.0)` writes twelve zero bytes, so its slot cannot be told apart from a dropped point's.
- The header's `stamp` and `frame_id` come from node state. They are a parameter of the serialiser.
- `PointCloud2.ReadPoint` reads only the first row of a cloud. The serialiser produces exactly one row.
- `&cloud.data[0]` on the empty buffer of an empty map is not modelled. The loop writes nothing in that case.
- The `uint32` truncation of `width = map_points.size()` appears only in `MapProjector.AsWrittenLayout`. The corrected serialiser rejects every input whose `row_step` overflows, and that covers every input whose width would be truncated.

## Findings

| source | as written | input that shows it | evidently intended | confidence | as-written member | corrected member |
|---|---|---|---|---|---|---|
| ros/src/Node.cc:215-242 | `row_step = point_step * width` is computed in `uint32` and wraps modulo 2^32. The buffer is resized to the wrapped size, but the loop still writes 12 bytes at `i * point_step` for every kept `i < width` | 357913942 points, the first one kept: `row_step` wraps to 8, the buffer gets 8 bytes, and `memcpy` writes 12 bytes into it | a cloud whose buffer holds all `12 * width` bytes, or a refusal when that size does not fit the message's 32-bit field | medium, not executed | `MapProjector.AsWrittenOverflowsBuffer` | `MapProjector.MapPointsToPointCloud` |
