/** The parts of a `sensor_msgs/PointCloud2` message that the map-point
    serialiser fills in, and how a subscriber reads a point back out of it
    through the field descriptors.

    The data buffer is a sequence of abstract bytes: a byte is either still
    zero, as `resize` leaves it, or byte `part` of the 4-byte encoding of a
    single-precision value. The IEEE-754 bit pattern itself is not modelled;
    the one fact about it the model relies on is that four zero bytes read
    as `0.0`. */
module PointCloud2 {
  import opened Wrappers
  import opened Linear

  /** `sizeof(float)`. */
  const FloatSize: nat := 4

  /** The `FLOAT32` datatype code of `sensor_msgs/PointField`. */
  const Float32: nat := 7

  /** Exclusive upper bound of the `uint32` message fields. */
  const Uint32Limit: nat := 0x1_0000_0000

  /** A channel descriptor; `kind` is the message's `datatype` code. */
  datatype PointField = PointField(name: string, offset: nat, kind: nat, count: nat)

  datatype Byte = Zero | FloatByte(value: real, part: nat)

  datatype Header = Header(stamp: int, frameId: string)

  datatype Cloud = Cloud(
    header: Header,
    height: nat,
    width: nat,
    isBigendian: bool,
    isDense: bool,
    pointStep: nat,
    rowStep: nat,
    fields: seq<PointField>,
    data: seq<Byte>)

  /** A freshly resized buffer of `n` bytes. */
  function ZeroBytes(n: nat): (r: seq<Byte>)
    ensures |r| == n
    ensures forall j :: 0 <= j < n ==> r[j] == Zero
  {
    seq(n, _ => Zero)
  }

  /** The four bytes of one single-precision value. */
  function FloatBytes(v: real): seq<Byte> {
    [FloatByte(v, 0), FloatByte(v, 1), FloatByte(v, 2), FloatByte(v, 3)]
  }

  /** Reads one single-precision value from four bytes: all-zero bytes are
      `0.0`, the encoding of `v` is `v`, anything else is not a value this
      model produces. */
  function DecodeFloat(b: seq<Byte>): Option<real>
    requires |b| == FloatSize
  {
    if b == ZeroBytes(FloatSize) then Some(0.0)
    else if b[0].FloatByte? && b == FloatBytes(b[0].value) then Some(b[0].value)
    else None
  }

  /** Encoding then decoding a value gives it back, and so does a zeroed
      float slot give back `0.0`. */
  lemma DecodeFloatRoundTrip(v: real)
    ensures DecodeFloat(FloatBytes(v)) == Some(v)
    ensures DecodeFloat(ZeroBytes(FloatSize)) == Some(0.0)
  {
    assert FloatBytes(v)[0] != Zero;
  }

  /** `memcpy(dst + offset, src, |src|)` into a buffer large enough for it:
      exactly the bytes `offset .. offset + |src|` change, and they become
      `src`. */
  function Memcpy(dst: seq<Byte>, offset: nat, src: seq<Byte>): (r: seq<Byte>)
    requires offset + |src| <= |dst|
    ensures |r| == |dst|
    ensures r[offset..offset + |src|] == src
    ensures forall j :: 0 <= j < |dst| && !(offset <= j < offset + |src|) ==> r[j] == dst[j]
  {
    dst[..offset] + src + dst[offset + |src|..]
  }

  /** The copy seen as three pieces: the bytes before, `src`, the bytes
      after. */
  lemma MemcpyParts(dst: seq<Byte>, offset: nat, src: seq<Byte>)
    requires offset + |src| <= |dst|
    ensures Memcpy(dst, offset, src)[..offset + |src|] == dst[..offset] + src
    ensures Memcpy(dst, offset, src)[offset + |src|..] == dst[offset + |src|..]
  {
  }

  /** The first field descriptor with the given name, as a subscriber looks
      a channel up. */
  function FindField(fields: seq<PointField>, name: string): (r: Option<PointField>)
    ensures r.Some? <==> exists k :: 0 <= k < |fields| && fields[k].name == name
    ensures r.Some? ==> r.value in fields && r.value.name == name
    ensures r.Some? ==> exists k :: 0 <= k < |fields| && fields[k] == r.value
                                   && forall j :: 0 <= j < k ==> fields[j].name != name
  {
    if |fields| == 0 then None
    else if fields[0].name == name then Some(fields[0])
    else
      var rest := FindField(fields[1..], name);
      assert forall k :: 1 <= k < |fields| ==> fields[k] == fields[1..][k - 1];
      if rest.Some? then
        var k :| 0 <= k < |fields[1..]| && fields[1..][k] == rest.value
                 && forall j :: 0 <= j < k ==> fields[1..][j].name != name;
        assert fields[k + 1] == rest.value;
        assert forall j :: 0 <= j < k + 1 ==> fields[j].name != name;
        rest
      else rest
  }

  /** The value of field `f` of point `i`: four bytes at `i * point_step +
      offset`, when the field is one single-precision value and lies inside
      the buffer. */
  function ReadFloat(c: Cloud, i: nat, f: PointField): Option<real> {
    var start := i * c.pointStep + f.offset;
    if f.kind == Float32 && f.count == 1 && start + FloatSize <= |c.data|
    then DecodeFloat(c.data[start..start + FloatSize])
    else None
  }

  /** Point `i` of the cloud's first row read through its `x`, `y` and `z`
      fields. */
  function ReadPoint(c: Cloud, i: nat): Option<Vec3> {
    if c.height == 0 || i >= c.width then None
    else
      match (FindField(c.fields, "x"), FindField(c.fields, "y"), FindField(c.fields, "z"))
      case (Some(fx), Some(fy), Some(fz)) =>
        (match (ReadFloat(c, i, fx), ReadFloat(c, i, fy), ReadFloat(c, i, fz))
         case (Some(x), Some(y), Some(z)) => Some(Vec3(x, y, z))
         case _ => None)
      case _ => None
  }
}
