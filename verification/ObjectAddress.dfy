/**
 BACnet addresses of points.  A point is a unit of a device of some type and an offset within
 the unit; the object instance packs the four numbers in mixed radix, and a BACnet object
 identifier packs the instance with a ten-bit object type.  All arithmetic is 32-bit unsigned.
 */
module ObjectAddress {
  const MAX_OBJECT_INSTANCE: bv32 := 1048576

  /** One line of the point file, and the offset of the property in question. */
  datatype Point = Point(kind: bv32, device: bv32, unit: bv32, offset: bv32)

  function DeviceNumber(kind: bv32, device: bv32): bv32 {
    9000 + device + kind * 16
  }

  function DeviceInstance(p: Point): bv32 {
    DeviceNumber(p.kind, p.device)
  }

  function PackedInstance(kind: bv32, device: bv32, unit: bv32, offset: bv32): bv32 {
    kind * 65536 + device * 4096 + unit * 256 + offset
  }

  function ObjectInstance(p: Point): bv32 {
    PackedInstance(p.kind, p.device, p.unit, p.offset)
  }

  /** The address fields read back from an object instance. */
  function PointOf(instance: bv32): Point {
    Point(instance >> 16, (instance >> 12) & 0xF, (instance >> 8) & 0xF, instance & 0xFF)
  }

  /** What fits the packing: sixteen devices and units, 256 offsets. */
  predicate Packable(p: Point) {
    p.kind < 65536 && p.device < 16 && p.unit < 16 && p.offset < 256
  }

  lemma UnpackInstance(t: bv32, d: bv32, u: bv32, o: bv32)
    requires t < 65536 && d < 16 && u < 16 && o < 256
    ensures ((t * 65536 + d * 4096 + u * 256 + o) >> 16) == t
    ensures ((t * 65536 + d * 4096 + u * 256 + o) >> 12) & 0xF == d
    ensures ((t * 65536 + d * 4096 + u * 256 + o) >> 8) & 0xF == u
    ensures (t * 65536 + d * 4096 + u * 256 + o) & 0xFF == o
  {
  }

  /** Unpacking an object instance gives the point back exactly when all its fields fit. */
  lemma PointRoundTripIff(p: Point)
    ensures PointOf(ObjectInstance(p)) == p <==> Packable(p)
  {
    if Packable(p) {
      UnpackInstance(p.kind, p.device, p.unit, p.offset);
    } else {
      FieldRanges(ObjectInstance(p));
    }
  }

  lemma FieldRanges(instance: bv32)
    ensures Packable(PointOf(instance))
  {
  }

  /** Distinct points that fit have distinct instances, so they share no cache slot and no address. */
  lemma InstanceInjective(p: Point, q: Point)
    requires Packable(p) && Packable(q)
    ensures ObjectInstance(p) == ObjectInstance(q) <==> p == q
  {
    hide Packable, ObjectInstance;
    PointRoundTripIff(p);
    PointRoundTripIff(q);
  }

  /** Points that fit lie within the caches exactly for the first sixteen types. */
  lemma InstanceInCacheIff(p: Point)
    requires Packable(p)
    ensures ObjectInstance(p) < MAX_OBJECT_INSTANCE <==> p.kind < 16
    ensures MAX_OBJECT_INSTANCE == 1048576
  {
    InstanceBound(p.kind, p.device, p.unit, p.offset);
  }

  lemma InstanceBound(t: bv32, d: bv32, u: bv32, o: bv32)
    requires t < 65536 && d < 16 && u < 16 && o < 256
    ensures t * 65536 + d * 4096 + u * 256 + o < 1048576 <==> t < 16
  {
  }

  /** The type and the device read back from a device instance. */
  function TypeOf(device_instance: bv32): bv32 {
    (device_instance - 9000) >> 4
  }

  function DeviceOf(device_instance: bv32): bv32 {
    (device_instance - 9000) & 0xF
  }

  lemma SixteenDevices(t: bv32, d: bv32)
    requires t < 65536 && d < 16
    ensures TypeOf(DeviceNumber(t, d)) == t && DeviceOf(DeviceNumber(t, d)) == d
  {
  }

  lemma DeviceInstanceFields(p: Point)
    requires Packable(p)
    ensures TypeOf(DeviceInstance(p)) == p.kind && DeviceOf(DeviceInstance(p)) == p.device
  {
    SixteenDevices(p.kind, p.device);
  }

  lemma DeviceInstanceFromFields(p: Point, q: Point)
    requires p.kind == q.kind && p.device == q.device
    ensures DeviceInstance(p) == DeviceInstance(q)
  {
    hide DeviceNumber;
  }

  /** The device instance names the type and the device. */
  lemma DeviceInstanceInjective(p: Point, q: Point)
    requires Packable(p) && Packable(q)
    ensures DeviceInstance(p) == DeviceInstance(q) <==> p.kind == q.kind && p.device == q.device
  {
    hide DeviceInstance, TypeOf, DeviceOf, Packable;
    DeviceInstanceFields(p);
    DeviceInstanceFields(q);
    if p.kind == q.kind && p.device == q.device {
      DeviceInstanceFromFields(p, q);
    }
  }

  /** Device instances start at 9000; devices of a type follow each other, then the types. */
  lemma DeviceNumbersInOrder(t: bv32, d: bv32)
    ensures DeviceNumber(0, 0) == 9000
    ensures DeviceNumber(t, d + 1) == DeviceNumber(t, d) + 1
    ensures DeviceNumber(t + 1, 0) == DeviceNumber(t, 15) + 1
  {
    hide DeviceNumber;
    FirstDeviceNumber();
    NextDeviceNumber(t, d);
    NextTypeNumber(t);
  }

  lemma FirstDeviceNumber()
    ensures DeviceNumber(0, 0) == 9000
  {
  }

  lemma NextDeviceNumber(t: bv32, d: bv32)
    ensures DeviceNumber(t, d + 1) == DeviceNumber(t, d) + 1
  {
  }

  lemma NextTypeNumber(t: bv32)
    ensures DeviceNumber(t + 1, 0) == DeviceNumber(t, 15) + 1
  {
  }

  /** Object instances start at 0 and run through offsets, units, devices and types in this order. */
  lemma InstancesInOrder(t: bv32, d: bv32, u: bv32, o: bv32)
    requires t < 65536 && d < 16 && u < 16
    ensures PackedInstance(0, 0, 0, 0) == 0
    ensures PackedInstance(t, d, u, o + 1) == PackedInstance(t, d, u, o) + 1
    ensures u < 15 ==> PackedInstance(t, d, u + 1, 0) == PackedInstance(t, d, u, 255) + 1
    ensures d < 15 ==> PackedInstance(t, d + 1, 0, 0) == PackedInstance(t, d, 15, 255) + 1
    ensures PackedInstance(t + 1, 0, 0, 0) == PackedInstance(t, 15, 15, 255) + 1
  {
    hide PackedInstance;
    FirstInstance();
    NextOffset(t, d, u, o);
    if u < 15 {
      NextUnit(t, d, u);
    }
    if d < 15 {
      NextDevice(t, d);
    }
    NextType(t);
  }

  lemma FirstInstance()
    ensures PackedInstance(0, 0, 0, 0) == 0
  {
  }

  lemma NextOffset(t: bv32, d: bv32, u: bv32, o: bv32)
    ensures PackedInstance(t, d, u, o + 1) == PackedInstance(t, d, u, o) + 1
  {
  }

  lemma NextUnit(t: bv32, d: bv32, u: bv32)
    requires t < 65536 && d < 16 && u < 15
    ensures PackedInstance(t, d, u + 1, 0) == PackedInstance(t, d, u, 255) + 1
  {
  }

  lemma NextDevice(t: bv32, d: bv32)
    requires t < 65536 && d < 15
    ensures PackedInstance(t, d + 1, 0, 0) == PackedInstance(t, d, 15, 255) + 1
  {
  }

  lemma NextType(t: bv32)
    ensures PackedInstance(t + 1, 0, 0, 0) == PackedInstance(t, 15, 15, 255) + 1
  {
  }

  /** Fields that do not fit do collide: unit 16 of device 0 answers as unit 0 of device 1. */
  lemma OversizedUnitsCollide(o: bv32)
    ensures ObjectInstance(Point(0, 0, 16, o)) == ObjectInstance(Point(0, 1, 0, o))
  {
  }

  // ---------------------------------------------------------------- object identifiers

  /** BACNET_ID_VALUE */
  function IdValue(instance: bv32, kind: bv32): bv32 {
    ((kind & 0x3FF) << 22) | (instance & 0x3FFFFF)
  }

  /** BACNET_INSTANCE */
  function IdInstance(id: bv32): bv32 {
    id & 0x3FFFFF
  }

  /** BACNET_TYPE */
  function IdType(id: bv32): bv32 {
    (id >> 22) & 0x3FF
  }

  lemma InstanceBits(instance: bv32)
    ensures instance & 0x3FFFFF == instance <==> instance <= 0x3FFFFF
  {
  }

  /** An identifier keeps type and instance exactly when they fit ten and twenty-two bits. */
  lemma IdRoundTripIff(instance: bv32, kind: bv32)
    ensures IdInstance(IdValue(instance, kind)) == instance && IdType(IdValue(instance, kind)) == kind <==>
            instance <= 0x3FFFFF && kind <= 0x3FF
  {
    hide IdValue, IdInstance, IdType;
    IdParts(instance, kind);
    InstanceBits(instance);
  }

  /** Identifiers are ordered by type first; within type 0 an identifier is the instance itself. */
  lemma IdsInOrder(instance: bv32, kind: bv32, other: bv32, larger: bv32)
    requires instance <= 0x3FFFFF && other <= 0x3FFFFF && kind < larger <= 0x3FF
    ensures IdValue(instance, 0) == instance
    ensures IdValue(instance, kind) < IdValue(other, larger)
  {
  }

  /** Every identifier is the packing of what it unpacks to. */
  lemma IdUnpackPack(id: bv32)
    ensures IdValue(IdInstance(id), IdType(id)) == id
  {
  }

  lemma IdParts(instance: bv32, kind: bv32)
    ensures IdInstance(IdValue(instance, kind)) == instance & 0x3FFFFF
    ensures IdType(IdValue(instance, kind)) == kind <==> kind <= 0x3FF
    ensures PointOf(instance & 0x3FFFFF).kind < 64 && Packable(PointOf(instance & 0x3FFFFF))
  {
  }

  lemma SmallInstance(t: bv32, d: bv32, u: bv32, o: bv32)
    requires t < 64 && d < 16 && u < 16 && o < 256
    ensures (t * 65536 + d * 4096 + u * 256 + o) & 0x3FFFFF == t * 65536 + d * 4096 + u * 256 + o
  {
  }

  /** A point and an object type survive both packings exactly when every field fits its place. */
  lemma AddressRoundTripIff(p: Point, kind: bv32)
    ensures PointOf(IdInstance(IdValue(ObjectInstance(p), kind))) == p &&
            IdType(IdValue(ObjectInstance(p), kind)) == kind <==>
            Packable(p) && p.kind < 64 && kind <= 0x3FF
  {
    hide IdValue, IdInstance, IdType, PointOf;
    IdParts(ObjectInstance(p), kind);
    PointRoundTripIff(p);
    if Packable(p) && p.kind < 64 {
      SmallInstance(p.kind, p.device, p.unit, p.offset);
    }
  }
}
