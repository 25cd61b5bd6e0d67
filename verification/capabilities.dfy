/**
 The capability table of the General Service: the ordered, static list of
 every characteristic the service may expose, each with its display name,
 its sub-UUID and whether it is enabled. The table is built once, in the
 constructor, and never changes afterwards.

 The numeric sub-UUIDs live in a header that is not part of this model, so
 they are an enumeration here: what matters is which characteristic an
 entry stands for, not the number on the wire.
 */
module Capabilities {

  /** The characteristics of the General Service, by their sub-UUID. */
  datatype CharId =
    | TemperatureId
    | ChangeNameId
    | DeviceTypeId
    | RoomId
    | FirmwareId
    | MeshId
    | SetConfigurationId
    | SelectConfigurationId
    | GetConfigurationId

  /** One entry of the table. The deferred constructor the source stores
      beside each entry is determined by `id`: the entry for `RoomId` builds
      the room characteristic, and so on. */
  datatype Capability = Capability(name: string, id: CharId, enabled: bool)

  /** The sub-UUIDs of `t`, in table order. */
  function Ids(t: seq<Capability>): (r: seq<CharId>)
    ensures |r| == |t|
    ensures forall i :: 0 <= i < |t| ==> r[i] == t[i].id
  {
    seq(|t|, i requires 0 <= i < |t| => t[i].id)
  }

  /** The display names of `t`, in table order. */
  function Names(t: seq<Capability>): (r: seq<string>)
    ensures |r| == |t|
    ensures forall i :: 0 <= i < |t| ==> r[i] == t[i].name
  {
    seq(|t|, i requires 0 <= i < |t| => t[i].name)
  }

  /** True when no sub-UUID occurs twice in `s`. */
  predicate Distinct<T(==)>(s: seq<T>) {
    forall i, j :: 0 <= i < j < |s| ==> s[i] != s[j]
  }

  /** The table the constructor builds. `meshing` is the build flag
      `MESHING == 1`, which adds the mesh entry after the firmware entry. */
  function Table(meshing: bool): (t: seq<Capability>)
    ensures |t| == if meshing then 9 else 8
    ensures Distinct(Ids(t))
    ensures forall i :: 0 <= i < |t| ==>
              (t[i].enabled <==> t[i].id != DeviceTypeId && t[i].id != RoomId)
    ensures MeshId in Ids(t) <==> meshing
    ensures forall id: CharId :: id != MeshId ==> id in Ids(t)
  {
    var t := FixedHead() + MeshEntry(meshing) + FixedTail();
    TableFacts(meshing, t);
    t
  }

  /** The position of each characteristic in the table built with mesh. */
  function Ordinal(id: CharId): nat {
    match id
    case TemperatureId => 0
    case ChangeNameId => 1
    case DeviceTypeId => 2
    case RoomId => 3
    case FirmwareId => 4
    case MeshId => 5
    case SetConfigurationId => 6
    case SelectConfigurationId => 7
    case GetConfigurationId => 8
  }

  /** The facts `Table` promises, proved from each entry's position: the
      ordinals of the entries increase along the table. */
  lemma TableFacts(meshing: bool, t: seq<Capability>)
    requires t == FixedHead() + MeshEntry(meshing) + FixedTail()
    ensures |t| == if meshing then 9 else 8
    ensures Distinct(Ids(t))
    ensures forall i :: 0 <= i < |t| ==>
              (t[i].enabled <==> t[i].id != DeviceTypeId && t[i].id != RoomId)
    ensures MeshId in Ids(t) <==> meshing
    ensures forall id: CharId :: id != MeshId ==> id in Ids(t)
  {
    var shift := if meshing then 0 else 1;
    assert |t| == 9 - shift;
    forall k | 0 <= k < |t|
      ensures Ordinal(t[k].id) == if k < 5 then k else k + shift
      ensures t[k].enabled <==> t[k].id != DeviceTypeId && t[k].id != RoomId
      ensures t[k].id == MeshId ==> meshing
    {
      if k < 5 {
        assert t[k] == FixedHead()[k];
      } else if meshing && k == 5 {
        assert t[k] == Capability("Mesh", MeshId, true);
      } else {
        assert t[k] == FixedTail()[k - 6 + shift];
      }
    }
    forall i, j | 0 <= i < j < |t| ensures Ids(t)[i] != Ids(t)[j] {
      assert Ordinal(t[i].id) < Ordinal(t[j].id);
    }
    if meshing {
      assert Ids(t)[5] == MeshId;
    }
    forall id: CharId | id != MeshId ensures id in Ids(t) {
      var k := if Ordinal(id) < 5 then Ordinal(id) else Ordinal(id) - shift;
      assert Ordinal(t[k].id) == Ordinal(id);
      assert Ids(t)[k] == id;
    }
  }

  /** The entries before the optional mesh entry. */
  function FixedHead(): seq<Capability> {
    [ Capability("Temperature", TemperatureId, true),
      Capability("Change Name", ChangeNameId, true),
      Capability("Device Type", DeviceTypeId, false),
      Capability("Room", RoomId, false),
      Capability("Firmware", FirmwareId, true) ]
  }

  /** The mesh entry, present only when meshing is built in. */
  function MeshEntry(meshing: bool): seq<Capability> {
    if meshing then [Capability("Mesh", MeshId, true)] else []
  }

  /** The entries after the optional mesh entry. */
  function FixedTail(): seq<Capability> {
    [ Capability("Set configuration", SetConfigurationId, true),
      Capability("Select configuration", SelectConfigurationId, true),
      Capability("Get configuration", GetConfigurationId, true) ]
  }

  /** The characteristics that get built from table `t`: the enabled
      entries, in table order, one characteristic per entry. Disabled
      entries are skipped entirely. */
  function Registered(t: seq<Capability>): (r: seq<CharId>)
    ensures |r| <= |t|
    ensures forall id :: id in r <==> exists j :: 0 <= j < |t| && t[j].enabled && t[j].id == id
    ensures Distinct(Ids(t)) ==> Distinct(r)
  {
    if |t| == 0 then []
    else
      var rest := Registered(t[1..]);
      assert forall j :: 1 <= j < |t| ==> t[1..][j - 1] == t[j];
      assert Distinct(Ids(t)) ==> t[0].id !in rest by {
        if Distinct(Ids(t)) {
          forall j | 0 <= j < |t[1..]| ensures t[1..][j].id != t[0].id {
            assert Ids(t)[0] != Ids(t)[j + 1];
          }
        }
      }
      assert Distinct(Ids(t)) ==> Distinct(Ids(t[1..])) by {
        assert forall i :: 0 <= i < |t| - 1 ==> Ids(t[1..])[i] == Ids(t)[i + 1];
      }
      if t[0].enabled then [t[0].id] + rest else rest
  }

  /** Building from a concatenation builds from each part in turn. */
  lemma {:induction false} RegisteredAppend(a: seq<Capability>, b: seq<Capability>)
    ensures Registered(a + b) == Registered(a) + Registered(b)
  {
    if |a| == 0 {
      assert a + b == b;
    } else {
      assert (a + b)[1..] == a[1..] + b;
      RegisteredAppend(a[1..], b);
    }
  }

  /** The table lists its entries in the constructor's order, with the mesh
      entry present exactly when meshing is built in. */
  lemma TableOrder(meshing: bool)
    ensures Names(Table(meshing)) ==
              ["Temperature", "Change Name", "Device Type", "Room", "Firmware"]
              + (if meshing then ["Mesh"] else [])
              + ["Set configuration", "Select configuration", "Get configuration"]
    ensures Ids(Table(meshing)) ==
              [TemperatureId, ChangeNameId, DeviceTypeId, RoomId, FirmwareId]
              + (if meshing then [MeshId] else [])
              + [SetConfigurationId, SelectConfigurationId, GetConfigurationId]
  {
  }

  /** Building from the shipped table gives every characteristic except
      device type and room, in table order: six of them, seven with mesh. */
  lemma RegisteredFromTable(meshing: bool)
    ensures Registered(Table(meshing)) ==
              [TemperatureId, ChangeNameId, FirmwareId]
              + (if meshing then [MeshId] else [])
              + [SetConfigurationId, SelectConfigurationId, GetConfigurationId]
    ensures |Registered(Table(meshing))| == if meshing then 7 else 6
    ensures DeviceTypeId !in Registered(Table(meshing))
    ensures RoomId !in Registered(Table(meshing))
  {
    assert Table(meshing) == FixedHead() + MeshEntry(meshing) + FixedTail();
    RegisteredParts(meshing);
  }

  /** `RegisteredFromTable`, stated over the pieces the table is made of. */
  lemma RegisteredParts(meshing: bool)
    ensures Registered(FixedHead() + MeshEntry(meshing) + FixedTail()) ==
              [TemperatureId, ChangeNameId, FirmwareId]
              + (if meshing then [MeshId] else [])
              + [SetConfigurationId, SelectConfigurationId, GetConfigurationId]
  {
    var mesh := MeshEntry(meshing);
    RegisteredAppend(FixedHead() + mesh, FixedTail());
    RegisteredAppend(FixedHead(), mesh);
    RegisteredHead();
    RegisteredTail();
    assert Registered(mesh) == (if meshing then [MeshId] else []) by {
      if meshing { assert mesh[1..] == []; }
    }
  }

  /** The entries before the mesh entry build temperature, change name and
      firmware. */
  lemma RegisteredHead()
    ensures Registered(FixedHead()) == [TemperatureId, ChangeNameId, FirmwareId]
  {
    var h := FixedHead();
    assert Registered(h[4..]) == [FirmwareId] by { assert h[4..][1..] == []; }
    assert h[3..][1..] == h[4..];
    assert h[2..][1..] == h[3..];
    assert h[1..][1..] == h[2..];
  }

  /** The entries after the mesh entry build all three configuration
      characteristics. */
  lemma RegisteredTail()
    ensures Registered(FixedTail()) == [SetConfigurationId, SelectConfigurationId, GetConfigurationId]
  {
    var t := FixedTail();
    assert Registered(t[2..]) == [GetConfigurationId] by { assert t[2..][1..] == []; }
    assert t[1..][1..] == t[2..];
  }
}
