/**
 Where the set-configuration handler as written and the intended one part
 ways.

 The source's switch has no `break` after the name case, so a name write
 runs on into the floor case and from there into the default case; and the
 floor case changes the floor in memory without saving it. Both handlers
 agree everywhere else.
 */
module Fallthrough {
  import opened Types
  import CString
  import opened Capabilities
  import opened GeneralService
  import opened Dispatch

  /** A write of an unknown configuration type is refused the same way by
      both handlers. */
  lemma UnknownTypeAgrees(ids: ConfigIds, svc: Service, buf: StreamBuffer)
    requires WellFormed(buf)
    requires buf.configType != ids.nameType && buf.configType != ids.floorType
    ensures SetConfiguration(ids, svc, buf) == SetConfigurationIntended(ids, svc, buf)
    ensures SetConfiguration(ids, svc, buf).service == svc
  {
  }

  /** A name write as written does everything the intended one does, then
      takes a one-byte payload as the floor too (and warns that there is no
      such configuration id), or warns about the floor length and stops. */
  lemma NameWriteFallsThrough(ids: ConfigIds, svc: Service, buf: StreamBuffer)
    requires WellFormed(buf) && buf.configType == ids.nameType
    ensures var asWritten := SetConfiguration(ids, svc, buf);
            var intended := SetConfigurationIntended(ids, svc, buf);
            && asWritten.service ==
                 (if buf.length == 1
                  then intended.service.(memory := intended.service.memory.(floor := buf.payload[0]))
                  else intended.service)
            && asWritten.diagnostics ==
                 intended.diagnostics + (if buf.length == 1 then [NoSuchConfigurationId] else [FloorNotOneByte])
  {
  }

  /** A one-byte floor write puts the same floor in memory either way, but
      only the intended handler saves it. */
  lemma FloorWriteUnsaved(ids: ConfigIds, svc: Service, buf: StreamBuffer)
    requires WellFormed(buf) && buf.configType == ids.floorType && buf.length == 1
    ensures var asWritten := SetConfiguration(ids, svc, buf);
            var intended := SetConfigurationIntended(ids, svc, buf);
            && asWritten.service.memory == intended.service.memory
            && asWritten.service.persisted == svc.persisted
            && intended.service.persisted == intended.service.memory
            && asWritten.diagnostics == [NoSuchConfigurationId]
            && intended.diagnostics == []
  {
  }

  /** The two handlers leave the same configuration in memory unless a
      one-byte name write carries a byte other than the current floor. */
  lemma MemoryDiffersIff(ids: ConfigIds, svc: Service, buf: StreamBuffer)
    requires WellFormed(buf)
    ensures SetConfiguration(ids, svc, buf).service.memory != SetConfigurationIntended(ids, svc, buf).service.memory
            <==> buf.configType == ids.nameType && buf.length == 1 && buf.payload[0] != svc.memory.floor
  {
    var asWritten := SetConfiguration(ids, svc, buf);
    var intended := SetConfigurationIntended(ids, svc, buf);
    if buf.configType == ids.nameType {
      NameWriteFallsThrough(ids, svc, buf);
      if buf.length == 1 && buf.payload[0] != svc.memory.floor {
        assert asWritten.service.memory.floor != intended.service.memory.floor;
      }
    }
  }

  /** The two handlers leave the same service state exactly when neither a
      one-byte name write moves the floor nor a one-byte floor write leaves
      storage behind memory. */
  lemma StateDiffersIff(ids: ConfigIds, svc: Service, buf: StreamBuffer)
    requires WellFormed(buf)
    ensures SetConfiguration(ids, svc, buf).service != SetConfigurationIntended(ids, svc, buf).service
            <==> || (buf.configType == ids.nameType && buf.length == 1 && buf.payload[0] != svc.memory.floor)
                 || (buf.configType == ids.floorType && buf.length == 1
                     && svc.persisted != svc.memory.(floor := buf.payload[0]))
  {
    var asWritten := SetConfiguration(ids, svc, buf);
    var intended := SetConfigurationIntended(ids, svc, buf);
    MemoryDiffersIff(ids, svc, buf);
    if buf.configType == ids.nameType {
      NameWriteFallsThrough(ids, svc, buf);
    } else if buf.configType == ids.floorType && buf.length == 1 {
      FloorWriteUnsaved(ids, svc, buf);
      if svc.persisted != svc.memory.(floor := buf.payload[0]) {
        assert asWritten.service.persisted != intended.service.persisted;
      }
    }
  }

  /** Witness of the missing `break`: a one-byte name write of 'A' to any
      service whose floor is not 65 leaves the floor at 65, logs that there
      is no such configuration id, and differs from the intended handler. */
  lemma NameWriteOverwritesFloor(ids: ConfigIds, svc: Service)
    requires svc.memory.floor != 65
    ensures var buf := StreamBuffer(ids.nameType, 1, [65]);
            var asWritten := SetConfiguration(ids, svc, buf);
            && asWritten.service.memory.deviceName == "A"
            && asWritten.service.memory.floor == 65
            && NoSuchConfigurationId in asWritten.diagnostics
            && SetConfigurationIntended(ids, svc, buf).service.memory.floor == svc.memory.floor
  {
    var buf := StreamBuffer(ids.nameType, 1, [65]);
    assert CString.Decode(buf.payload) == [CString.CharOf(65)] + CString.Decode([]);
  }

  /** Writing the empty name, which on the wire is the single byte NUL,
      resets the floor to 0 as well. */
  lemma EmptyNameResetsFloor(ids: ConfigIds, svc: Service)
    ensures var buf := StreamBuffer(ids.nameType, 1, CString.Encode(""));
            && SetConfiguration(ids, svc, buf).service.memory.deviceName == ""
            && SetConfiguration(ids, svc, buf).service.memory.floor == 0
  {
  }

  /** A name write whose payload is the encoded name, NUL included, stores
      that name with either handler; the handler as written also moves the
      floor exactly when the name is empty. */
  lemma EncodedNameWrite(ids: ConfigIds, svc: Service, name: string)
    requires CString.IsCText(name) && |name| < 0xFF
    ensures var buf := StreamBuffer(ids.nameType, (|name| + 1) as byte, CString.Encode(name));
            && SetConfiguration(ids, svc, buf).service.memory.deviceName == name
            && SetConfigurationIntended(ids, svc, buf).service.memory.deviceName == name
            && (SetConfiguration(ids, svc, buf).service.memory.floor != svc.memory.floor ==> name == "")
  {
    CString.DecodeEncode(name, []);
    assert CString.Encode(name) + [] == CString.Encode(name);
  }

  /** Witness of the missing save: a one-byte floor write of 42 to a service
      whose memory and storage agree, and whose floor is not 42, leaves
      storage behind memory; the intended handler keeps them in step. */
  lemma FloorWriteNotPersisted(ids: ConfigIds, svc: Service)
    requires Consistent(svc) && svc.memory.floor != 42
    ensures var buf := StreamBuffer(ids.floorType, 1, [42]);
            && SetConfiguration(ids, svc, buf).service.memory.floor == 42
            && SetConfiguration(ids, svc, buf).service.persisted.floor == svc.memory.floor
            && !Consistent(SetConfiguration(ids, svc, buf).service)
            && Consistent(SetConfigurationIntended(ids, svc, buf).service)
            && SetConfigurationIntended(ids, svc, buf).service.persisted.floor == 42
  {
  }

  /** As written, an unsaved floor is not lost: the next change-name write
      saves the whole record, floor included. */
  lemma PendingFloorSavedByNextName(ids: ConfigIds, svc: Service, floor: byte, name: string)
    requires SetConfigurationId in svc.channels && ChangeNameId in svc.channels
    ensures var ws := [SetConfig(StreamBuffer(ids.floorType, 1, [floor])), ChangeName(name)];
            var o := Run(AsWritten, ids, svc, ws);
            && o.Continue?
            && Consistent(o.step.service)
            && o.step.service.persisted.floor == floor
            && o.step.service.persisted.deviceName == name
  {
    var ws := [SetConfig(StreamBuffer(ids.floorType, 1, [floor])), ChangeName(name)];
    var first := HandleWrite(AsWritten, ids, svc, ws[0]);
    assert first.Continue? && first.step.service.memory.floor == floor;
    var mid := first.step.service;
    var second := HandleWrite(AsWritten, ids, mid, ChangeName(name));
    assert second.Continue? && second.step.service.persisted == mid.memory.(deviceName := name);
    assert ws[1..] == [ChangeName(name)] && ws[1..][1..] == [];
    assert Run(AsWritten, ids, second.step.service, []) == Continue(Step(second.step.service, []));
    assert Run(AsWritten, ids, mid, ws[1..]).step.service == second.step.service;
  }

  /** As written, repeating a one-byte name write is not idempotent: the
      first write saves the record before the floor changes, the second
      saves the floor the first one set, so storage differs after one write
      and after two whenever the byte is not the stored floor. */
  lemma NameWriteTwiceSavesFloor(ids: ConfigIds, svc: Service, buf: StreamBuffer)
    requires WellFormed(buf) && buf.configType == ids.nameType && buf.length == 1
    ensures var once := SetConfiguration(ids, svc, buf).service;
            var twice := SetConfiguration(ids, once, buf).service;
            && once.persisted.floor == svc.memory.floor
            && twice.persisted.floor == buf.payload[0]
            && Consistent(twice)
            && (buf.payload[0] != svc.memory.floor ==> twice != once)
  {
    var once := SetConfiguration(ids, svc, buf).service;
    var twice := SetConfiguration(ids, once, buf).service;
    assert once.memory.floor == buf.payload[0];
    assert twice.persisted == once.memory.(deviceName := CString.Decode(buf.payload));
    if buf.payload[0] != svc.memory.floor {
      assert twice.persisted.floor != once.persisted.floor;
    }
  }

  /** The missing `break` shows through dispatch: a run of one one-byte name
      write, delivered to a built set-configuration characteristic, moves the
      floor as written and leaves it alone with the intended handler. */
  lemma DispatchedNameWriteMovesFloor(ids: ConfigIds, svc: Service, b: byte)
    requires SetConfigurationId in svc.channels && b != svc.memory.floor
    ensures var ws := [SetConfig(StreamBuffer(ids.nameType, 1, [b]))];
            && Run(AsWritten, ids, svc, ws).Continue?
            && Run(AsWritten, ids, svc, ws).step.service.memory.floor == b
            && Run(Intended, ids, svc, ws).Continue?
            && Run(Intended, ids, svc, ws).step.service.memory.floor == svc.memory.floor
  {
    var ws := [SetConfig(StreamBuffer(ids.nameType, 1, [b]))];
    assert ws[1..] == [];
    var a := HandleWrite(AsWritten, ids, svc, ws[0]);
    var i := HandleWrite(Intended, ids, svc, ws[0]);
    assert Run(AsWritten, ids, a.step.service, []) == Continue(Step(a.step.service, []));
    assert Run(Intended, ids, i.step.service, []) == Continue(Step(i.step.service, []));
  }
}
