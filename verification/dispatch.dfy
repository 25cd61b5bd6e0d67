/**
 Routing of characteristic writes to their handlers, and runs of writes.

 A write reaches a handler only when its characteristic was built; writes to
 a characteristic that does not exist are never delivered and change
 nothing. `Variant` chooses between the set-configuration handler as the
 source writes it and the variant with its cases kept apart.
 */
module Dispatch {
  import opened Types
  import CString
  import opened Capabilities
  import opened GeneralService

  /** Which set-configuration handler the service runs. */
  datatype Variant = AsWritten | Intended

  /** A write to one of the writable characteristics. */
  datatype Write =
    | ChangeName(name: string)
    | DeviceType(deviceType: string)
    | Room(room: string)
    | Firmware(command: int32)
    | SetConfig(buffer: StreamBuffer)
    | SelectConfig(selected: byte)

  /** What a write leads to: the service carries on, or the chip resets with
      `command` left for the bootloader. */
  datatype Outcome = Continue(step: Step) | SystemReset(command: nat)

  /** The characteristic a write is addressed to. */
  function Target(w: Write): CharId {
    match w
    case ChangeName(_) => ChangeNameId
    case DeviceType(_) => DeviceTypeId
    case Room(_) => RoomId
    case Firmware(_) => FirmwareId
    case SetConfig(_) => SetConfigurationId
    case SelectConfig(_) => SelectConfigurationId
  }

  /** A write the transport can deliver: configuration buffers are laid out
      as the wire format says. */
  predicate Deliverable(w: Write) {
    w.SetConfig? ==> WellFormed(w.buffer)
  }

  /** True when `w` asks for a firmware update. */
  predicate ResetsChip(w: Write) {
    w.Firmware? && w.command != 0
  }

  /** One write, handled by the characteristic it is addressed to. */
  function HandleWrite(variant: Variant, ids: ConfigIds, svc: Service, w: Write): (r: Outcome)
    requires Deliverable(w)
    ensures Target(w) !in svc.channels ==> r == Continue(Step(svc, []))
    ensures r.SystemReset? <==> Target(w) in svc.channels && ResetsChip(w)
    ensures r.SystemReset? ==> r.command == COMMAND_ENTER_RADIO_BOOTLOADER
    ensures r.Continue? ==>
              && r.step.service.channels == svc.channels
              && r.step.service.temperature == svc.temperature
              && (svc.selection < ids.configTypes ==> r.step.service.selection < ids.configTypes)
    // a delivered write runs the handler of its own characteristic
    ensures Target(w) in svc.channels && w.ChangeName? ==>
              && r.Continue?
              && r.step.service.memory == svc.memory.(deviceName := w.name)
              && Consistent(r.step.service)
              && r.step.service.stack ==
                   (if |w.name| <= MAX_BLE_NAME_LENGTH && svc.stack.Some? then Some(Stack(w.name)) else svc.stack)
              && r.step.service.(memory := svc.memory, persisted := svc.persisted, stack := svc.stack) == svc
              && r.step.diagnostics == (if |w.name| > MAX_BLE_NAME_LENGTH then [NameTooLong] else [])
    // the clause above spells out the effect; this one ties it to the handler
    ensures Target(w) in svc.channels && w.ChangeName? ==> r == Continue(ChangeNameWrite(svc, w.name))
    ensures Target(w) in svc.channels && w.Room? ==>
              && r.Continue?
              && r.step.service.memory == svc.memory.(room := w.room)
              && Consistent(r.step.service)
              && r.step.service.(memory := svc.memory, persisted := svc.persisted) == svc
    ensures Target(w) in svc.channels && w.DeviceType? ==>
              && r.Continue?
              && r.step.service.memory == svc.memory.(deviceType := w.deviceType)
              && Consistent(r.step.service)
              && r.step.service.(memory := svc.memory, persisted := svc.persisted) == svc
    ensures Target(w) in svc.channels && w.Room? ==> r == Continue(Step(RoomWrite(svc, w.room), []))
    ensures Target(w) in svc.channels && w.DeviceType? ==>
              r == Continue(Step(DeviceTypeWrite(svc, w.deviceType), []))
    ensures Target(w) in svc.channels && w.Firmware? && w.command == 0 ==>
              r == Continue(Step(svc, []))
    ensures Target(w) in svc.channels && w.SelectConfig? ==>
              && r.Continue?
              && r.step.service.selection == (if w.selected < ids.configTypes then w.selected else svc.selection)
              && r.step.service.(selection := svc.selection) == svc
              && r.step.diagnostics == (if w.selected < ids.configTypes then [] else [CannotSelect(w.selected)])
    ensures Target(w) in svc.channels && w.SelectConfig? ==>
              r == Continue(SelectConfiguration(ids, svc, w.selected))
    // the variant picks the set-configuration handler
    ensures Target(w) in svc.channels && w.SetConfig? ==>
              r == Continue(if variant == AsWritten then SetConfiguration(ids, svc, w.buffer)
                            else SetConfigurationIntended(ids, svc, w.buffer))
    ensures Target(w) in svc.channels && w.SetConfig? && variant == AsWritten
            && w.buffer.configType == ids.nameType && w.buffer.length == 1 ==>
              r.step.service.memory.floor == w.buffer.payload[0]
    ensures Target(w) in svc.channels && w.SetConfig? && variant == Intended ==>
              (Consistent(svc) ==> Consistent(r.step.service))
              && r.step.service.memory.floor ==
                   (if w.buffer.configType == ids.floorType && w.buffer.length == 1
                    then w.buffer.payload[0] else svc.memory.floor)
  {
    if Target(w) !in svc.channels then Continue(Step(svc, []))
    else
      match w
      case ChangeName(name) => Continue(ChangeNameWrite(svc, name))
      case DeviceType(t) => Continue(Step(DeviceTypeWrite(svc, t), []))
      case Room(room) => Continue(Step(RoomWrite(svc, room), []))
      case Firmware(value) =>
        (match FirmwareWrite(value)
         case EnterBootloader(command) => SystemReset(command)
         case Stay => Continue(Step(svc, [])))
      case SetConfig(buf) =>
        if variant == AsWritten then Continue(SetConfiguration(ids, svc, buf))
        else Continue(SetConfigurationIntended(ids, svc, buf))
      case SelectConfig(value) => Continue(SelectConfiguration(ids, svc, value))
  }

  /** A sequence of writes, handled in order; a reset ends the run. The
      diagnostics of the writes are collected in order. */
  function Run(variant: Variant, ids: ConfigIds, svc: Service, ws: seq<Write>): (r: Outcome)
    requires forall i :: 0 <= i < |ws| ==> Deliverable(ws[i])
    ensures r.SystemReset? <==>
              exists i :: 0 <= i < |ws| && ResetsChip(ws[i]) && Target(ws[i]) in svc.channels
    ensures r.Continue? ==>
              && r.step.service.channels == svc.channels
              && r.step.service.temperature == svc.temperature
              && (svc.selection < ids.configTypes ==> r.step.service.selection < ids.configTypes)
    decreases |ws|
  {
    if |ws| == 0 then Continue(Step(svc, []))
    else
      match HandleWrite(variant, ids, svc, ws[0])
      case SystemReset(command) => SystemReset(command)
      case Continue(first) =>
        assert forall i :: 1 <= i < |ws| ==> ws[1..][i - 1] == ws[i];
        match Run(variant, ids, first.service, ws[1..])
        case SystemReset(command) => SystemReset(command)
        case Continue(rest) => Continue(Step(rest.service, first.diagnostics + rest.diagnostics))
  }

  /** A run of one write is that write handled on its own. */
  lemma RunOne(variant: Variant, ids: ConfigIds, svc: Service, w: Write)
    requires Deliverable(w)
    ensures Run(variant, ids, svc, [w]) == HandleWrite(variant, ids, svc, w)
  {
    assert [w][1..] == [];
    match HandleWrite(variant, ids, svc, w)
    case SystemReset(_) =>
    case Continue(first) =>
      assert Run(variant, ids, first.service, []) == Continue(Step(first.service, []));
      assert first.diagnostics + [] == first.diagnostics;
  }

  /** What running `b` after outcome `o` leads to: a reset stays a reset;
      otherwise `b` runs from the state `o` left, and its diagnostics follow
      those of `o`. */
  function AndThen(variant: Variant, ids: ConfigIds, o: Outcome, b: seq<Write>): Outcome
    requires forall i :: 0 <= i < |b| ==> Deliverable(b[i])
  {
    match o
    case SystemReset(_) => o
    case Continue(first) =>
      match Run(variant, ids, first.service, b)
      case SystemReset(command) => SystemReset(command)
      case Continue(rest) => Continue(Step(rest.service, first.diagnostics + rest.diagnostics))
  }

  /** Running `a + b` runs `a`, then `b` from the state `a` left, with the
      diagnostics of both in order; a reset during `a` ends the run there.
      Together with `RunOne`, a run hands every write, in order, to
      `HandleWrite`. */
  lemma {:induction false} RunAppend(variant: Variant, ids: ConfigIds, svc: Service, a: seq<Write>, b: seq<Write>)
    requires forall i :: 0 <= i < |a| ==> Deliverable(a[i])
    requires forall i :: 0 <= i < |b| ==> Deliverable(b[i])
    ensures forall i :: 0 <= i < |a + b| ==> Deliverable((a + b)[i])
    ensures Run(variant, ids, svc, a + b) == AndThen(variant, ids, Run(variant, ids, svc, a), b)
    decreases |a|
  {
    var ab := a + b;
    assert forall i :: 0 <= i < |a| ==> ab[i] == a[i];
    assert forall i :: |a| <= i < |ab| ==> ab[i] == b[i - |a|];
    if |a| == 0 {
      assert ab == b;
      var o := Run(variant, ids, svc, b);
      if o.Continue? {
        assert [] + o.step.diagnostics == o.step.diagnostics;
      }
    } else {
      var tail := a[1..];
      assert ab[1..] == tail + b;
      assert forall i :: 0 <= i < |tail| ==> tail[i] == a[i + 1];
      var h := HandleWrite(variant, ids, svc, a[0]);
      if h.Continue? {
        RunAppend(variant, ids, h.step.service, tail, b);
        var mid := Run(variant, ids, h.step.service, tail);
        if mid.Continue? {
          var rest := Run(variant, ids, mid.step.service, b);
          if rest.Continue? {
            assert h.step.diagnostics + (mid.step.diagnostics + rest.step.diagnostics)
                == (h.step.diagnostics + mid.step.diagnostics) + rest.step.diagnostics;
          }
        }
      }
    }
  }

  /** Every write the intended handlers accept leaves memory and storage in
      agreement. */
  lemma IntendedWriteKeepsConsistent(ids: ConfigIds, svc: Service, w: Write)
    requires Deliverable(w) && Consistent(svc)
    ensures HandleWrite(Intended, ids, svc, w).Continue? ==>
              Consistent(HandleWrite(Intended, ids, svc, w).step.service)
  {
  }

  /** With the intended handlers, a service whose memory and storage agree
      keeps them in agreement through any run of writes: every change is
      saved when it is made. */
  lemma {:induction false} IntendedRunKeepsConsistent(ids: ConfigIds, svc: Service, ws: seq<Write>)
    requires forall i :: 0 <= i < |ws| ==> Deliverable(ws[i])
    requires Consistent(svc)
    ensures Run(Intended, ids, svc, ws).Continue? ==>
              Consistent(Run(Intended, ids, svc, ws).step.service)
    decreases |ws|
  {
    if |ws| > 0 {
      IntendedWriteKeepsConsistent(ids, svc, ws[0]);
      var o := HandleWrite(Intended, ids, svc, ws[0]);
      if o.Continue? {
        assert forall i :: 1 <= i < |ws| ==> ws[1..][i - 1] == ws[i];
        IntendedRunKeepsConsistent(ids, o.step.service, ws[1..]);
      }
    }
  }

  /** A service built from the shipped table has no room and no device-type
      characteristic, so writes to them are never delivered, however many
      writes come before. */
  lemma DisabledCharacteristicsIgnored(
    variant: Variant, ids: ConfigIds, meshing: bool, stack: Option<Stack>, stored: Record,
    selection: byte, loadedName: string, ws: seq<Write>, w: Write)
    requires forall i :: 0 <= i < |ws| ==> Deliverable(ws[i])
    requires w.Room? || w.DeviceType?
    ensures var svc := Create(meshing, stack, stored, selection, loadedName).service;
            var o := Run(variant, ids, svc, ws);
            o.Continue? ==> HandleWrite(variant, ids, o.step.service, w) == Continue(Step(o.step.service, []))
  {
    RegisteredFromTable(meshing);
  }

  /** Handling the same write twice leaves the service as handling it once
      (storage is written twice, to the same effect). This holds of every
      write except a firmware update, which never returns, and, as written,
      a one-byte name write, whose second run saves the floor the first run
      left in memory only. */
  lemma WriteIdempotent(variant: Variant, ids: ConfigIds, svc: Service, w: Write)
    requires Deliverable(w) && !ResetsChip(w)
    requires variant == AsWritten && w.SetConfig? ==>
               w.buffer.configType != ids.nameType || w.buffer.length != 1
    ensures var once := HandleWrite(variant, ids, svc, w);
            && once.Continue?
            && HandleWrite(variant, ids, once.step.service, w).Continue?
            && HandleWrite(variant, ids, once.step.service, w).step.service == once.step.service
  {
    var once := HandleWrite(variant, ids, svc, w).step.service;
    var twice := HandleWrite(variant, ids, once, w).step.service;
    if Target(w) in svc.channels {
      match w
      case ChangeName(name) =>
        assert once.stack == SetBLEName(svc, name).service.stack;
        assert twice.stack == SetBLEName(once, name).service.stack;
      case SetConfig(buf) =>
        if buf.configType == ids.nameType {
          var name := CString.Decode(buf.payload);
          assert once.stack == SetBLEName(svc, name).service.stack;
          assert twice.stack == SetBLEName(once, name).service.stack;
        }
      case _ =>
    }
  }
}
