/**
 The state of the General Service and the handler of each characteristic
 write, as pure transitions from one service state to the next.

 The service keeps two copies of its configuration record: the in-memory
 struct every handler writes to, and the snapshot in persistent storage,
 which only `Save` (the source's `savePersistentStorage`) brings up to date.
 The device name the BLE stack advertises is a third place a name can live;
 the stack itself may be absent.

 Warnings and errors the handlers log are returned as diagnostics; info and
 debug logging is not modelled.
 */
module GeneralService {
  import opened Types
  import CString
  import opened Capabilities

  /** The configuration type ids and their count, from a header this model
      does not see. A C++ switch may not repeat a case label, so the name
      and floor ids differ. */
  datatype ConfigConstants = ConfigConstants(nameType: byte, floorType: byte, configTypes: byte)
  type ConfigIds = c: ConfigConstants | c.nameType != c.floorType
    witness ConfigConstants(0, 1, 2)

  /** The longest name the BLE stack is asked to advertise. */
  const MAX_BLE_NAME_LENGTH: nat := 31

  /** What `getBLEName` reports when there is no stack. */
  const UNKNOWN_NAME: string := "Unknown"

  /** The value the firmware handler leaves in the retained register for
      the bootloader before it resets the chip. */
  const COMMAND_ENTER_RADIO_BOOTLOADER: nat := 1

  /** The persisted configuration struct. */
  datatype Record = Record(deviceName: string, deviceType: string, room: string, floor: byte)

  /** The part of the BLE stack the service touches: its device name. */
  datatype Stack = Stack(deviceName: string)

  /** The service: its configuration in memory and in storage, the selected
      configuration id, the stack if there is one, the characteristics that
      were built (in build order) and the value of the temperature
      characteristic if that characteristic exists. */
  datatype Service = Service(
    memory: Record,
    persisted: Record,
    selection: byte,
    stack: Option<Stack>,
    channels: seq<CharId>,
    temperature: Option<int32>)

  /** A warning or error a handler logs. */
  datatype Diagnostic =
    | NameTooLong             // setBLEName refused a name over 31 characters
    | FloorNotOneByte         // a floor value that is not exactly one byte
    | NoSuchConfigurationId   // the default branch of set-configuration
    | CannotSelect(value: byte)

  /** The state after a handler ran, with what it logged. */
  datatype Step = Step(service: Service, diagnostics: seq<Diagnostic>)

  /** A value written to the set-configuration characteristic: a type id, a
      payload length and the payload bytes. */
  datatype StreamBuffer = StreamBuffer(configType: byte, length: byte, payload: seq<byte>)

  /** A buffer whose payload holds exactly `length` bytes, as the wire format
      lays it out. */
  predicate WellFormed(b: StreamBuffer) {
    |b.payload| == b.length as int
  }

  /** What the firmware handler does. */
  datatype FirmwareAction = Stay | EnterBootloader(command: nat)

  /** The temperature characteristic exists exactly when it was built. */
  predicate Valid(svc: Service) {
    svc.temperature.Some? <==> TemperatureId in svc.channels
  }

  /** Memory and storage hold the same configuration. */
  predicate Consistent(svc: Service) {
    svc.memory == svc.persisted
  }

  /** `savePersistentStorage`: storage takes the in-memory record; nothing
      else changes. */
  function Save(svc: Service): (r: Service)
    ensures Consistent(r) && r.memory == svc.memory
    ensures r.(persisted := svc.persisted) == svc
  {
    svc.(persisted := svc.memory)
  }

  /** `getBLEName`: the stack's device name, or "Unknown" without a stack. */
  function GetBLEName(svc: Service): (r: string)
    ensures svc.stack.Some? ==> r == svc.stack.value.deviceName
    ensures svc.stack.None? ==> r == UNKNOWN_NAME
  {
    match svc.stack
    case Some(st) => st.deviceName
    case None => UNKNOWN_NAME
  }

  /** `setBLEName`: a name of at most 31 characters becomes the stack's
      device name when there is a stack; a longer one is refused with an
      error and nothing changes. Only the stack's name can change. */
  function SetBLEName(svc: Service, name: string): (r: Step)
    ensures r.service.(stack := svc.stack) == svc
    ensures r.service.stack.Some? == svc.stack.Some?
    ensures GetBLEName(r.service) ==
              if |name| <= MAX_BLE_NAME_LENGTH && svc.stack.Some? then name else GetBLEName(svc)
    ensures r.diagnostics == if |name| > MAX_BLE_NAME_LENGTH then [NameTooLong] else []
  {
    if |name| > MAX_BLE_NAME_LENGTH then Step(svc, [NameTooLong])
    else if svc.stack.Some? then Step(svc.(stack := Some(Stack(name))), [])
    else Step(svc, [])
  }

  /** The change-name characteristic: the name goes to the stack through the
      31-character guard, and into the record, which is saved whether or not
      the stack took the name. There is no length check of its own. */
  function ChangeNameWrite(svc: Service, name: string): (r: Step)
    ensures r.service.memory == svc.memory.(deviceName := name)
    ensures Consistent(r.service)
    // what `getBLEName` reports afterwards; implied by the stack clause below
    // and kept as the form a caller of the service observes
    ensures GetBLEName(r.service) ==
              if |name| <= MAX_BLE_NAME_LENGTH && svc.stack.Some? then name else GetBLEName(svc)
    ensures r.service.stack ==
              if |name| <= MAX_BLE_NAME_LENGTH && svc.stack.Some? then Some(Stack(name)) else svc.stack
    ensures r.service.(memory := svc.memory, persisted := svc.persisted, stack := svc.stack) == svc
    ensures r.diagnostics == if |name| > MAX_BLE_NAME_LENGTH then [NameTooLong] else []
  {
    var named := SetBLEName(svc, name);
    var updated := named.service.(memory := named.service.memory.(deviceName := name));
    Step(Save(updated), named.diagnostics)
  }

  /** The room characteristic: the value goes into the record, which is
      saved; nothing else changes and nothing is checked. */
  function RoomWrite(svc: Service, room: string): (r: Service)
    ensures r.memory.room == room && Consistent(r)
    ensures r.memory.(room := svc.memory.room) == svc.memory
    ensures r.(memory := svc.memory, persisted := svc.persisted) == svc
  {
    Save(svc.(memory := svc.memory.(room := room)))
  }

  /** The device-type characteristic: the value goes into the record, which
      is saved; nothing else changes and nothing is checked. */
  function DeviceTypeWrite(svc: Service, deviceType: string): (r: Service)
    ensures r.memory.deviceType == deviceType && Consistent(r)
    ensures r.memory.(deviceType := svc.memory.deviceType) == svc.memory
    ensures r.(memory := svc.memory, persisted := svc.persisted) == svc
  {
    Save(svc.(memory := svc.memory.(deviceType := deviceType)))
  }

  /** The firmware characteristic: any nonzero value asks for a reset into
      the radio bootloader; zero does nothing. */
  function FirmwareWrite(value: int32): (r: FirmwareAction)
    ensures r.EnterBootloader? <==> value != 0
    ensures r.EnterBootloader? ==> r.command == COMMAND_ENTER_RADIO_BOOTLOADER
  {
    if value != 0 then EnterBootloader(COMMAND_ENTER_RADIO_BOOTLOADER) else Stay
  }

  /** The select-configuration characteristic: a value below the number of
      configuration types becomes the selection; any other value is
      refused with an error and the selection stays. Nothing else changes. */
  function SelectConfiguration(ids: ConfigIds, svc: Service, value: byte): (r: Step)
    ensures r.service.(selection := svc.selection) == svc
    ensures value < ids.configTypes ==> r.service.selection == value
    ensures value >= ids.configTypes ==> r.service == svc
    ensures r.diagnostics == if value < ids.configTypes then [] else [CannotSelect(value)]
    ensures svc.selection < ids.configTypes ==> r.service.selection < ids.configTypes
  {
    if value < ids.configTypes then Step(svc.(selection := value), [])
    else Step(svc, [CannotSelect(value)])
  }

  /** The floor case of the set-configuration switch together with the
      default case it runs into: a payload that is not exactly one byte is
      refused and the handler returns; a one-byte payload sets the floor in
      memory only, and control goes on to the default case's warning. */
  function FloorCase(st: Step, buf: StreamBuffer): (r: Step)
    requires WellFormed(buf)
    ensures buf.length != 1 ==> r == Step(st.service, st.diagnostics + [FloorNotOneByte])
    ensures buf.length == 1 ==> r.service.memory.floor == buf.payload[0]
    ensures r.service.memory.(floor := st.service.memory.floor) == st.service.memory
    ensures r.service.(memory := st.service.memory) == st.service
    ensures buf.length == 1 ==> r.diagnostics == st.diagnostics + [NoSuchConfigurationId]
  {
    if buf.length != 1 then Step(st.service, st.diagnostics + [FloorNotOneByte])
    else
      var svc := st.service;
      Step(svc.(memory := svc.memory.(floor := buf.payload[0])), st.diagnostics + [NoSuchConfigurationId])
  }

  /** The set-configuration characteristic as the source writes it, without
      a `break` between its cases: a name write runs the name update and the
      save, then the floor case, then the default case's warning. */
  function SetConfiguration(ids: ConfigIds, svc: Service, buf: StreamBuffer): (r: Step)
    requires WellFormed(buf)
    // a name write always stores and saves the decoded name
    ensures buf.configType == ids.nameType ==>
              var name := CString.Decode(buf.payload);
              && r.service.memory.deviceName == name
              && r.service.persisted == svc.memory.(deviceName := name)
              && GetBLEName(r.service) ==
                   (if |name| <= MAX_BLE_NAME_LENGTH && svc.stack.Some? then name else GetBLEName(svc))
    // ... and, falling through, a one-byte name also becomes the floor
    ensures buf.configType == ids.nameType ==>
              r.service.memory.floor == if buf.length == 1 then buf.payload[0] else svc.memory.floor
    // a floor write of the wrong length changes nothing
    ensures buf.configType == ids.floorType && buf.length != 1 ==>
              r == Step(svc, [FloorNotOneByte])
    // a one-byte floor write changes the floor in memory, and only there
    ensures buf.configType == ids.floorType && buf.length == 1 ==>
              r.service == svc.(memory := svc.memory.(floor := buf.payload[0]))
    // an unknown type changes nothing
    ensures buf.configType != ids.nameType && buf.configType != ids.floorType ==>
              r == Step(svc, [NoSuchConfigurationId])
    // the default case's warning is reached unless the floor check returns early
    ensures NoSuchConfigurationId in r.diagnostics <==>
              (buf.length == 1 || (buf.configType != ids.nameType && buf.configType != ids.floorType))
    ensures r.service.selection == svc.selection
    ensures r.service.stack.Some? == svc.stack.Some?
    ensures r.service.channels == svc.channels && r.service.temperature == svc.temperature
  {
    if buf.configType == ids.nameType then
      FloorCase(ChangeNameWrite(svc, CString.Decode(buf.payload)), buf)
    else if buf.configType == ids.floorType then
      FloorCase(Step(svc, []), buf)
    else
      Step(svc, [NoSuchConfigurationId])
  }

  /** The set-configuration characteristic with the cases kept apart, as
      they were evidently meant: a name write does what the change-name
      characteristic does and stops; a one-byte floor write sets the floor
      and saves it; no recognised write reaches the unknown-id warning. */
  function SetConfigurationIntended(ids: ConfigIds, svc: Service, buf: StreamBuffer): (r: Step)
    requires WellFormed(buf)
    ensures buf.configType == ids.nameType ==>
              r == ChangeNameWrite(svc, CString.Decode(buf.payload))
    ensures buf.configType == ids.nameType ==> r.service.memory.floor == svc.memory.floor
    ensures buf.configType == ids.floorType && buf.length != 1 ==>
              r == Step(svc, [FloorNotOneByte])
    ensures buf.configType == ids.floorType && buf.length == 1 ==>
              && r.service.memory == svc.memory.(floor := buf.payload[0])
              && r.service.persisted == r.service.memory
              && r.service.(memory := svc.memory, persisted := svc.persisted) == svc
              && r.diagnostics == []
    ensures buf.configType != ids.nameType && buf.configType != ids.floorType ==>
              r == Step(svc, [NoSuchConfigurationId])
    ensures Consistent(svc) ==> Consistent(r.service)
    ensures NoSuchConfigurationId in r.diagnostics <==>
              buf.configType != ids.nameType && buf.configType != ids.floorType
  {
    if buf.configType == ids.nameType then
      ChangeNameWrite(svc, CString.Decode(buf.payload))
    else if buf.configType == ids.floorType then
      if buf.length != 1 then Step(svc, [FloorNotOneByte])
      else Step(Save(svc.(memory := svc.memory.(floor := buf.payload[0]))), [])
    else
      Step(svc, [NoSuchConfigurationId])
  }

  /** `setTemperature`: the temperature characteristic takes the value. The
      source dereferences the characteristic without a check, so it must
      exist. */
  function SetTemperature(svc: Service, temperature: int32): (r: Service)
    requires svc.temperature.Some?
    ensures r.temperature == Some(temperature)
    ensures r.(temperature := svc.temperature) == svc
  {
    svc.(temperature := Some(temperature))
  }

  /** `tick`: when the temperature characteristic exists, the sensor is read
      (`sample` is what it reads) and the value pushed; otherwise nothing
      happens. */
  function Tick(svc: Service, sample: int32): (r: Service)
    ensures svc.temperature.Some? ==> r.temperature == Some(sample)
    ensures svc.temperature.None? ==> r == svc
    ensures r.(temperature := svc.temperature) == svc
  {
    if svc.temperature.Some? then SetTemperature(svc, sample) else svc
  }

  /** `createService`: the record is loaded from storage, the table is built
      with the mesh entry when `meshing`, and every enabled entry's
      characteristic is built in table order. Building the temperature
      characteristic gives it the value 0; building the change-name
      characteristic hands `loadedName` (the name storage yields, with the
      stack's name as its default) to `setBLEName`. `selection` is whatever
      the uninitialised selection field holds. */
  function Create(meshing: bool, stack: Option<Stack>, stored: Record, selection: byte, loadedName: string): (r: Step)
    ensures Valid(r.service) && Consistent(r.service)
    ensures r.service.memory == stored && r.service.selection == selection
    ensures r.service.channels == Registered(Table(meshing))
    ensures r.service.temperature == Some(0)
    ensures r.service.stack.Some? == stack.Some?
    ensures r.service.stack ==
              if |loadedName| <= MAX_BLE_NAME_LENGTH && stack.Some? then Some(Stack(loadedName)) else stack
    ensures r.diagnostics == if |loadedName| > MAX_BLE_NAME_LENGTH then [NameTooLong] else []
    ensures GetBLEName(r.service) ==
              if |loadedName| <= MAX_BLE_NAME_LENGTH && stack.Some? then loadedName
              else GetBLEName(r.service.(stack := stack))
  {
    var channels := Registered(Table(meshing));
    RegisteredFromTable(meshing);
    var svc := Service(stored, stored, selection, stack, channels, Some(0));
    SetBLEName(svc, loadedName)
  }
}
