# General Service: write dispatch and configuration state

A Dafny model of the BLE "General Service" of the bluenet firmware
(`src/services/cs_GeneralService.cpp`). The model covers:

- the capability table the constructor builds;
- the characteristics that get built from that table;
- the handler behind every writable characteristic except mesh: change name, device type, room, firmware, set configuration and select configuration;
- `setBLEName`/`getBLEName`;
- `setTemperature`/`tick`.

The service is one immutable state value, `GeneralService.Service`. It holds:

- the in-memory configuration struct (`device_name`, `device_type`, `room`, `floor`);
- the copy in persistent storage, which only `Save` (`savePersistentStorage`) updates;
- the selected configuration id;
- the BLE stack, if there is one, and the device name it advertises;
- the characteristics that were built;
- the value of the temperature characteristic, when that characteristic exists.

Each handler is a pure function from one state to the next. It returns the warnings and errors the source logs.

Modules, one file each:

- `Types` (`types.dfy`): `byte`, `int32`, `Option`.
- `CString` (`cstring.dfy`): reading a NUL-terminated string out of a payload, and the encoding it inverts.
- `Capabilities` (`capabilities.dfy`): the capability table and which characteristics get built from it.
- `GeneralService` (`service.dfy`): the state and the handlers.
- `Dispatch` (`dispatch.dfy`): routes a write to its handler, and runs sequences of writes.
- `Fallthrough` (`fallthrough.dfy`): where the set-configuration switch as written differs from the one with a `break` after each case.

Conventions and assumptions:

- A `string` holds one character per byte of the C++ `std::string`, so `|name|` is `name.length()`.
- The payload of a set-configuration write is decoded as the bytes before the first NUL. A payload with no NUL byte is taken whole: the model does not follow C++ reading past the end of the buffer.
- `CONFIG_NAME_UUID`, `CONFIG_FLOOR_UUID` and `CONFIG_TYPES` come from a header this model does not see. They are the fields of a `ConfigIds` value. They are modelled as `byte` values, since the switch and the select handler compare them with `uint8_t` values. So a `CONFIG_TYPES` above 255, which would make every selection valid, cannot be represented. Beyond that, the only fact used about them is that the name id differs from the floor id, because a C++ switch may not repeat a case label.
- The characteristics' sub-UUIDs are likewise an enumeration, `Capabilities.CharId`.
- `Dispatch.Variant` selects which set-configuration handler the service runs: the one the source has (`AsWritten`) or the corrected one (`Intended`).

Behaviour of the code that is easy to miss:

- The name, room and device-type handlers do no length check of their own. Only the stack name goes through the 31-character guard. The device name is stored and saved even when the guard refuses it.
- `setTemperature` dereferences the temperature characteristic without a null check. So `SetTemperature` requires that the characteristic exists; it is not a no-op without it. `tick` does check.
- The floor case of set-configuration never saves. A one-byte floor write changes memory only (see Findings).
- Not every set-configuration write reaches the "There is no such configuration id!" warning. A write that fails the floor length check returns before the default case. That includes a name write whose length is not 1.
- `_selectConfiguration` is not initialised in the constructor (lines 20-24; the header is not part of this model), so `Create` takes its initial value as a parameter.

## Model

| member | source | states |
|---|---|---|
| `Capabilities.Table` | src/services/cs_GeneralService.cpp:32-69 | The table has 8 entries, or 9 when built with mesh. Sub-UUIDs are distinct. An entry is enabled exactly when it is neither Device Type nor Room. The mesh entry is present exactly when meshing is on. Every other characteristic is always present. |
| `Capabilities.TableOrder` | src/services/cs_GeneralService.cpp:32-69 | The names and sub-UUIDs in table order: Temperature, Change Name, Device Type, Room, Firmware, Mesh (only with meshing), Set configuration, Select configuration, Get configuration. |
| `Capabilities.Registered` | src/services/cs_GeneralService.cpp:260-265 | A characteristic is built exactly when some enabled entry names it. At most one characteristic is built per entry. No characteristic is built twice when the table's sub-UUIDs are distinct. |
| `Capabilities.RegisteredAppend` | src/services/cs_GeneralService.cpp:260-265 | Building from two concatenated tables builds the first table's characteristics, then the second's. |
| `Capabilities.RegisteredFromTable` | src/services/cs_GeneralService.cpp:32-69 | The shipped table builds Temperature, Change Name, Firmware, [Mesh], Set, Select and Get configuration, in that order: 6 characteristics, or 7 with mesh. Room and Device Type are never built. |
| `CString.Decode` | src/services/cs_GeneralService.cpp:180 | The decoded name is the payload's prefix before the first NUL: it is no longer than the payload, matches the payload byte for byte, contains no NUL, and the payload byte just after it (if any) is NUL. |
| `CString.DecodeStopsAtNul` | src/services/cs_GeneralService.cpp:180 | Bytes after the first NUL never affect the decoded name. |
| `CString.DecodeEncode` | src/services/cs_GeneralService.cpp:180 | Decoding a NUL-terminated encoding of a name gives the name back, whatever bytes follow the terminator. |
| `GeneralService.Save` | src/services/cs_GeneralService.cpp:79-81 | After a save, storage equals memory. Nothing but the stored copy changes. |
| `GeneralService.GetBLEName` | src/services/cs_GeneralService.cpp:242-248 | Returns the stack's device name, or "Unknown" when there is no stack. |
| `GeneralService.SetBLEName` | src/services/cs_GeneralService.cpp:250-258 | A name over 31 characters is refused with an error and changes nothing. A shorter name becomes the name `getBLEName` reports when there is a stack, and changes nothing when there is none. Only the stack's name can change. |
| `GeneralService.ChangeNameWrite` | src/services/cs_GeneralService.cpp:234-239 | Stores the value as `device_name` and saves, whatever its length. The stack, if present, takes the name exactly when it has at most 31 characters; a missing stack stays missing. Nothing else changes. |
| `GeneralService.RoomWrite` | src/services/cs_GeneralService.cpp:120-124 | Stores the value as `room` and saves. No other field of the record changes, and nothing outside the record changes. |
| `GeneralService.DeviceTypeWrite` | src/services/cs_GeneralService.cpp:103-107 | Stores the value as `device_type` and saves. No other field of the record changes, and nothing outside the record changes. |
| `GeneralService.FirmwareWrite` | src/services/cs_GeneralService.cpp:134-147 | A nonzero value requests a reset into the bootloader with command 1. Zero does nothing. |
| `GeneralService.SelectConfiguration` | src/services/cs_GeneralService.cpp:207-213 | A value below `CONFIG_TYPES` becomes the selection. Any other value is refused with an error and leaves the service unchanged. Nothing but the selection changes, and a selection in range stays in range. |
| `GeneralService.FloorCase` | src/services/cs_GeneralService.cpp:185-195 | A payload length other than 1 warns and returns with nothing changed. Length 1 sets the in-memory floor to the first payload byte, leaves storage alone and runs on into the unknown-id warning. |
| `GeneralService.SetConfiguration` | src/services/cs_GeneralService.cpp:174-198 | As written. A NAME write stores and saves the decoded name and applies the name guard to the stack. Falling through, a one-byte NAME write also sets the floor; any other NAME write leaves the floor unchanged. A FLOOR write of the wrong length changes nothing. A one-byte FLOOR write changes only the in-memory floor. Any other type changes nothing. The unknown-id warning is logged exactly when the length is 1 or the type is unknown. |
| `GeneralService.SetConfigurationIntended` | src/services/cs_GeneralService.cpp:174-198 | Each case is kept separate. A NAME write is exactly a change-name write and leaves the floor alone. A one-byte FLOOR write sets and saves the floor. Memory and storage stay in agreement. The unknown-id warning is logged exactly for unknown types. |
| `GeneralService.SetTemperature` | src/services/cs_GeneralService.cpp:267-269 | Requires that the temperature characteristic exists. Sets its value and changes nothing else. |
| `GeneralService.Tick` | src/services/cs_GeneralService.cpp:271-276 | With a temperature characteristic, pushes the sensor sample into it. Without one, nothing changes. |
| `GeneralService.Create` | src/services/cs_GeneralService.cpp:20-73 | A new service has memory equal to the stored record and to storage. Its characteristics are those built from the table, and temperature starts at 0. The stack is present exactly when one was given. The name loaded for the change-name characteristic goes through the 31-character guard: the stack takes it exactly when it has at most 31 characters, and a longer name is refused with the "name too long" error, the only diagnostic. |
| `Dispatch.HandleWrite` | src/services/cs_GeneralService.cpp:97-240 | A write to a characteristic that was not built changes nothing. A delivered write runs its own handler: change name stores and saves the name whatever its length, and the stack (if any) takes it exactly when it has at most 31 characters, with an error otherwise; room and device type store their value, save, log nothing and change nothing else; select sets the selection only when in range, and otherwise logs the "cannot select" error and changes nothing; a zero firmware write does nothing, a nonzero one resets with command 1. The variant picks the set-configuration handler: as written, a one-byte NAME write moves the floor; the intended handler keeps memory and storage in agreement and moves the floor only for a one-byte FLOOR write. No write changes the built characteristics or the temperature, and a selection in range stays in range. |
| `Dispatch.Run` | src/services/cs_GeneralService.cpp:97-240 | A run of writes ends in a reset exactly when one of its writes is a nonzero firmware write and the firmware characteristic was built. Otherwise the run keeps the built characteristics and the temperature, and keeps the selection in range. |
| `Dispatch.RunOne` | src/services/cs_GeneralService.cpp:97-240 | A run of a single write has exactly the outcome of handling that write. |
| `Dispatch.RunAppend` | src/services/cs_GeneralService.cpp:97-240 | Running two runs back to back is the first run followed by the second, from the state the first left, with their diagnostics in order; a reset in the first ends everything. With `RunOne`, every write of a run is handed, in order, to its handler, and none is skipped. |
| `Dispatch.IntendedWriteKeepsConsistent` | src/services/cs_GeneralService.cpp:174-198 | With the intended set-configuration handler, every write keeps memory and storage in agreement. |
| `Dispatch.IntendedRunKeepsConsistent` | src/services/cs_GeneralService.cpp:174-198 | With the intended handler, memory and storage stay in agreement through any run of writes. |
| `Dispatch.DisabledCharacteristicsIgnored` | src/services/cs_GeneralService.cpp:40-47 | In a service built from the shipped table, room and device-type writes are never delivered, after any run of writes. |
| `Dispatch.WriteIdempotent` | src/services/cs_GeneralService.cpp:97-240 | Repeating a write leaves the service as one write did. This does not cover firmware resets or, as written, one-byte NAME writes. |
| `Fallthrough.UnknownTypeAgrees` | src/services/cs_GeneralService.cpp:194-195 | Both handlers refuse an unknown type the same way and change nothing. |
| `Fallthrough.NameWriteFallsThrough` | src/services/cs_GeneralService.cpp:178-193 | A NAME write as written equals the intended write, plus the floor taken from a one-byte payload. The diagnostics differ only by the floor-case or default-case warning the fallthrough adds. |
| `Fallthrough.FloorWriteUnsaved` | src/services/cs_GeneralService.cpp:185-193 | For a one-byte FLOOR write, both handlers leave the same memory. Only the intended one saves. Only the one as written logs the unknown-id warning. |
| `Fallthrough.MemoryDiffersIff` | src/services/cs_GeneralService.cpp:178-193 | The in-memory records differ exactly for a one-byte NAME write whose byte is not the current floor. |
| `Fallthrough.StateDiffersIff` | src/services/cs_GeneralService.cpp:178-193 | The whole states differ in exactly two cases. The first is a one-byte NAME write that moves the floor. The second is a one-byte FLOOR write after which storage no longer equals the updated memory. |
| `Fallthrough.NameWriteOverwritesFloor` | src/services/cs_GeneralService.cpp:178-196 | The name "A" written as one byte sets the floor to 65 and logs the unknown-id warning. The intended handler keeps the floor. |
| `Fallthrough.EmptyNameResetsFloor` | src/services/cs_GeneralService.cpp:178-193 | Writing the empty name, which is one NUL byte on the wire, also sets the floor to 0. |
| `Fallthrough.EncodedNameWrite` | src/services/cs_GeneralService.cpp:178-193 | A NUL-terminated name stores exactly that name under either handler. The handler as written moves the floor only when the name is empty. |
| `Fallthrough.FloorWriteNotPersisted` | src/services/cs_GeneralService.cpp:185-193 | On a service whose memory and storage agree, a one-byte FLOOR write of 42 leaves storage with the old floor. The intended handler stores 42. |
| `Fallthrough.PendingFloorSavedByNextName` | src/services/cs_GeneralService.cpp:191-193 | As written, an unsaved floor reaches storage with the next change-name write, which saves the whole record. |
| `Fallthrough.DispatchedNameWriteMovesFloor` | src/services/cs_GeneralService.cpp:178-193 | Through dispatch, a run of one one-byte NAME write to a built set-configuration characteristic moves the floor as written and leaves it alone with the intended handler. |
| `Fallthrough.NameWriteTwiceSavesFloor` | src/services/cs_GeneralService.cpp:178-193 | As written, a second identical one-byte NAME write saves the floor the first one left in memory only. Repeating such a write is therefore not idempotent. |

## Left out

- The BLE stack and characteristic plumbing are not modelled: UUID construction, names, default values, notify and write flags, `addCharacteristic`, `addService`. The stack is reduced to the device name it advertises.
- The order in which `GenericService::addSpecificCharacteristics` visits the table is taken to be table order. That code is not part of this model.
- The storage singleton is not modelled: `getHandle`, `getStruct`, `setStruct`, and the byte layout of `setString`/`setUint8`. A save copies the in-memory record into storage. Any truncation of a string to its fixed-size field is not modelled, so stored strings are unbounded.
- `Create` does not model the default rule of `Storage::getString` used while building the change-name characteristic. The name that call yields is the parameter `loadedName`.
- `Create` does not model the `Storage::getString` reads that give the device-type and room characteristics their default values.
- `getBLEName` also writes the name it returns into the `_name` member. That scratch buffer only supplies default values, so it is not modelled.
- The firmware reset mechanics are not modelled: clearing and setting the retained register, `APP_ERROR_CHECK` and `sd_nvic_SystemReset`. The handler's outcome is a reset request carrying the bootloader command.
- The mesh characteristic's handler is not modelled. It only forwards to the mesh singleton, and it exists only when built with `MESHING`. Its table entry is modelled.
- Temperature sensing (`getTemperature`) is an external sensor read. `Tick` receives the sample as a parameter.
- The value of the get-configuration characteristic is not modelled, because nothing in this file produces it. Its table entry is modelled.
- The name decode reads only the `length` payload bytes. The C++ code builds the string from `value.payload()` alone and ignores `length()`, so it reads until a NUL wherever that lies; the model takes a payload with no NUL whole rather than follow the read past its `length` bytes.
- Info and debug logging are not modelled. Warnings and errors are returned as diagnostics.
- Writes are handled one at a time. The transport's execution context and interrupts are not modelled.

## Findings

| source | as written | input that shows it | evidently intended | confidence | as-written member | corrected member |
|---|---|---|---|---|---|---|
| src/services/cs_GeneralService.cpp:178-196 | The NAME case has no `break`. It runs on into the FLOOR case and then the default case. | A NAME write with length 1 and payload `[65]` to a service on floor 3 sets the name to "A" and the floor to 65, and logs "There is no such configuration id!". | Each case ends after its own work. A NAME write leaves the floor alone and logs nothing about unknown ids. | high; not executed | `Fallthrough.NameWriteOverwritesFloor` | `GeneralService.SetConfigurationIntended` |
| src/services/cs_GeneralService.cpp:191-193 | The FLOOR case sets the floor in the in-memory struct but never calls `savePersistentStorage`. | A FLOOR write with length 1 and payload `[42]` to a service whose stored floor is 3 leaves storage at 3 while memory says 42. | Save after setting the floor, as every other handler does. | medium; not executed | `Fallthrough.FloorWriteNotPersisted` | `GeneralService.SetConfigurationIntended` |

`Dispatch.HandleWrite` and `Dispatch.Run` take the variant as a parameter. `Dispatch.IntendedRunKeepsConsistent` proves that the corrected handler keeps storage and memory in agreement through any run of writes.
