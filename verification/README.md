# fruit2pi keyboard — a Dafny model of its report and command core

fruit2pi turns a single-board computer into a Bluetooth HID keyboard and
mouse. This project models three pure pieces of it and proves properties
about them:

- **The keyboard client's report state machine** (`keyboard/kb_client.py`).
  The state is the 10-element HID input report: id `0xA1`, usage `0x01`,
  eight modifier flags, a reserved `0x00` and six key slots. Each key event
  changes it in one of three ways. A modifier key flips its flag. A press
  fills the first empty slot. A release clears every slot holding the key.
  `Keyboard.send` packs the flags into one byte, with flag 0 as the most
  significant bit.
- **The command protocol.** Both copies of `process_command` validate a
  decoded request the same way. The client's handlers work on a program
  store: a directory of named program texts plus the active
  `current_program`. The server's handlers are stubs that always succeed.
- **The D-Bus service of the server** (`server/btk_server.py`).
  `send_keys` and `send_mouse` build fixed 10-byte and 6-byte reports from
  variable-length input. `send_data` and `send_control_data` route raw
  bytes to the interrupt peer and the control peer.

Modules:

| file | module | models |
|---|---|---|
| common.dfy | `Common` | bytes, bits, `Option`, powers of two |
| modifier_byte.dfy | `ModifierByte` | the flag-to-byte packing and its inverse |
| keyboard_state.dfy | `KeyboardState` | the report, `change_state`, `Keyboard.send` |
| command.dfy | `Command` | decoded values, request validation, replies |
| program_store.dfy | `ProgramStore` | the client's store handlers and `process_command` |
| stub_server.dfy | `StubServer` | the server's `process_command` with stub handlers |
| dispatch_agreement.dfy | `DispatchAgreement` | both dispatchers validate identically |
| channels.dfy | `Channels` | `send_string` / `send_control_string` on the two peers |
| service.dfy | `Service` | `send_keys`, `send_mouse`, `send_data`, `send_control_data` |

Some things are outside the model and enter only as parameters:

- **CBOR `loads`** is a function parameter `Bytes -> Option<Value>`. `None`
  stands for "decoding raised".
- **The key map** (`keymap.modkey`, `keymap.convert`) has already been
  applied. A `KeyEvent` carries its two answers and the evdev value.
- **The outcome of a socket send** is a `Transport` parameter: the message
  was delivered, or `OSError` was raised.
- **A peer** is modelled as the log of messages it has been sent.
- **Python exceptions** that leave a handler become `Reply.Raise`. An
  `IndexError` in `change_state` becomes `Step.IndexError`.

Behaviour of the code a reader might not expect:

- `list` returns only the directory listing. The active program's name is
  not part of the reply.
- `set` of a missing name raises `FileNotFoundError`. The handler does not
  answer with a not-found reply.
- `set` reads the file back in text mode, so `"\r\n"` and `"\r"` in a
  stored program come back as `"\n"` in `current_program`.
- Every `delete` with at least one name raises `TypeError` and removes
  nothing (see `## Findings`). `ProgramStore.ProcessCommand` models this
  as written. `ProgramStore.ProcessCommandCorrected` is the same dispatcher
  with the corrected delete.
- A press does not check whether the key is already latched, so a held key
  can occupy two slots.
- Sending before any peer has connected raises `AttributeError`, because the
  peer attribute does not exist yet. That error is not caught. An `OSError`
  is caught and logged, and the peer is kept.

Defects in the source that the model records but does not change:

- `Keyboard.send` calls `send_key` (`keyboard/kb_client.py:201`). The
  service only defines `send_keys` (`server/btk_server.py:223`), so that
  D-Bus call has no matching method. `KeyboardState.Send` computes the
  arguments of that call, and `Service.ClientStateOnTheWire` states what the
  evidently intended `send_keys` call would put on the wire.
- `accept_interrupt` makes `ccontrol` non-blocking instead of `cinterrupt`
  (`server/btk_server.py:158`). If the interrupt channel connects before the
  control channel, this raises inside the listening thread.
- The guard `modkey_element > 0` (`keyboard/kb_client.py:137`) sends a
  modifier index of 0 down the non-modifier path. The model keeps the guard.
- `set` with the wrong number of arguments returns `None`. The client
  encodes that and sends it back as the whole reply. The model keeps this as
  the `Null` response.

## Model

| member | source | states |
|---|---|---|
| ModifierByte.PackModifiers | keyboard/kb_client.py:194-201 | Parsing the eight flags digit by digit gives Σ flag[i]·2^(7−i). That value is a byte, it is 0 when no flag is set, and unpacking it gives the flags back. |
| ModifierByte.WeightedBound | keyboard/kb_client.py:198-201 | A numeral of n flags is below 2^n, so eight flags always fit one byte. |
| ModifierByte.UnpackWeighted | keyboard/kb_client.py:198-201 | Unpacking the packed flags returns exactly the original flags, in order, with flag 0 as the most significant bit. |
| ModifierByte.WeightedUnpack | keyboard/kb_client.py:198-201 | Packing the bits of any value below 2^n returns that value. Packing is therefore a bijection between flag lists and bytes. |
| KeyboardState.Initial | keyboard/kb_client.py:85-103 | The initial report has the valid shape (0xA1, 0x01, 8 flags, reserved 0, 6 slots), with every flag clear and every slot 0x00. |
| KeyboardState.Release | keyboard/kb_client.py:146-149 | A release sets every slot equal to the key code to 0x00 and leaves every other slot unchanged. |
| KeyboardState.Press | keyboard/kb_client.py:146-153 | A press writes the key into the lowest-index slot holding 0x00 and changes nothing else. When every slot is taken, the slots are returned unchanged. |
| KeyboardState.ChangeState | keyboard/kb_client.py:133-154 | Every result keeps the report's shape and header bytes. A modifier index in 1..7 flips exactly that flag, whatever the value, and keeps the slots. An index of 8 or more raises IndexError. Any other key keeps the flags: a release clears the matching slots, a press fills the first free slot or is dropped when all six are taken, and other values change nothing. |
| KeyboardState.ModifierTwiceRestores | keyboard/kb_client.py:137-141 | Two events of the same modifier key give back the original state. |
| KeyboardState.PressAddsOneCopy | keyboard/kb_client.py:150-153 | A press that finds a free slot changes the slot multiset by exactly one: one 0x00 is replaced by the key. |
| KeyboardState.PressLatchesDuplicate | keyboard/kb_client.py:146-153 | Pressing a key that is already latched, while a slot is free, adds a second copy of that key. |
| KeyboardState.SeventhPressDropped | keyboard/kb_client.py:146-153 | A press while all six slots hold keys leaves the report completely unchanged (rollover drop). |
| KeyboardState.ReleaseThenPressLands | keyboard/kb_client.py:146-153 | With six keys held, releasing one of them and then pressing any key puts that key into a slot. |
| KeyboardState.ReleaseAbsentIsNoOp | keyboard/kb_client.py:146-149 | Releasing a key that no slot holds leaves the report unchanged. |
| KeyboardState.PressReleaseMembership | keyboard/kb_client.py:146-153 | After a release of a non-zero key, no slot holds it. After a press that found room, some slot holds it. |
| KeyboardState.Send | keyboard/kb_client.py:194-201 | Send computes the arguments of its `send_key` call. The modifier byte is the packed flags of the report it is handed, and it unpacks back to those flags. The keys are the keyboard's own slots, `self.state[4:10]`, whatever report was handed in. |
| Command.Decide | keyboard/kb_client.py:45-72 | Validation, one outcome per case. Undecodable input gives a parse error. A non-list, an empty list or an unknown verb gives a format error. `list` is accepted with any number of arguments. `edit` needs exactly 2 arguments and `delete` at least 1, otherwise format. `set` with any count other than 1 gives None. An accepted request carries its arguments in order. |
| ProgramStore.Boot | keyboard/kb_client.py:75-76 | At start-up the active program is named "default" and the store is the directory as found. |
| ProgramStore.List | keyboard/kb_client.py:22-23 | The listing contains exactly the stored names. |
| ProgramStore.Edit | keyboard/kb_client.py:25-28 | Text name and text code: success, and the name maps to the code, overwriting any old text. Text name and other code: TypeError, and the file is left empty. A name that is not text: TypeError with the store unchanged. The active program is never touched. |
| ProgramStore.DeleteAsWritten | keyboard/kb_client.py:30-35 | As written, every delete with at least one name raises TypeError and removes nothing. |
| ProgramStore.DeleteAsWrittenDiffers | keyboard/kb_client.py:30-35 | For every non-empty list of text names, the code as written and the corrected delete give different replies. |
| ProgramStore.DeleteFinding | keyboard/kb_client.py:30-35 | For `["delete","a"]` with "a" stored, the code as written raises and keeps "a". The corrected delete succeeds and removes "a". |
| ProgramStore.DeleteLoopEffect | keyboard/kb_client.py:30-35 | With the corrected delete, the loop over the names left removes exactly the text names and keeps the active program. It raises TypeError at the first name that is not text. |
| ProgramStore.Delete | keyboard/kb_client.py:30-35 | The corrected delete only removes entries and never touches the active program. With all names text, it succeeds and the stored names become the old ones minus the given ones, so absent names are skipped. A name that is not text raises TypeError. |
| ProgramStore.Set | keyboard/kb_client.py:37-42 | Set succeeds exactly when the name is a stored text name. The active program then becomes that name and its stored text as read back in text mode. A missing name raises FileNotFoundError and a name that is not text raises TypeError. On failure the store is unchanged. |
| ProgramStore.ReadBack | keyboard/kb_client.py:39-40 | The text a text-mode read returns holds no carriage return, is no longer than the file, and equals the file when the file has none. |
| ProgramStore.ReadBackIsNewlineTranslation | keyboard/kb_client.py:39-40 | For every text, the read-back equals the newline decoder's translation. First every `"\r\n"` is replaced by `"\n"`, then every remaining `"\r"` is replaced by `"\n"`, each with the semantics of `str.replace`. |
| ProgramStore.ReadBackIdempotent | keyboard/kb_client.py:39-40 | Reading back text that was already read back changes nothing. |
| ProgramStore.SetTranslatesLineEnds | keyboard/kb_client.py:25-42 | After edit("p", "a\r\nb") and set("p"), the active program is {"p", "a\nb"}. |
| ProgramStore.ProcessCommand | keyboard/kb_client.py:45-72 | A request that fails validation never changes the store. Undecodable input gets a parse error. A format error or None is returned exactly when validation says so. `list`, with any arguments, returns the stored names. A well-formed `edit` runs edit_program(args[0], args[1]), and a well-formed `set` runs set_program(args[0]). Every `delete` that passes validation raises TypeError and leaves the store unchanged, as the code is written. |
| ProgramStore.ProcessCommandCorrected | keyboard/kb_client.py:45-72 | With the corrected delete, a `delete` request runs the corrected Delete on its arguments. Every other input is answered exactly as ProcessCommand answers it. |
| ProgramStore.EditThenList | keyboard/kb_client.py:22-28 | After edit(name, code) the listing includes the name and the file holds the code. |
| ProgramStore.EditKeepsActiveSource | keyboard/kb_client.py:25-42 | Editing the active program's file does not change the active source until it is set again. |
| ProgramStore.SetAfterEdit | keyboard/kb_client.py:25-42 | set(name) after edit(name, code) makes the active program {name, code as read back}. That is exactly {name, code} when the code holds no carriage return. |
| ProgramStore.DeleteAbsentIsNoOp | keyboard/kb_client.py:30-35 | With the corrected delete, deleting names none of which is stored succeeds and leaves the store unchanged. |
| ProgramStore.SetAfterDeleteFails | keyboard/kb_client.py:30-42 | With the corrected delete, after delete(name), the name is absent from the listing and set(name) raises FileNotFoundError. The active program survives the delete. |
| StubServer.ProcessCommand | server/btk_server.py:26-66 | Undecodable input gives a parse error and a failed validation gives a format error. `list`, with any arguments, returns ['foo','bar']. A well-formed edit, delete or set returns success, and a set of the wrong arity returns None. Each holds in both directions. |
| DispatchAgreement.SameValidation | server/btk_server.py:39-66 | The server and the client return the same error tag, or None, on exactly the same inputs. |
| Channels.Send | server/btk_server.py:188-204 | Sending on a channel that never had a peer raises AttributeError. Otherwise the other channel is untouched. A delivered message is appended to this peer's log, and an OSError is swallowed with nothing changed. |
| Channels.SendsOnDistinctChannelsCommute | server/btk_server.py:188-204 | Sends on the control and interrupt channels commute: they touch disjoint state. |
| Service.BuildKeyboardReport | server/btk_server.py:226-232 | The report is exactly 10 bytes: [0xA1, 1, modifier, 0, k0..k5]. Slots past the given keys are 0, and keys after the sixth are dropped. |
| Service.BuildMouseReport | server/btk_server.py:237-242 | The report is exactly 6 bytes: [0xA1, 2, k0..k3]. Missing keys are 0, keys after the fourth are dropped, and the modifier argument is unused. |
| Service.SendKeys | server/btk_server.py:222-233 | The keyboard report is appended to the interrupt peer's log and the control peer is untouched. A transport OSError is swallowed and leaves everything unchanged. With no interrupt peer, the call raises AttributeError. |
| Service.SendMouse | server/btk_server.py:235-243 | The mouse report is appended to the interrupt peer's log and the control peer is untouched. A transport OSError is swallowed and leaves everything unchanged. With no interrupt peer, the call raises AttributeError. |
| Service.SendData | server/btk_server.py:245-247 | Raw bytes go to the interrupt peer only. A transport OSError is swallowed and leaves everything unchanged. |
| Service.SendControlData | server/btk_server.py:249-251 | Raw bytes go to the control peer only. A transport OSError is swallowed and leaves everything unchanged. |
| Service.KeyboardReportIgnoresExtraKeys | server/btk_server.py:228-232 | The keyboard report built from more than six keys equals the one built from the first six. |
| Service.KeyboardLayoutDeterminesInput | server/btk_server.py:226-232 | Two keyboard reports are equal exactly when their modifiers are equal and their zero-padded first six keys are equal. |
| Service.MouseLayoutIgnoresModifierAndExtraKeys | server/btk_server.py:236-243 | The mouse report built from more than four keys equals the one built from the first four. |
| Service.ClientStateOnTheWire | server/btk_server.py:222-233 | The report send_keys would build from the client's packed modifier byte and six slots is the client's state with the flags packed in place. Unpacking byte 2 of that report gives back exactly the client's eight flags. |

## Left out

- The event loops are not modelled: `BTKbDevice.listen`, `Keyboard.event_loop` and their selectors. The same goes for accepting and replacing peers, socket creation and binding, threads, and the keyboard device retry loop. All of this is I/O and concurrency.
- D-Bus service and profile registration, the SDP record file, and the `hciconfig` calls are not modelled. They are calls into foreign processes.
- CBOR `dumps` is not modelled, and `loads` appears only as an uninterpreted parameter. Replies are modelled as values before encoding.
- The `keymap` module and the `ecodes.KEY` lookup are external. Their answers are fields of `KeyEvent`, and a failing lookup is not modelled.
- The stored program's source is never evaluated (`eval`, keyboard/kb_client.py:163). The active program is only a name/text pair.
- The program directory is a map from names to texts. File names are opaque keys: path separators, `""`, `.`, `..`, and I/O errors other than a missing file are not modelled.
- ProgramStore.Set: file texts are character strings. Encoding and decoding errors are not modelled, and the line separator is taken to be `"\n"`, so the `'w'` write stores the code unchanged.
- KeyboardState.Send: the report handed in is taken to have eight flags, as every report from `change_state` does. A program handing in a list of another length, where `int(bin_str, 2)` gives another value or raises, is not modelled.
- ProgramStore.List: the reply is a set of names; the order `os.listdir` returns them in is unspecified and not modelled.
- The event loop's filter to key events with value below 2 is left out with the loop. For another value, `ChangeState` follows the code: a non-modifier key changes nothing, and a modifier key still flips its flag whatever the value.
- Printing and logging are left out.
- `bytes(message)` can raise `ValueError` for values above 255. This is not modelled: every D-Bus argument is a byte (`y`/`ay`), so no report or payload can hold such a value.

## Findings

| source | as written | input that shows it | evidently intended | confidence | as-written member | corrected member |
|---|---|---|---|---|---|---|
| keyboard/kb_client.py:30-35 | `os.path.join(programs_dir, names)` joins the whole argument list, which raises TypeError before any file is removed | `["delete", "a"]` with program "a" stored: TypeError is raised and "a" stays | `os.path.join(programs_dir, name)`: remove each named file that exists and reply success | high (not executed) | ProgramStore.DeleteAsWritten | ProgramStore.Delete |
