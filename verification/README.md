# Controllino PLC firmware — a Dafny model

The firmware runs on an Arduino-class PLC. It turns a line-oriented
JSON protocol on the serial link into pin operations, and it runs a
periodic logging scheduler that streams samples of chosen pins back to
the host. This project models the firmware's core as pure Dafny functions
over immutable state and proves what the code promises about it.

The core consists of the following:

- **Protocol** (`src/ProtocolHandler.h`, `src/ProtocolHandler.cpp`): the
  closed enumerations of commands, pins and pin modes, and the three name
  tables. It also covers the lookups over them, the response builders
  (`build_command`, `build_error`), the parse-error reply and the
  required-key check.
- **Gpio** (`src/GpioHandler.cpp`): the pin registry. It has 26 rows, each
  with a hardware address, a signal kind (digital or analog), a capability
  class and a stored mode. It also covers setting, loading and resetting
  modes, writes, reads and the pulse.
- **Logger** (`src/Logger.cpp`): the logging table. It holds at most
  `MAX_REQUESTS` = 8 entries, one per pin. The model covers admission
  (`log_signal`), closing (`end_log_signal`) and the per-tick service
  `handle_logging_requests`. The tick first emits one sample per due entry
  and then sweeps out the finished entries.
- **Serial** (`src/SerialHandler.cpp`): the newline framing done by
  `serialEvent`, and the one-slot mailbox that `serial_process` drains into
  the message callback.
- **Messages** (`src/MessageHandler.cpp`): `receive_message`, the
  `do_command_action` dispatcher and the command handlers, with every error
  path they have.
- **Firmware** (`src/main.cpp`): `setup()` and the `loop()` pass, composed
  over many passes.

Effects are made explicit:

- Outbound messages are returned as a sequence of `Response` values, each
  with a command name and its ordered key/value fields.
- Calls into the pin driver are returned as an ordered trace of
  `DriverCall`s.
- The JSON parser, `String::toInt`, the pin readings and the clock
  (`millis()`) are parameters, held in the `Env` oracle and the `now`
  argument.
- One command reads outside the pin table: `log_signal` with an unknown
  pin. It yields an explicit `Undefined` outcome, which becomes `Crashed`
  at the firmware level. Nothing after it is modelled.

Where the code and its documentation disagree, the model follows the code:

- a logging entry is due again only when *strictly* more than `period` ms
  have passed;
- `end_log_signal` does not validate the pin name;
- an analog output level has no lower bound;
- a message without `"command"` gets an `INVALID_KEY` error named after
  the *previous* message's command;
- after `INVALID_PIN` or `INVALID_INPUT_PIN`, `log_signal` does not
  return;
- `READY`, `ERROR` and unknown names all get `ERR_ERROR` /
  `INVALID_COMMAND`;
- a `SET_PIN_MODE` with an unrecognised mode string gets no reply at all.

## Model

| member | source | states |
|---|---|---|
| Protocol.FirstMatch | src/ProtocolHandler.cpp:111-118 | The linear table search returns the index of the first row carrying the name, and the table length exactly when no row carries it. |
| Protocol.GetCommand | src/ProtocolHandler.cpp:111-118 | The result is COMMAND_INVALID exactly when no command_mapping row carries the name; otherwise it is a command whose table name is that text. |
| Protocol.GetValidPinType | src/ProtocolHandler.cpp:158-166 | The result is the sentinel PIN_INVALID_PIN exactly when no row of input_output_mapping carries the name; otherwise it is the pin so named. |
| Protocol.GetValidPinMode | src/ProtocolHandler.cpp:120-128 | The result is PIN_MODE_NOT_VALID exactly when the text is none of "INPUT", "OUTPUT", "INPUT_PULLUP". |
| Protocol.GetCommandString | src/ProtocolHandler.cpp:134-155 | Every response name has at least three characters and starts with 'R' exactly for inbound and success messages, so a host can tell a reply from an error by its first letter. The full shape of the names is stated by Protocol.ResponseNameShape. |
| Protocol.GetPinModeString | src/ProtocolHandler.cpp:168-170 | Every real mode has one of the three protocol names. |
| Protocol.CommandTableOrdered | src/ProtocolHandler.cpp:14-28 | command_mapping has 13 rows and row i holds the command numbered i, which is what the index lookup in get_command_string relies on. |
| Protocol.PinTableIndexed | src/ProtocolHandler.cpp:37-47 | input_output_mapping has one row per pin and row i holds pin i. |
| Protocol.PinNameIsLabel | src/ProtocolHandler.cpp:37-47 | The pin names agree, pin by pin, with an independent description: D30..D49, A0..A3, DAC0, DAC1. |
| Protocol.PinNamesDistinct | src/ProtocolHandler.cpp:37-47 | No two pins share a name. |
| Protocol.PinNameRoundTrip | src/ProtocolHandler.cpp:158-166 | Looking up a pin's own name gives back that pin. |
| Protocol.PinLookupRoundTrip | src/ProtocolHandler.cpp:158-166 | Every name that resolves is the label of the pin it resolves to, so the lookup accepts exactly the names D30..D49, A0..A3, DAC0 and DAC1. |
| Protocol.UnknownPinName | src/ProtocolHandler.cpp:158-166 | A text that is empty or starts with neither 'D' nor 'A' names no pin. |
| Protocol.CommandNameRoundTrip | src/ProtocolHandler.cpp:111-118 | get_command inverts the name table for every command except COMMAND_INVALID, whose name "ERROR" resolves to COMMAND_ERROR. |
| Protocol.CommandNamesDistinct | src/ProtocolHandler.cpp:14-28 | The first twelve command names are pairwise distinct, and the last row repeats the twelfth. |
| Protocol.PinModeRoundTrip | src/ProtocolHandler.cpp:120-170 | get_valid_pin_mode and get_pin_mode_string are mutual inverses on the real modes and their names. |
| Protocol.ResponseNameShape | src/ProtocolHandler.cpp:134-155 | Success and inbound names are "RX_" plus the command name; error names are "ERR_" plus it, except COMMAND_ERROR's, which is "ERROR" (so COMMAND_INVALID's is "ERR_ERROR"). |
| Protocol.ReplyNotError | src/ProtocolHandler.cpp:134-155 | No success name equals any error name. |
| Protocol.Pairs | src/ProtocolHandler.h:127-136 | An independent reading of a variadic argument list: half as many fields, field k being argument 2k as key and argument 2k+1 as value. |
| Protocol.PairsCons | src/ProtocolHandler.h:132-136 | Consuming the first key/value pair of the argument list emits the first field and leaves the fields of the rest. |
| Protocol.WriteToJsonDoc | src/ProtocolHandler.h:127-136 | The recursive writer appends exactly the pairs of the argument list, in order, to the document. |
| Protocol.MakeCommandImp | src/ProtocolHandler.h:138-152 | The document carries the response name and then exactly the argument pairs. |
| Protocol.BuildCommand | src/ProtocolHandler.h:156-163 | Every reply carries ("job", job) as its first field, followed by the argument pairs in order. |
| Protocol.BuildError | src/ProtocolHandler.cpp:176-178 | The job-less error carries the command's error name, then "error" and "msg". |
| Protocol.BuildJobError | src/ProtocolHandler.cpp:180-186 | The job error carries the command's error name, then "job", "error" and "msg". |
| Protocol.ReceiveMessageHandler | src/ProtocolHandler.cpp:80-91 | The line is accepted exactly when the parser accepts it. A rejected line gets one "ERROR" / DESERIALIZE_JSON_FAILED reply with the parser's message; an accepted one gets none. |
| Protocol.HasObjectGivenKey | src/ProtocolHandler.cpp:97-109 | A value is found exactly when the key is present, and then it is the document's value with no output. A missing key gets one INVALID_KEY error under the current command's error name. |
| Protocol.HasKeys | src/ProtocolHandler.cpp:97-109 | A chain of key checks joined by && succeeds exactly when every key is present, yielding the values in order. Otherwise exactly one INVALID_KEY error is sent, for the first missing key, because the && stops there. |
| Gpio.Row | src/GpioHandler.cpp:13-44 | Row p of mapping_dict describes pin p. |
| Gpio.InitialModes | src/GpioHandler.cpp:13-44 | Every pin starts in the mode its row is compiled with. |
| Gpio.GetPinType | src/GpioHandler.cpp:59-61 | A pin is digital exactly when it is one of the twenty D pins. |
| Gpio.GetPinModeType | src/GpioHandler.cpp:63-65 | The D pins may be inputs or outputs, A0..A3 are input-only and DAC0 and DAC1 are output-only, each exactly. |
| Gpio.GetPinMode | src/GpioHandler.cpp:73-75 | The reported mode is a real one whenever the table holds only real modes. |
| Gpio.TableContents | src/GpioHandler.cpp:13-44 | The four groups of the table: D30..D39 are digital, bidirectional and start as INPUT; D40..D49 are the same but start as OUTPUT; A0..A3 are analog, input-only and INPUT; DAC0 and DAC1 are analog, output-only and OUTPUT. |
| Gpio.SetPinMode | src/GpioHandler.cpp:67-71 | The pin's mode becomes the given one and every other pin's mode is unchanged. The driver is asked to set that mode at the pin's hardware address. |
| Gpio.Clamp | src/GpioHandler.cpp:97-106 | The clamp always yields a real mode and leaves a real mode as it is. |
| Gpio.LoadFrom | src/GpioHandler.cpp:97-106 | Loading from pin i leaves pins below i alone, stores each later pin's clamped mode, and makes one driver call per later pin in table order. |
| Gpio.LoadPinModes | src/GpioHandler.cpp:97-106 | Every pin ends in its clamped stored mode, with exactly one driver call per pin, in table order. |
| Gpio.ResetPinModes | src/GpioHandler.cpp:114-119 | Afterwards every pin is in INPUT mode. |
| Gpio.SavePinModes | src/GpioHandler.cpp:108-112 | Saving changes no pin's mode, because the writes to the persistent store are commented out. |
| Gpio.SaveLoadRoundTrip | src/GpioHandler.cpp:97-112 | Saving and then loading gives back exactly the modes saved, whenever they are all real ones. |
| Gpio.TriggerPulse | src/GpioHandler.cpp:121-126 | Exactly two driver calls on the pin's address: HIGH, then LOW. |
| Gpio.AddressesDistinct | src/GpioHandler.cpp:13-44 | No two rows of mapping_dict share a hardware address. |
| Gpio.WriteDigital | src/GpioHandler.cpp:77-80 | One digitalWrite of the given level, at an address that belongs to this pin and to no other. |
| Gpio.WriteAnalog | src/GpioHandler.cpp:82-85 | One analogWrite of the given level, at an address that belongs to this pin and to no other. |
| Gpio.ReadPin | src/GpioHandler.cpp:87-95 | A sample of one of the twenty D pins is its digitalRead value, and a sample of any other pin is its analogRead value. |
| Gpio.InitialModesCompatible | src/GpioHandler.cpp:13-44 | The compiled table starts with every pin in a real mode that its capability class admits. |
| Gpio.ResetBreaksCompatibility | src/GpioHandler.cpp:114-119 | reset_pin_modes leaves the output-only DAC0 and DAC1 in INPUT mode, so it does not keep every pin compatible. |
| Gpio.LoadIdentityOnValid | src/GpioHandler.cpp:97-106 | With only real modes stored, load_pin_modes changes no stored mode. |
| Gpio.LoadIdempotent | src/GpioHandler.cpp:97-106 | load_pin_modes stores only real modes, so loading twice is the same as loading once. |
| Gpio.SetCompatiblePreserves | src/GpioHandler.cpp:67-71 | Setting a mode that the pin's capability admits keeps every pin compatible. |
| Logger.Read | src/Logger.cpp:37-52 | A read stamps the time and leaves the first pass. The entry becomes done exactly when it was done already or a close was requested. Job, pin, period and the close flag are unchanged. |
| Logger.ReadyTiming | src/Logger.cpp:54-59 | Once due, an entry stays due at every later time until it is read. After a read at time now it is due again exactly at the times later than now + period. |
| Logger.Sample | src/Logger.cpp:87-100 | Each sample is named "RX_LOG_SIGNAL" and carries job, time, value and done, in that order. |
| Logger.AdvanceAll | src/Logger.cpp:87-101 | The emission pass keeps the table's length and advances each entry on its own: it is read if due and untouched otherwise. |
| Logger.Samples | src/Logger.cpp:87-101 | The emission pass sends at most one message per entry, and every message is an RX_LOG_SIGNAL sample. |
| Logger.Keep | src/Logger.cpp:105-112 | The sweep never grows the table, and no entry it keeps is done. |
| Logger.Tick | src/Logger.cpp:86-113 | After a tick no entry is done; the table never grows and at most one sample per entry is sent. |
| Logger.DelRequest | src/Logger.cpp:77-82 | Shifting the later entries down removes exactly the entry at the position and keeps the others in order. |
| Logger.EmitSamples | src/Logger.cpp:87-101 | The emission loop leaves the table and sends the messages that the reference tick defines. |
| Logger.SweepDone | src/Logger.cpp:105-112 | The sweep loop, which deletes in place and does not advance after a deletion, keeps exactly the not-done entries in order, as the reference sweep does. |
| Logger.HandleLoggingRequests | src/Logger.cpp:86-113 | The whole service routine agrees with the reference tick: emit, then sweep. |
| Logger.FindPin | src/Logger.cpp:121-140 | The search returns the first entry logging the pin, or the count when no entry does. |
| Logger.LogSignal | src/Logger.cpp:116-132 | Code 1 is returned exactly when the table is full, which is checked first. Code 2 is returned exactly when it is not full and some entry already logs the pin. A refusal leaves the table unchanged; code 0 appends one fresh entry. |
| Logger.EndLogSignal | src/Logger.cpp:134-142 | Code 1 is returned exactly when no entry logs the pin. Otherwise only the first entry for the pin is marked closing; count, order and every other entry are unchanged. |
| Logger.LogSignalPreservesValid | src/Logger.cpp:116-132 | Admission keeps the table within capacity, one entry per pin and with no finished entry. |
| Logger.EndLogSignalPreservesValid | src/Logger.cpp:134-142 | Closing keeps the table valid and changes no entry's pin. |
| Logger.EndLogSignalIdempotent | src/Logger.cpp:134-142 | Closing the same pin again before a tick succeeds and changes nothing more. |
| Logger.KeepAppend | src/Logger.cpp:105-112 | The sweep judges each entry on its own: sweeping a concatenation sweeps its parts. |
| Logger.KeepMembers | src/Logger.cpp:105-112 | The sweep keeps exactly the entries that are not done. It never grows the table, and it changes nothing when no entry is done. |
| Logger.KeepDistinct | src/Logger.cpp:105-112 | The sweep keeps the relative order, so pins stay distinct. |
| Logger.SamplesAppend | src/Logger.cpp:87-101 | Samples come out in table order: the samples of a concatenation are those of its parts, in order. |
| Logger.TickPreservesValid | src/Logger.cpp:86-113 | After any tick no entry is done, a valid table stays valid, and the table never grows. |
| Logger.NotReadyKept | src/Logger.cpp:54-113 | An entry that is not due is carried through the tick untouched. |
| Logger.ClosedEntryFinishes | src/Logger.cpp:37-113 | A closing entry that is due emits its last sample with done = true and is swept in the same tick. Afterwards no entry logs its pin. |
| Logger.DueEntrySampled | src/Logger.cpp:87-101 | The sample of every due entry is among the tick's messages. |
| Logger.ClosedEntrySwept | src/Logger.cpp:105-112 | After the sweep, no entry logs a pin whose closing entry was due. |
| Logger.FirstSampleThenQuiet | src/Logger.cpp:54-132 | A newly admitted job is sampled on the next tick whatever the time. It then stays quiet until strictly more than its period has passed. |
| Serial.SerialInit | src/SerialHandler.cpp:17-24 | Both strings are emptied; the flag and the callback are kept. |
| Serial.SetCallback | src/SerialHandler.cpp:26-28 | The callback is bound and the buffers are untouched. |
| Serial.Receive | src/SerialHandler.cpp:48-58 | A received character never changes the callback binding. |
| Serial.SerialEvent | src/SerialHandler.cpp:48-58 | A burst keeps the callback binding, and an empty burst changes nothing. |
| Serial.SerialProcess | src/SerialHandler.cpp:30-37 | A line is delivered exactly when the flag is set and a callback is bound, and the line is the mailbox's content. The flag is cleared either way and the buffers are untouched. |
| Serial.LastNewline | src/SerialHandler.cpp:48-58 | The position of the last newline in a text, or -1 when it has none. |
| Serial.SerialEventNewlineFree | src/SerialHandler.cpp:48-58 | A newline never enters the pending buffer or a delivered line. |
| Serial.LastNewlineSnoc | src/SerialHandler.cpp:51-56 | Appending a character moves the last newline only when that character is a newline. |
| Serial.FramedReceive | src/SerialHandler.cpp:50-57 | One more character keeps the mailbox framed: the buffer holds the text after the last newline, and the mailbox holds the line between the last two newlines. |
| Serial.SerialEventFraming | src/SerialHandler.cpp:48-58 | After any burst, the pending buffer is the text after the last newline received. The flag is set exactly when the burst held a newline, and the mailbox holds the last completed line. |
| Serial.FramedComplete | src/SerialHandler.cpp:50-54 | Once the text received holds a newline, the flag is set, the buffer holds what followed the last newline and the mailbox holds the line that newline completed. |
| Serial.BurstMailbox | src/SerialHandler.cpp:48-58 | A burst containing a newline sets the flag and leaves the last completed line in the mailbox, so earlier lines of the same burst are overwritten. |
| Serial.DeliverOnce | src/SerialHandler.cpp:30-37 | A second drain finds nothing and changes nothing: a line is delivered at most once. |
| Messages.CommandReady | src/MessageHandler.cpp:164-166 | The startup notification is "RX_READY" with job 0 and nothing else. |
| Messages.CommandGetInput | src/MessageHandler.cpp:206-237 | An unknown pin gets INVALID_PIN, and exactly then no reply. A known pin gets a reply echoing the pin and its level. For a digital pin the level is "HIGH" exactly when digitalRead gives HIGH and "LOW" otherwise; for an analog pin it is the analogRead value. |
| Messages.WriteLevel | src/MessageHandler.cpp:245-294 | An accepted level is echoed and makes exactly one driver write. A rejected one gets INVALID_OUTPUT_LEVEL and no write. |
| Messages.CommandSetOutput | src/MessageHandler.cpp:239-304 | The reply is a success exactly when the pin is known, in OUTPUT mode and the level is accepted for its kind. An unknown pin gets INVALID_PIN and a non-output pin gets INVALID_OUTPUT_PIN, neither with a write. |
| Messages.CommandLogSignal | src/MessageHandler.cpp:168-191 | An unknown pin gets INVALID_PIN and an undefined continuation. A known pin gets INVALID_INPUT_PIN when it is not an input and is still handed to the scheduler. The scheduler's refusals become TOO_MANY_LOGGING_JOBS or DUPLICATE_LOGGING_JOB, and there is no success reply. |
| Messages.CommandEndLogSignal | src/MessageHandler.cpp:193-204 | The table is what end_log_signal makes of it. LOGGING_REQUEST_NOT_FOUND is sent exactly when no entry logs the resolved pin; otherwise a bare success reply is sent. |
| Messages.CommandGetPinMode | src/MessageHandler.cpp:306-323 | An unknown pin gets INVALID_PIN, and exactly then no reply. A known pin gets a reply whose mode name reads back as the stored mode. |
| Messages.CommandSetPinMode | src/MessageHandler.cpp:325-380 | An unknown pin gets INVALID_PIN. An unknown mode name gets no reply and no change. A mode the pin's capability admits is stored, sent to the driver and echoed. One it does not admit gets INVALID_PIN_MODE and no change. |
| Messages.CommandTriggerPulse | src/MessageHandler.cpp:382-398 | Only a known pin in OUTPUT mode is pulsed and acknowledged. Otherwise the reply is INVALID_PIN or INVALID_OUTPUT_PIN and there is no driver call. |
| Messages.RunCommand | src/MessageHandler.cpp:51-157 | No case of the switch changes the recorded command, and only log-signal and end-log-signal touch the logging table. |
| Messages.DoCommandAction | src/MessageHandler.cpp:41-158 | The resolved command is recorded in the message record, whatever happens next. |
| Messages.ReceiveMessage | src/MessageHandler.cpp:29-39 | A line that does not parse, or names no command, is answered by exactly one error and changes nothing. Otherwise a completed message records the command it named. |
| MessageProperties.RunCommandConsistent | src/MessageHandler.cpp:51-157 | Every command keeps the logging table valid and stores only real pin modes. |
| MessageProperties.LogSignalConsistent | src/MessageHandler.cpp:168-191 | A completed log-signal keeps the state consistent. |
| MessageProperties.EndLogSignalConsistent | src/MessageHandler.cpp:193-204 | An end-log-signal keeps the state consistent. |
| MessageProperties.SetPinModeConsistent | src/MessageHandler.cpp:325-380 | A set-pin-mode keeps the state consistent. |
| MessageProperties.ReceiveMessageConsistent | src/MessageHandler.cpp:29-39 | Whatever line arrives, a message that completes leaves the state consistent. |
| MessageProperties.RunCommandCompatible | src/MessageHandler.cpp:51-157 | Every command except RESET_PIN_MODES keeps each pin in a mode its capability admits. |
| MessageProperties.ReceiveMessageCompatible | src/MessageHandler.cpp:29-39 | A message that does not name RESET_PIN_MODES keeps every pin compatible. |
| MessageProperties.ParseFailure | src/ProtocolHandler.cpp:80-91 | A rejected line gets one DESERIALIZE_JSON_FAILED error and changes nothing. |
| MessageProperties.MissingCommand | src/MessageHandler.cpp:35-37 | A document without "command" gets exactly one INVALID_KEY error and changes nothing. |
| MessageProperties.MissingCommandStaleTag | src/MessageHandler.cpp:35-42 | That error is named after the command of the previous message that named one, because the message record still holds it. |
| MessageProperties.MissingJob | src/MessageHandler.cpp:42-48 | A command without "job" gets its own INVALID_KEY error and then NO_JOB_ID. Only the recorded command changes. |
| MessageProperties.MissingJobTexts | src/MessageHandler.cpp:42-48 | The words of those two errors. |
| MessageProperties.ReceiveDelegates | src/MessageHandler.cpp:29-39 | A parsed document naming a command is handed to do_command_action. |
| MessageProperties.MissingJobAction | src/MessageHandler.cpp:42-48 | do_command_action on a document without "job" sends the two errors. |
| MessageProperties.MissingKey | src/MessageHandler.cpp:51-147 | A command with a job but missing a key it needs gets exactly one INVALID_KEY error, for the first missing key in the order the command asks for them. Only the recorded command changes. |
| MessageProperties.UnknownCommand | src/MessageHandler.cpp:149-156 | An unknown name, "READY" or "ERROR" gets exactly one "ERR_ERROR" INVALID_COMMAND error carrying the job and the name as received. |
| MessageProperties.UnknownCommandAction | src/MessageHandler.cpp:149-156 | do_command_action on a command the switch has no case for sends the INVALID_COMMAND error. |
| MessageProperties.ActionRuns | src/MessageHandler.cpp:41-158 | With a job and every key present, do_command_action runs the command's case on the keys' values. |
| MessageProperties.UnknownCommandRun | src/MessageHandler.cpp:149-156 | The switch's default case. |
| MessageProperties.UnknownCommandNames | src/ProtocolHandler.cpp:14-118 | A name is unknown exactly when no table row carries it; "READY" and "ERROR" are known names. |
| MessageProperties.ReadOnlyCommands | src/MessageHandler.cpp:51-157 | GET_INPUT, SET_OUTPUT, GET_PIN_MODE, TRIGGER_PULSE, SAVE_PIN_MODES and the unknown commands change neither the pin modes nor the logging table, and each sends exactly one message. |
| MessageProperties.BareReply | src/MessageHandler.cpp:123-135 | The reply of a command without arguments is its RX_ name with the job as its only field. |
| MessageProperties.LoadCommand | src/MessageHandler.cpp:121-125 | LOAD_PIN_MODES always gets the bare RX_LOAD_PIN_MODES reply with the job. With only real modes stored it changes no state, and it re-applies every pin's stored mode through the driver, one call per pin in table order. |
| MessageProperties.SaveCommand | src/MessageHandler.cpp:127-131 | SAVE_PIN_MODES always gets the bare RX_SAVE_PIN_MODES reply with the job. It changes no mode, the table or the recorded command, and makes no driver call. |
| MessageProperties.ResetCommand | src/MessageHandler.cpp:133-137 | RESET_PIN_MODES always gets the bare RX_RESET_PIN_MODES reply with the job. Every pin's stored mode becomes INPUT, the driver is not told, and the logging table is kept. |
| MessageProperties.LogSignalOnNonInputPin | src/MessageHandler.cpp:174-190 | A known pin that is not an input gets INVALID_INPUT_PIN and is still admitted to the logging table. |
| MessageProperties.LogSignalOnUnknownPin | src/MessageHandler.cpp:169-174 | An unknown pin gets INVALID_PIN, and the handler then reads outside the pin table. |
| MessageProperties.Dispatches | src/MessageHandler.cpp:29-158 | A message with a command, a job and every required key runs that command. It gets the job's integer value and the keys' values in order, with the command recorded. |
| MessageProperties.Session | src/MessageHandler.cpp:239-380 | From power-on, three messages: SET_PIN_MODE D30 to OUTPUT, SET_OUTPUT D30 HIGH, and GET_INPUT of an unknown pin. Each gets the reply the protocol documents, and the driver sees exactly the mode change and the write. |
| Firmware.Boot | src/main.cpp:10-16 | After setup the mode table is as compiled and the mailbox is empty with the callback bound. READY is the only message, and the driver sees one mode call per pin in table order. |
| Firmware.Service | src/main.cpp:20 | The logging pass touches only the logging table: modes, the recorded command and the serial state are unchanged, and there are no driver calls. |
| Firmware.Deliver | src/main.cpp:19-20 | A delivered line is dispatched and then the logging pass runs. The firmware stops exactly when the message leaves the model. |
| Firmware.Loop | src/main.cpp:18-21 | A pass delivers the mailbox's line exactly when the flag is set and a callback is bound, then clears the flag. Otherwise it only services the logging table. |
| Firmware.ReceiveChars | src/SerialHandler.cpp:48-58 | Arriving characters touch only the serial state. |
| Firmware.RunFrom | src/main.cpp:18-21 | Any number of passes from a consistent state, however the lines and clock arrive, keep the state consistent and the callback bound while the firmware runs. |
| Firmware.Execute | src/main.cpp:10-21 | READY is always the first message. A running firmware is in a consistent state with the callback bound. |
| Firmware.LoopConsistent | src/main.cpp:18-21 | One pass keeps the state consistent. |
| Firmware.FirstPassQuiet | src/main.cpp:10-21 | The first pass after setup sends nothing and changes nothing. |
| Firmware.IdlePass | src/main.cpp:18-21 | A pass with no complete line changes neither the modes, the recorded command nor the serial state, and makes no driver calls. |
| Firmware.LastLineDelivered | src/SerialHandler.cpp:30-58 | After a burst containing newlines, the next pass dispatches the line ended by the last of them. |
| Firmware.LineHandledOnce | src/SerialHandler.cpp:30-37 | After the pass that delivered a line, a pass with no new characters only services the logging table. |

## Left out

- Serial I/O is not executed. `Serial.begin`, `println`, the JSON text of a
  reply and the `String::reserve` calls are left out; each reply is a
  `Response` value.
- The JSON parser (ArduinoJson) is an oracle: `parse` yields success, a
  string-valued document and an error text. Its capacity limit, duplicate
  keys and non-string values are not modelled.
- `String::toInt` is an oracle, and its result is used as an unbounded
  integer. The conversion of job and period to `unsigned int` is not
  modelled, so a negative job or period is kept as it is.
- Logger.Ready: 32-bit wrap-around of `millis()` and of `last_read_ + period_` is not modelled, because the clock is an unbounded natural.
- One tick reads the clock once. The firmware calls `millis()` again for
  every entry, so within one tick its entries can see slightly different
  times.
- The pin driver (`pinMode`, `digitalWrite`, `analogWrite`, `digitalRead`,
  `analogRead`) is a trace of calls plus a readings oracle.
- The numeric values of the board's pin macros are not modelled; the
  analog and DAC addresses are symbolic.
- The 100 ms `delay` inside trigger_pulse is timing, not state, and is
  left out.
- The EEPROM reads and writes in load_pin_modes and save_pin_modes are
  commented out in the firmware, so they are not modelled.
- pin_level_mapping (src/ProtocolHandler.cpp:57-60) is never read, so it is
  not modelled.
- What happens after log_signal reads outside the pin table is undefined.
  It is modelled as `Undefined` / `Crashed`, and no further behaviour is
  modelled.
- serialEvent runs between passes of loop(). It is modelled as one burst of
  characters between two passes, not as an interrupt within a pass.
- Protocol.GetCommandString: its own contract states only the leading letter of a name, to keep every reply-building proof cheap; the full shape ("RX_"/"ERR_" prefix plus the table name, "ERROR" for COMMAND_ERROR) is stated by Protocol.ResponseNameShape.
- Firmware.RunFrom and Firmware.Execute state consistency, not the exact output of a run. The output of each pass is stated by Firmware.Loop.
