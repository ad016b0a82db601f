/** The command dispatcher: one inbound line is parsed, its command
    resolved, its job id and per-command keys required, its pin, mode and
    level validated, the pin registry or logging table changed, and the
    responses emitted. Everything the firmware keeps between messages is in
    one `Controller` record; each step returns the new record with the
    responses and driver calls it produced, in order. */
module Messages {
  import opened Protocol
  import Gpio
  import Logger

  /** The process-wide state the dispatcher touches: the pin modes, the
      logging table, and message_struct.command, which keeps the command of
      the last message that got as far as command resolution. */
  datatype Controller = Controller(modes: Gpio.PinModes, requests: seq<Logger.LoggingRequest>, command: Command)

  /** Static storage starts zeroed, so the stale command tag starts as
      COMMAND_GET_INPUT (value 0). */
  function InitialController(): (c: Controller)
    ensures Consistent(c) && Wellformed(c)
    ensures Gpio.AllCompatible(c.modes)
  {
    Gpio.InitialModesCompatible();
    Controller(Gpio.InitialModes(), [], GetInput)
  }

  /** The outside world as seen by one message: the JSON parser, Arduino's
      String::toInt, and the pin readings. */
  datatype Env = Env(parse: string -> Parsed, toInt: string -> int, readings: Gpio.Readings)

  /** The result of handling one message. `Undefined` records that the
      firmware read outside a table (a log-signal request for an unknown
      pin); what it had emitted until then is kept, nothing after is
      modelled. */
  datatype Outcome =
    | Done(ctl: Controller, out: seq<Response>, driver: seq<Gpio.DriverCall>)
    | Undefined(out: seq<Response>)

  /** What the dispatcher needs of the state: a logging table within its
      fixed array, and only real modes stored. */
  predicate Wellformed(ctl: Controller) {
    |ctl.requests| <= Logger.MAX_REQUESTS && Gpio.AllValid(ctl.modes)
  }

  /** The invariant between messages and ticks. */
  predicate Consistent(ctl: Controller) {
    Logger.Valid(ctl.requests) && Gpio.AllValid(ctl.modes)
  }

  /** A success reply for command `c` echoing `job`. */
  predicate IsReply(r: Response, c: Command, job: int) {
    r.command == GetCommandString(c, MsgOutput) && |r.data| >= 1 && r.data[0] == ("job", Num(job))
  }

  /** An error for command `c` carrying `job` and the error code `code`. */
  predicate IsError(r: Response, c: Command, code: string, job: int) {
    r.command == GetCommandString(c, MsgError) && |r.data| == 3 && r.data[0] == ("job", Num(job)) && r.data[1] == ("error", Str(code))
  }

  function InvalidPinError(c: Command, pinStr: string, job: int): Response {
    BuildJobError(c, "INVALID_PIN", "Pin '" + pinStr + "' is not valid", job)
  }

  // ------------------------------------------------------------------
  // Command handlers
  // ------------------------------------------------------------------

  /** command_ready: the startup notification, always job 0. */
  function CommandReady(): (r: Response)
    ensures r.command == "RX_READY" && r.data == [("job", Num(0))]
  {
    BuildCommand(Ready, MsgOutput, 0, [])
  }

  /** command_get_input: a digital pin reports "HIGH" or "LOW", an analog pin
      its reading; the mode is not checked. */
  function CommandGetInput(rd: Gpio.Readings, job: int, pinStr: string): (r: Response)
    ensures GetValidPinType(pinStr) == PIN_INVALID_PIN <==> IsError(r, GetInput, "INVALID_PIN", job)
    ensures GetValidPinType(pinStr) != PIN_INVALID_PIN <==> IsReply(r, GetInput, job)
    ensures IsReply(r, GetInput, job) ==> |r.data| == 3 && r.data[1] == ("pin", Str(pinStr)) && r.data[2].0 == "level"
    ensures IsReply(r, GetInput, job) ==> (r.data[2].1.Str? <==> Gpio.GetPinType(GetValidPinType(pinStr)) == Digital)
    ensures IsReply(r, GetInput, job) ==>
              var p := GetValidPinType(pinStr);
              r.data[2].1 == (if Gpio.GetPinType(p) == Digital then Str(if rd.digital(p) == Gpio.HIGH then "HIGH" else "LOW")
                              else Num(rd.analog(p)))
  {
    ReplyNotError(GetInput, GetInput);
    var pin := GetValidPinType(pinStr);
    if pin != PIN_INVALID_PIN then
      var level := if Gpio.GetPinType(pin) == Digital then Str(if rd.digital(pin) == Gpio.HIGH then "HIGH" else "LOW")
                   else Num(rd.analog(pin));
      PairsOfLiterals("pin", Str(pinStr), "level", level);
      BuildCommand(GetInput, MsgOutput, job, [Str("pin"), Str(pinStr), Str("level"), level])
    else
      InvalidPinError(GetInput, pinStr, job)
  }

  /** The levels set-output accepts on a pin: exactly "HIGH" or "LOW" on a
      digital pin; on an analog pin any text whose integer value is at most
      255 (there is no lower bound). */
  predicate LevelAccepted(toInt: string -> int, p: PinId, level: string) {
    if Gpio.GetPinType(p) == Digital then level == "HIGH" || level == "LOW" else toInt(level) <= 255
  }

  /** The value a successful set-output echoes: the level text on a
      digital pin, its integer value on an analog one. */
  function EchoedLevel(toInt: string -> int, p: PinId, level: string): Value {
    if Gpio.GetPinType(p) == Digital then Str(level) else Num(toInt(level))
  }

  /** The driver call a successful set-output makes: digitalWrite HIGH
      exactly for "HIGH" on a digital pin, analogWrite of the integer value
      on an analog one. */
  function LevelWrite(toInt: string -> int, p: PinId, level: string): Gpio.DriverCall {
    if Gpio.GetPinType(p) == Digital then Gpio.WriteDigital(p, level == "HIGH") else Gpio.WriteAnalog(p, toInt(level))
  }

  /** The part of command_set_output for a pin in OUTPUT mode: check the
      level against the pin's signal kind, write it, and reply. */
  function WriteLevel(toInt: string -> int, job: int, p: PinId, pinStr: string, level: string): (r: (Response, seq<Gpio.DriverCall>))
    ensures LevelAccepted(toInt, p, level) ==>
              && r.0 == Response(GetCommandString(SetOutput, MsgOutput), [("job", Num(job)), ("pin", Str(pinStr)), ("level", EchoedLevel(toInt, p, level))])
              && r.1 == [LevelWrite(toInt, p, level)]
    ensures !LevelAccepted(toInt, p, level) ==> IsError(r.0, SetOutput, "INVALID_OUTPUT_LEVEL", job) && r.1 == []
  {
    if Gpio.GetPinType(p) == Digital then
      if level == "HIGH" || level == "LOW" then
        PairsOfLiterals("pin", Str(pinStr), "level", Str(level));
        (BuildCommand(SetOutput, MsgOutput, job, [Str("pin"), Str(pinStr), Str("level"), Str(level)]),
         [Gpio.WriteDigital(p, level == "HIGH")])
      else
        (BuildJobError(SetOutput, "INVALID_OUTPUT_LEVEL", "Level '" + level + "' is not valid", job), [])
    else
      var value := toInt(level);
      if value <= 255 then
        PairsOfLiterals("pin", Str(pinStr), "level", Num(value));
        (BuildCommand(SetOutput, MsgOutput, job, [Str("pin"), Str(pinStr), Str("level"), Num(value)]),
         [Gpio.WriteAnalog(p, value)])
      else
        (BuildJobError(SetOutput, "INVALID_OUTPUT_LEVEL", "Level '" + level + "' is not valid", job), [])
  }

  /** command_set_output: only a known pin in OUTPUT mode is written. */
  function CommandSetOutput(modes: Gpio.PinModes, toInt: string -> int, job: int, pinStr: string, level: string): (r: (Response, seq<Gpio.DriverCall>))
    ensures GetValidPinType(pinStr) == PIN_INVALID_PIN ==> IsError(r.0, SetOutput, "INVALID_PIN", job) && r.1 == []
    ensures var p := GetValidPinType(pinStr);
            p != PIN_INVALID_PIN && Gpio.GetPinMode(modes, p) != Output ==> IsError(r.0, SetOutput, "INVALID_OUTPUT_PIN", job) && r.1 == []
    ensures var p := GetValidPinType(pinStr);
            p != PIN_INVALID_PIN && Gpio.GetPinMode(modes, p) == Output ==> r == WriteLevel(toInt, job, p, pinStr, level)
    ensures var p := GetValidPinType(pinStr);
            IsReply(r.0, SetOutput, job) <==> p != PIN_INVALID_PIN && Gpio.GetPinMode(modes, p) == Output && LevelAccepted(toInt, p, level)
  {
    ReplyNotError(SetOutput, SetOutput);
    var pin := GetValidPinType(pinStr);
    if pin != PIN_INVALID_PIN then
      if Gpio.GetPinMode(modes, pin) == Output then
        WriteLevel(toInt, job, pin, pinStr, level)
      else
        (BuildJobError(SetOutput, "INVALID_OUTPUT_PIN", "Pin '" + pinStr + "' is not an output", job), [])
    else
      (InvalidPinError(SetOutput, pinStr, job), [])
  }

  /** The error log_signal's return code is reported as. */
  function SchedulerError(code: int, job: int): seq<Response> {
    if code == 0 then []
    else
      var err := if code == 1 then "TOO_MANY_LOGGING_JOBS" else if code == 2 then "DUPLICATE_LOGGING_JOB" else "";
      [BuildJobError(Command.LogSignal, err, "", job)]
  }

  /** command_log_signal. Neither the INVALID_PIN nor the INVALID_INPUT_PIN
      branch returns: after INVALID_PIN the firmware reads the mode of the
      sentinel pin outside the pin table (undefined from there on), and
      after INVALID_INPUT_PIN it still asks the scheduler to log the pin.
      There is no success reply; the samples are the reply. */
  function CommandLogSignal(ctl: Controller, job: int, pinStr: string, period: int): (o: Outcome)
    requires Wellformed(ctl)
    ensures GetValidPinType(pinStr) == PIN_INVALID_PIN <==> o.Undefined?
    ensures o.Undefined? ==> |o.out| == 1 && IsError(o.out[0], Command.LogSignal, "INVALID_PIN", job)
    ensures o.Done? ==>
              var p := GetValidPinType(pinStr);
              var (code, reqs) := Logger.LogSignal(ctl.requests, job, p, period);
              && o.ctl == ctl.(requests := reqs)
              && o.driver == []
              && o.out == (if Gpio.GetPinMode(ctl.modes, p) != Input then [BuildJobError(Command.LogSignal, "INVALID_INPUT_PIN", "", job)] else [])
                          + SchedulerError(code, job)
  {
    var pin := GetValidPinType(pinStr);
    if pin == PIN_INVALID_PIN then
      Undefined([BuildJobError(Command.LogSignal, "INVALID_PIN", "", job)])
    else
      var modeErr := if Gpio.GetPinMode(ctl.modes, pin) != Input then [BuildJobError(Command.LogSignal, "INVALID_INPUT_PIN", "", job)] else [];
      var (code, reqs) := Logger.LogSignal(ctl.requests, job, pin, period);
      Done(ctl.(requests := reqs), modeErr + SchedulerError(code, job), [])
  }

  /** command_end_log_signal: the pin name is not validated; an unknown
      name resolves to the sentinel, which no entry logs. */
  function CommandEndLogSignal(ctl: Controller, job: int, pinStr: string): (r: (Controller, Response))
    ensures r.0 == ctl.(requests := Logger.EndLogSignal(ctl.requests, GetValidPinType(pinStr)).1)
    ensures IsError(r.1, EndLogSignal, "LOGGING_REQUEST_NOT_FOUND", job) <==>
              forall j :: 0 <= j < |ctl.requests| ==> ctl.requests[j].pin != GetValidPinType(pinStr)
    ensures !IsError(r.1, EndLogSignal, "LOGGING_REQUEST_NOT_FOUND", job) ==> r.1 == Response(GetCommandString(EndLogSignal, MsgOutput), [("job", Num(job))])
  {
    ReplyNotError(EndLogSignal, EndLogSignal);
    var pin := GetValidPinType(pinStr);
    var (code, reqs) := Logger.EndLogSignal(ctl.requests, pin);
    var c := ctl.(requests := reqs);
    PairsOfLiterals("", Num(0), "", Num(0));
    if code != 0 then (c, BuildJobError(EndLogSignal, "LOGGING_REQUEST_NOT_FOUND", "", job))
    else (c, BuildCommand(EndLogSignal, MsgOutput, job, []))
  }

  /** command_get_pin_mode: the stored mode's name. */
  function CommandGetPinMode(modes: Gpio.PinModes, job: int, pinStr: string): (r: Response)
    requires Gpio.AllValid(modes)
    ensures GetValidPinType(pinStr) == PIN_INVALID_PIN <==> IsError(r, GetPinMode, "INVALID_PIN", job)
    ensures GetValidPinType(pinStr) != PIN_INVALID_PIN ==>
              && IsReply(r, GetPinMode, job) && |r.data| == 3
              && r.data[1] == ("pin", Str(pinStr)) && r.data[2].0 == "mode" && r.data[2].1.Str?
              && GetValidPinMode(r.data[2].1.s) == Gpio.GetPinMode(modes, GetValidPinType(pinStr))
  {
    ReplyNotError(GetPinMode, GetPinMode);
    var pin := GetValidPinType(pinStr);
    if pin != PIN_INVALID_PIN then
      var name := GetPinModeString(Gpio.GetPinMode(modes, pin));
      PinModeRoundTrip(Gpio.GetPinMode(modes, pin), name);
      PairsOfLiterals("pin", Str(pinStr), "mode", Str(name));
      BuildCommand(GetPinMode, MsgOutput, job, [Str("pin"), Str(pinStr), Str("mode"), Str(name)])
    else
      InvalidPinError(GetPinMode, pinStr, job)
  }

  /** command_set_pin_mode: INPUT and INPUT_PULLUP need an input-capable
      pin, OUTPUT an output-capable one; an unrecognised mode string
      produces no response and no change. */
  function CommandSetPinMode(modes: Gpio.PinModes, job: int, pinStr: string, modeStr: string): (r: (Gpio.PinModes, seq<Response>, seq<Gpio.DriverCall>))
    ensures GetValidPinType(pinStr) == PIN_INVALID_PIN ==> r == (modes, [InvalidPinError(SetPinMode, pinStr, job)], [])
    ensures GetValidPinType(pinStr) != PIN_INVALID_PIN && GetValidPinMode(modeStr) == NotValid ==> r == (modes, [], [])
    ensures var p := GetValidPinType(pinStr);
            var m := GetValidPinMode(modeStr);
            p != PIN_INVALID_PIN && m != NotValid && Gpio.Compatible(p, m) ==>
              && r.0 == Gpio.SetPinMode(modes, p, m).0 && r.2 == [Gpio.SetPinMode(modes, p, m).1]
              && r.1 == [Response(GetCommandString(SetPinMode, MsgOutput), [("job", Num(job)), ("pin", Str(pinStr)), ("mode", Str(modeStr))])]
    ensures var p := GetValidPinType(pinStr);
            var m := GetValidPinMode(modeStr);
            p != PIN_INVALID_PIN && m != NotValid && !Gpio.Compatible(p, m) ==>
              && r.0 == modes && r.2 == []
              && |r.1| == 1 && IsError(r.1[0], SetPinMode, "INVALID_PIN_MODE", job)
  {
    ReplyNotError(SetPinMode, SetPinMode);
    var pin := GetValidPinType(pinStr);
    if pin != PIN_INVALID_PIN then
      var cap := Gpio.GetPinModeType(pin);
      var target := GetValidPinMode(modeStr);
      PairsOfLiterals("pin", Str(pinStr), "mode", Str(modeStr));
      var reply := BuildCommand(SetPinMode, MsgOutput, job, [Str("pin"), Str(pinStr), Str("mode"), Str(modeStr)]);
      assert reply == Response(GetCommandString(SetPinMode, MsgOutput), [("job", Num(job)), ("pin", Str(pinStr)), ("mode", Str(modeStr))]);
      match target
      case Input | InputPullup =>
        if cap == InputOnly || cap == InputAndOutput then
          var (m, call) := Gpio.SetPinMode(modes, pin, target);
          (m, [reply], [call])
        else
          (modes, [BuildJobError(SetPinMode, "INVALID_PIN_MODE", "Pin '" + pinStr + "' is a output only", job)], [])
      case Output =>
        if cap == OutputOnly || cap == InputAndOutput then
          var (m, call) := Gpio.SetPinMode(modes, pin, target);
          (m, [reply], [call])
        else
          (modes, [BuildJobError(SetPinMode, "INVALID_PIN_MODE", "Pin '" + pinStr + "' is a input only", job)], [])
      case NotValid => (modes, [], [])
    else
      (modes, [InvalidPinError(SetPinMode, pinStr, job)], [])
  }

  /** command_trigger_pulse: only a pin in OUTPUT mode is pulsed. */
  function CommandTriggerPulse(modes: Gpio.PinModes, job: int, pinStr: string): (r: (Response, seq<Gpio.DriverCall>))
    ensures var p := GetValidPinType(pinStr);
            && (p == PIN_INVALID_PIN ==> IsError(r.0, TriggerPulse, "INVALID_PIN", job) && r.1 == [])
            && (p != PIN_INVALID_PIN && Gpio.GetPinMode(modes, p) != Output ==> IsError(r.0, TriggerPulse, "INVALID_OUTPUT_PIN", job) && r.1 == [])
            && (p != PIN_INVALID_PIN && Gpio.GetPinMode(modes, p) == Output ==>
                  && r.0 == Response(GetCommandString(TriggerPulse, MsgOutput), [("job", Num(job)), ("pin", Str(pinStr))])
                  && r.1 == Gpio.TriggerPulse(p))
  {
    ReplyNotError(TriggerPulse, TriggerPulse);
    var pin := GetValidPinType(pinStr);
    if pin != PIN_INVALID_PIN then
      if Gpio.GetPinMode(modes, pin) == Output then
        PairsOfLiterals("pin", Str(pinStr), "", Num(0));
        (BuildCommand(TriggerPulse, MsgOutput, job, [Str("pin"), Str(pinStr)]), Gpio.TriggerPulse(pin))
      else
        (BuildJobError(TriggerPulse, "INVALID_OUTPUT_PIN", "Pin '" + pinStr + "' is not an output", job), [])
    else
      (InvalidPinError(TriggerPulse, pinStr, job), [])
  }

  // ------------------------------------------------------------------
  // Dispatch
  // ------------------------------------------------------------------

  /** The keys each command's case requires after "job", in the order its
      has_object_given_key chain tries them. */
  function RequiredKeys(c: Command): seq<string> {
    match c
    case GetInput => ["pin"]
    case SetOutput => ["pin", "level"]
    case LogSignal => ["pin", "period"]
    case EndLogSignal => ["pin"]
    case GetPinMode => ["pin"]
    case SetPinMode => ["pin", "mode"]
    case TriggerPulse => ["pin"]
    case _ => []
  }

  /** The switch of do_command_action, once the job and the keys are in
      hand. No case changes the recorded command, and only log-signal and
      end-log-signal touch the logging table. */
  function RunCommand(ctl: Controller, env: Env, job: int, args: seq<string>, commandString: string): (o: Outcome)
    requires Wellformed(ctl)
    requires |args| == |RequiredKeys(ctl.command)|
    ensures o.Done? ==> o.ctl.command == ctl.command
    ensures o.Done? && ctl.command != LogSignal && ctl.command != EndLogSignal ==> o.ctl.requests == ctl.requests
  {
    match ctl.command
    case GetInput =>
      Done(ctl, [CommandGetInput(env.readings, job, args[0])], [])
    case SetOutput =>
      var (r, calls) := CommandSetOutput(ctl.modes, env.toInt, job, args[0], args[1]);
      Done(ctl, [r], calls)
    case LogSignal =>
      CommandLogSignal(ctl, job, args[0], env.toInt(args[1]))
    case EndLogSignal =>
      var (c, r) := CommandEndLogSignal(ctl, job, args[0]);
      Done(c, [r], [])
    case GetPinMode =>
      Done(ctl, [CommandGetPinMode(ctl.modes, job, args[0])], [])
    case SetPinMode =>
      var (m, out, calls) := CommandSetPinMode(ctl.modes, job, args[0], args[1]);
      Done(ctl.(modes := m), out, calls)
    case LoadPinModes =>
      var (m, calls) := Gpio.LoadPinModes(ctl.modes);
      Done(ctl.(modes := m), [BuildCommand(LoadPinModes, MsgOutput, job, [])], calls)
    case SavePinModes =>
      Done(ctl.(modes := Gpio.SavePinModes(ctl.modes)), [BuildCommand(SavePinModes, MsgOutput, job, [])], [])
    case ResetPinModes =>
      Done(ctl.(modes := Gpio.ResetPinModes(ctl.modes)), [BuildCommand(ResetPinModes, MsgOutput, job, [])], [])
    case TriggerPulse =>
      var (r, calls) := CommandTriggerPulse(ctl.modes, job, args[0]);
      Done(ctl, [r], calls)
    case _ =>
      Done(ctl, [BuildJobError(Invalid, "INVALID_COMMAND", "Command '" + commandString + "' is not valid", job)], [])
  }

  /** The error do_command_action emits, after has_object_given_key's own
      INVALID_KEY, when the message has no job id. */
  function NoJobError(): Response {
    BuildError(Error, "NO_JOB_ID", "received command without job id")
  }

  /** do_command_action: resolve the command (and remember it in the
      message record), require "job", require the command's keys, run it. */
  function DoCommandAction(ctl: Controller, env: Env, doc: map<string, string>, commandString: string): (o: Outcome)
    requires Wellformed(ctl)
    ensures o.Done? ==> o.ctl.command == GetCommand(commandString)
  {
    var tag := GetCommand(commandString);
    var c := ctl.(command := tag);
    var (jobStr, jobErr) := HasObjectGivenKey(doc, tag, "job");
    if jobStr.None? then
      Done(c, jobErr + [NoJobError()], [])
    else
      var job := env.toInt(jobStr.value);
      var (args, keyErr) := HasKeys(doc, tag, RequiredKeys(tag));
      if args.None? then Done(c, keyErr, [])
      else RunCommand(c, env, job, args.value, commandString)
  }

  /** receive_message: the callback the mailbox hands each line to. A
      message without "command" is reported under the command of the
      previous message, since the message record still holds it. A line
      that does not parse or names no command is answered by exactly one
      error and changes nothing; otherwise the resolved command is
      recorded. */
  function ReceiveMessage(ctl: Controller, env: Env, line: string): (o: Outcome)
    requires Wellformed(ctl)
    ensures var p := env.parse(line);
            !(p.ok && "command" in p.doc) ==> o.Done? && o.ctl == ctl && o.driver == [] && |o.out| == 1
    ensures var p := env.parse(line);
            p.ok && "command" in p.doc && o.Done? ==> o.ctl.command == GetCommand(p.doc["command"])
  {
    var parsed := env.parse(line);
    var (ok, parseErr) := ReceiveMessageHandler(parsed);
    if !ok then Done(ctl, parseErr, [])
    else
      var (cmd, cmdErr) := HasObjectGivenKey(parsed.doc, ctl.command, "command");
      if cmd.None? then Done(ctl, cmdErr, [])
      else DoCommandAction(ctl, env, parsed.doc, cmd.value)
  }
}
