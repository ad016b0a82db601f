/** What the dispatcher promises across whole messages: how each kind of
    malformed message is answered, which state a message may change, and
    the invariants every message keeps. */
module MessageProperties {
  import opened Protocol
  import Gpio
  import Logger
  import opened Messages

  // ------------------------------------------------------------------
  // Invariants
  // ------------------------------------------------------------------

  /** Every command keeps the logging table valid and stores only real
      modes. */
  lemma RunCommandConsistent(ctl: Controller, env: Env, job: int, args: seq<string>, cs: string)
    requires Consistent(ctl) && |args| == |RequiredKeys(ctl.command)|
    ensures RunCommand(ctl, env, job, args, cs).Done? ==> Consistent(RunCommand(ctl, env, job, args, cs).ctl)
  {
    match ctl.command
    case LogSignal => LogSignalConsistent(ctl, env, job, args, cs);
    case EndLogSignal => EndLogSignalConsistent(ctl, env, job, args, cs);
    case SetPinMode => SetPinModeConsistent(ctl, env, job, args, cs);
    case _ =>
  }

  /** A log-signal keeps the table valid: admission refuses a full table
      and a pin already logged. */
  lemma LogSignalConsistent(ctl: Controller, env: Env, job: int, args: seq<string>, cs: string)
    requires Consistent(ctl) && ctl.command == LogSignal && |args| == 2
    ensures RunCommand(ctl, env, job, args, cs).Done? ==> Consistent(RunCommand(ctl, env, job, args, cs).ctl)
  {
    var p := GetValidPinType(args[0]);
    if p != PIN_INVALID_PIN {
      Logger.LogSignalPreservesValid(ctl.requests, job, p, env.toInt(args[1]));
    }
  }

  /** An end-log-signal only marks an entry as closing. */
  lemma EndLogSignalConsistent(ctl: Controller, env: Env, job: int, args: seq<string>, cs: string)
    requires Consistent(ctl) && ctl.command == EndLogSignal && |args| == 1
    ensures RunCommand(ctl, env, job, args, cs).Done? ==> Consistent(RunCommand(ctl, env, job, args, cs).ctl)
  {
    Logger.EndLogSignalPreservesValid(ctl.requests, GetValidPinType(args[0]));
  }

  /** A set-pin-mode stores only a recognised mode. */
  lemma SetPinModeConsistent(ctl: Controller, env: Env, job: int, args: seq<string>, cs: string)
    requires Consistent(ctl) && ctl.command == SetPinMode && |args| == 2
    ensures RunCommand(ctl, env, job, args, cs).Done? ==> Consistent(RunCommand(ctl, env, job, args, cs).ctl)
  {
    var p := GetValidPinType(args[0]);
    var m := GetValidPinMode(args[1]);
    if p != PIN_INVALID_PIN && m != NotValid && Gpio.Compatible(p, m) {
      var m' := Gpio.SetPinMode(ctl.modes, p, m).0;
      assert forall q: PinId :: m'[q] == Gpio.GetPinMode(m', q);
    }
  }

  /** Whatever line arrives, a message that completes leaves the state
      consistent. */
  lemma ReceiveMessageConsistent(ctl: Controller, env: Env, line: string)
    requires Consistent(ctl)
    ensures ReceiveMessage(ctl, env, line).Done? ==> Consistent(ReceiveMessage(ctl, env, line).ctl)
  {
    var parsed := env.parse(line);
    if parsed.ok && "command" in parsed.doc {
      var cs := parsed.doc["command"];
      var tag := GetCommand(cs);
      var c := ctl.(command := tag);
      if "job" in parsed.doc {
        var keys := HasKeys(parsed.doc, tag, RequiredKeys(tag));
        if keys.0.Some? {
          RunCommandConsistent(c, env, env.toInt(parsed.doc["job"]), keys.0.value, cs);
        }
      }
    }
  }

  /** Every command except RESET_PIN_MODES keeps each pin in a mode its
      capability admits. */
  lemma RunCommandCompatible(ctl: Controller, env: Env, job: int, args: seq<string>, cs: string)
    requires Wellformed(ctl) && Gpio.AllCompatible(ctl.modes) && |args| == |RequiredKeys(ctl.command)|
    requires ctl.command != ResetPinModes
    ensures RunCommand(ctl, env, job, args, cs).Done? ==> Gpio.AllCompatible(RunCommand(ctl, env, job, args, cs).ctl.modes)
  {
    match ctl.command
    case SetPinMode =>
      var p := GetValidPinType(args[0]);
      var m := GetValidPinMode(args[1]);
      if p != PIN_INVALID_PIN && m != NotValid && Gpio.Compatible(p, m) {
        Gpio.SetCompatiblePreserves(ctl.modes, p, m);
      }
    case LoadPinModes =>
      Gpio.LoadIdentityOnValid(ctl.modes);
    case _ =>
  }

  /** A message that does not name RESET_PIN_MODES keeps every pin
      compatible with its capability. */
  lemma ReceiveMessageCompatible(ctl: Controller, env: Env, line: string)
    requires Wellformed(ctl) && Gpio.AllCompatible(ctl.modes)
    requires var p := env.parse(line); !(p.ok && "command" in p.doc && GetCommand(p.doc["command"]) == ResetPinModes)
    ensures ReceiveMessage(ctl, env, line).Done? ==> Gpio.AllCompatible(ReceiveMessage(ctl, env, line).ctl.modes)
  {
    var parsed := env.parse(line);
    if parsed.ok && "command" in parsed.doc {
      var cs := parsed.doc["command"];
      var tag := GetCommand(cs);
      var c := ctl.(command := tag);
      if "job" in parsed.doc {
        var keys := HasKeys(parsed.doc, tag, RequiredKeys(tag));
        if keys.0.Some? {
          RunCommandCompatible(c, env, env.toInt(parsed.doc["job"]), keys.0.value, cs);
        }
      }
    }
  }

  // ------------------------------------------------------------------
  // Malformed messages
  // ------------------------------------------------------------------

  /** A line the parser rejects is answered by one DESERIALIZE_JSON_FAILED
      error named "ERROR" carrying the parser's message, and changes
      nothing. */
  lemma ParseFailure(ctl: Controller, env: Env, line: string)
    requires Wellformed(ctl) && !env.parse(line).ok
    ensures ReceiveMessage(ctl, env, line)
              == Done(ctl, [Response("ERROR", [("error", Str("DESERIALIZE_JSON_FAILED")), ("msg", Str(env.parse(line).error))])], [])
  {
  }

  /** A document without "command" is answered by one INVALID_KEY error
      with no job, named after the command the previous message resolved
      (GET_INPUT before any), and changes nothing. */
  lemma MissingCommand(ctl: Controller, env: Env, line: string)
    requires Wellformed(ctl) && env.parse(line).ok && "command" !in env.parse(line).doc
    ensures ReceiveMessage(ctl, env, line)
              == Done(ctl, [Response(GetCommandString(ctl.command, MsgError), [("error", Str("INVALID_KEY")), ("msg", Str("Key 'command' is missing"))])], [])
  {
    assert "Key '" + "command" + "' is missing" == "Key 'command' is missing";
  }

  /** The name that error carries is the previous message's: after a
      message naming `cs` has been handled, a message without "command" is
      reported under `cs`'s error name. */
  lemma MissingCommandStaleTag(ctl: Controller, env: Env, first: string, second: string)
    requires Consistent(ctl)
    requires env.parse(first).ok && "command" in env.parse(first).doc
    requires ReceiveMessage(ctl, env, first).Done?
    requires env.parse(second).ok && "command" !in env.parse(second).doc
    ensures var after := ReceiveMessage(ctl, env, first).ctl;
            && Consistent(after)
            && ReceiveMessage(after, env, second).out
                 == [MissingKeyError(GetCommand(env.parse(first).doc["command"]), "command")]
  {
    ReceiveMessageConsistent(ctl, env, first);
    var cs := env.parse(first).doc["command"];
  }

  /** A command without "job": its own INVALID_KEY error, named after the
      command just resolved, then NO_JOB_ID named "ERROR"; only the
      recorded command changes. */
  lemma MissingJob(ctl: Controller, env: Env, line: string)
    requires Wellformed(ctl)
    requires var p := env.parse(line); p.ok && "command" in p.doc && "job" !in p.doc
    ensures var tag := GetCommand(env.parse(line).doc["command"]);
            ReceiveMessage(ctl, env, line)
              == Done(ctl.(command := tag), [MissingKeyError(tag, "job"), NoJobError()], [])
  {
    var doc := env.parse(line).doc;
    ReceiveDelegates(ctl, env, line);
    MissingJobAction(ctl, env, doc, doc["command"]);
  }

  /** The words of those two errors: INVALID_KEY under the command's error
      name, then NO_JOB_ID under "ERROR". */
  lemma MissingJobTexts(tag: Command)
    ensures MissingKeyError(tag, "job")
              == Response(GetCommandString(tag, MsgError), [("error", Str("INVALID_KEY")), ("msg", Str("Key 'job' is missing"))])
    ensures NoJobError() == Response("ERROR", [("error", Str("NO_JOB_ID")), ("msg", Str("received command without job id"))])
  {
    assert "Key '" + "job" + "' is missing" == "Key 'job' is missing";
    ResponseNameShape(Error, MsgError);
  }

  /** A parsed message naming a command is handed to do_command_action. */
  lemma ReceiveDelegates(ctl: Controller, env: Env, line: string)
    requires Wellformed(ctl)
    requires var p := env.parse(line); p.ok && "command" in p.doc
    ensures ReceiveMessage(ctl, env, line) == DoCommandAction(ctl, env, env.parse(line).doc, env.parse(line).doc["command"])
  {
  }

  /** do_command_action on a document without "job". */
  lemma MissingJobAction(ctl: Controller, env: Env, doc: map<string, string>, cs: string)
    requires Wellformed(ctl) && "job" !in doc
    ensures DoCommandAction(ctl, env, doc, cs)
              == Done(ctl.(command := GetCommand(cs)), [MissingKeyError(GetCommand(cs), "job"), NoJobError()], [])
  {
  }

  /** A command with a job but without one of the keys it needs: exactly
      one INVALID_KEY error, for the first key missing in the order the
      command asks for them; only the recorded command changes. */
  lemma MissingKey(ctl: Controller, env: Env, line: string, i: nat)
    requires Wellformed(ctl)
    requires var p := env.parse(line); p.ok && "command" in p.doc && "job" in p.doc
    requires var keys := RequiredKeys(GetCommand(env.parse(line).doc["command"]));
             && i < |keys| && keys[i] !in env.parse(line).doc
             && forall j :: 0 <= j < i ==> keys[j] in env.parse(line).doc
    ensures var tag := GetCommand(env.parse(line).doc["command"]);
            ReceiveMessage(ctl, env, line)
              == Done(ctl.(command := tag), [MissingKeyError(tag, RequiredKeys(tag)[i])], [])
  {
    var doc := env.parse(line).doc;
    var tag := GetCommand(doc["command"]);
    var keys := RequiredKeys(tag);
    var r := HasKeys(doc, tag, keys);
    assert r.0.None?;
    var k :| 0 <= k < |keys| && keys[k] !in doc && (forall j :: 0 <= j < k ==> keys[j] in doc) && r.1 == [MissingKeyError(tag, keys[k])];
    assert k == i;
  }

  /** A command name the table does not know, and the names of READY and
      ERROR, which the switch has no case for, are all answered by one
      INVALID_COMMAND error named "ERR_ERROR" carrying the job; only the
      recorded command changes. */
  lemma UnknownCommand(ctl: Controller, env: Env, line: string)
    requires Wellformed(ctl)
    requires var p := env.parse(line); p.ok && "command" in p.doc && "job" in p.doc
    requires GetCommand(env.parse(line).doc["command"]) in {Ready, Error, Invalid}
    ensures var p := env.parse(line);
            var cs := p.doc["command"];
            ReceiveMessage(ctl, env, line)
              == Done(ctl.(command := GetCommand(cs)),
                      [Response("ERR_ERROR", [("job", Num(env.toInt(p.doc["job"]))), ("error", Str("INVALID_COMMAND")), ("msg", Str("Command '" + cs + "' is not valid"))])],
                      [])
  {
    var p := env.parse(line);
    ReceiveDelegates(ctl, env, line);
    UnknownCommandAction(ctl, env, p.doc, p.doc["command"], GetCommand(p.doc["command"]));
    ResponseNameShape(Invalid, MsgError);
  }

  /** do_command_action on a tag the switch has no case for. */
  lemma UnknownCommandAction(ctl: Controller, env: Env, doc: map<string, string>, cs: string, tag: Command)
    requires Wellformed(ctl) && "job" in doc && GetCommand(cs) == tag && tag in {Ready, Error, Invalid}
    ensures DoCommandAction(ctl, env, doc, cs)
              == Done(ctl.(command := tag), [BuildJobError(Invalid, "INVALID_COMMAND", "Command '" + cs + "' is not valid", env.toInt(doc["job"]))], [])
  {
    assert RequiredKeys(tag) == [];
    ActionRuns(ctl, env, doc, cs, tag, []);
    UnknownCommandRun(ctl.(command := tag), env, env.toInt(doc["job"]), cs);
  }

  /** do_command_action, once the job and every key the command needs are
      present, runs the command on the keys' values. */
  lemma ActionRuns(ctl: Controller, env: Env, doc: map<string, string>, cs: string, tag: Command, args: seq<string>)
    requires Wellformed(ctl) && "job" in doc && GetCommand(cs) == tag
    requires HasKeys(doc, tag, RequiredKeys(tag)).0 == Some(args)
    ensures |args| == |RequiredKeys(tag)|
    ensures DoCommandAction(ctl, env, doc, cs) == RunCommand(ctl.(command := tag), env, env.toInt(doc["job"]), args, cs)
  {
  }

  /** The switch's default case. */
  lemma UnknownCommandRun(c: Controller, env: Env, job: int, cs: string)
    requires Wellformed(c) && c.command in {Ready, Error, Invalid}
    ensures RunCommand(c, env, job, [], cs) == Done(c, [BuildJobError(Invalid, "INVALID_COMMAND", "Command '" + cs + "' is not valid", job)], [])
  {
  }

  /** A name is unknown exactly when no table row carries it; READY and
      ERROR are known names that nevertheless reach the default case. */
  lemma UnknownCommandNames(cs: string)
    ensures GetCommand(cs) == Invalid <==> forall i :: 0 <= i < |CommandMapping| ==> CommandMapping[i].1 != cs
    ensures GetCommand("READY") == Ready && GetCommand("ERROR") == Error
  {
    CommandNameRoundTrip(Ready);
    CommandNameRoundTrip(Error);
  }

  // ------------------------------------------------------------------
  // Per-command effects
  // ------------------------------------------------------------------

  /** Commands that only read or drive pins leave the pin modes and the
      logging table as they were. */
  lemma ReadOnlyCommands(ctl: Controller, env: Env, job: int, args: seq<string>, cs: string)
    requires Wellformed(ctl) && |args| == |RequiredKeys(ctl.command)|
    requires ctl.command in {GetInput, SetOutput, GetPinMode, TriggerPulse, SavePinModes, Ready, Error, Invalid}
    ensures RunCommand(ctl, env, job, args, cs).Done?
    ensures RunCommand(ctl, env, job, args, cs).ctl == ctl
    ensures |RunCommand(ctl, env, job, args, cs).out| == 1
  {
  }

  /** The reply of a command with no arguments: its "RX_" name and the
      job alone. */
  lemma BareReply(c: Command, job: int)
    ensures BuildCommand(c, MsgOutput, job, []) == Response("RX_" + CommandName(c), [("job", Num(job))])
  {
    ResponseNameShape(c, MsgOutput);
    PairsOfLiterals("", Num(0), "", Num(0));
    assert [("job", Num(job))] + [] == [("job", Num(job))];
  }

  /** LOAD_PIN_MODES always succeeds with the bare "RX_" reply carrying
      the job. With only real modes stored it changes no mode, and it
      re-applies every pin's mode through the driver, in table order. */
  lemma LoadCommand(ctl: Controller, env: Env, job: int, cs: string)
    requires Wellformed(ctl) && ctl.command == LoadPinModes
    ensures var o := RunCommand(ctl, env, job, [], cs);
            && o.Done?
            && o.out == [Response("RX_" + CommandName(LoadPinModes), [("job", Num(job))])]
            && o.ctl == ctl
            && |o.driver| == PIN_COUNT
            && forall p: PinId :: o.driver[p] == Gpio.PinModeCall(Gpio.Row(p).number, ctl.modes[p])
  {
    var (m, calls) := Gpio.LoadPinModes(ctl.modes);
    Gpio.LoadIdentityOnValid(ctl.modes);
    assert ctl.(modes := m) == ctl;
    forall p: PinId ensures calls[p] == Gpio.PinModeCall(Gpio.Row(p).number, ctl.modes[p]) {
      assert Gpio.Clamp(ctl.modes[p]) == ctl.modes[p];
    }
    BareReply(LoadPinModes, job);
  }

  /** SAVE_PIN_MODES always succeeds with the bare "RX_" reply carrying
      the job, changes nothing and makes no driver call. */
  lemma SaveCommand(ctl: Controller, env: Env, job: int, cs: string)
    requires Wellformed(ctl) && ctl.command == SavePinModes
    ensures var o := RunCommand(ctl, env, job, [], cs);
            && o.Done?
            && o.out == [Response("RX_" + CommandName(SavePinModes), [("job", Num(job))])]
            && o.ctl.requests == ctl.requests && o.ctl.command == ctl.command
            && (forall p: PinId :: o.ctl.modes[p] == ctl.modes[p])
            && o.driver == []
  {
    BareReply(SavePinModes, job);
    var o := RunCommand(ctl, env, job, [], cs);
    forall p: PinId ensures o.ctl.modes[p] == ctl.modes[p] {
      assert Gpio.GetPinMode(o.ctl.modes, p) == Gpio.GetPinMode(ctl.modes, p);
    }
  }

  /** RESET_PIN_MODES always succeeds with the bare "RX_" reply carrying
      the job; every pin's stored mode becomes INPUT, the driver is not
      told, and the logging table is kept. */
  lemma ResetCommand(ctl: Controller, env: Env, job: int, cs: string)
    requires Wellformed(ctl) && ctl.command == ResetPinModes
    ensures var o := RunCommand(ctl, env, job, [], cs);
            && o.Done?
            && o.out == [Response("RX_" + CommandName(ResetPinModes), [("job", Num(job))])]
            && o.ctl.requests == ctl.requests && o.ctl.command == ctl.command
            && (forall p: PinId :: o.ctl.modes[p] == Input)
            && o.driver == []
  {
    BareReply(ResetPinModes, job);
    var o := RunCommand(ctl, env, job, [], cs);
    forall p: PinId ensures o.ctl.modes[p] == Input {
      assert Gpio.GetPinMode(o.ctl.modes, p) == Input;
    }
  }

  /** log-signal on a known pin that is not in INPUT mode reports
      INVALID_INPUT_PIN and still starts logging it, when the table has room
      and the pin is not logged yet. */
  lemma LogSignalOnNonInputPin(ctl: Controller, job: int, pinStr: string, period: int)
    requires Consistent(ctl) && |ctl.requests| < Logger.MAX_REQUESTS
    requires var p := GetValidPinType(pinStr);
             && p != PIN_INVALID_PIN && Gpio.GetPinMode(ctl.modes, p) != Input
             && forall j :: 0 <= j < |ctl.requests| ==> ctl.requests[j].pin != p
    ensures var o := CommandLogSignal(ctl, job, pinStr, period);
            && o.Done?
            && o.out == [BuildJobError(Command.LogSignal, "INVALID_INPUT_PIN", "", job)]
            && o.ctl.requests == ctl.requests + [Logger.NewRequest(job, GetValidPinType(pinStr), period)]
  {
  }

  /** log-signal with an unknown pin name reports INVALID_PIN and then
      reads outside the pin table. */
  lemma LogSignalOnUnknownPin(ctl: Controller, job: int, pinStr: string, period: int)
    requires Wellformed(ctl) && GetValidPinType(pinStr) == PIN_INVALID_PIN
    ensures CommandLogSignal(ctl, job, pinStr, period) == Undefined([BuildJobError(Command.LogSignal, "INVALID_PIN", "", job)])
  {
  }

  // ------------------------------------------------------------------
  // A session
  // ------------------------------------------------------------------

  /** A message that parses, names a command and carries a job and every
      key the command needs runs that command with the job's integer value
      and the keys' values in order, with the command recorded. */
  lemma Dispatches(ctl: Controller, env: Env, line: string, tag: Command, args: seq<string>)
    requires Wellformed(ctl)
    requires var p := env.parse(line); p.ok && "command" in p.doc && "job" in p.doc && GetCommand(p.doc["command"]) == tag
    requires |args| == |RequiredKeys(tag)|
    requires forall i :: 0 <= i < |args| ==> RequiredKeys(tag)[i] in env.parse(line).doc && env.parse(line).doc[RequiredKeys(tag)[i]] == args[i]
    ensures var doc := env.parse(line).doc;
            ReceiveMessage(ctl, env, line) == RunCommand(ctl.(command := tag), env, env.toInt(doc["job"]), args, doc["command"])
  {
    var doc := env.parse(line).doc;
    var r := HasKeys(doc, tag, RequiredKeys(tag));
    assert r.0.value == args;
  }

  /** The parser accepts `line` and its document maps `key` to `value`. */
  predicate Carries(env: Env, line: string, key: string, value: string) {
    env.parse(line).ok && key in env.parse(line).doc && env.parse(line).doc[key] == value
  }

  // ------------------------------------------------------------------
  // The names a short session uses
  // ------------------------------------------------------------------

  /** The literal texts the session's replies are built from. */
  lemma Concatenations()
    ensures "RX_" + "SET_PIN_MODE" == "RX_SET_PIN_MODE"
    ensures "RX_" + "SET_OUTPUT" == "RX_SET_OUTPUT"
    ensures "ERR_" + "GET_INPUT" == "ERR_GET_INPUT"
    ensures "Pin '" + "Z99" + "' is not valid" == "Pin 'Z99' is not valid"
  {
  }

  /** The three mode names resolve to their modes. */
  lemma ModeNames()
    ensures GetValidPinMode("INPUT") == Input
    ensures GetValidPinMode("OUTPUT") == Output
    ensures GetValidPinMode("INPUT_PULLUP") == InputPullup
  {
  }

  /** The session's three command names resolve to their commands. */
  lemma ExampleCommands()
    ensures GetCommand("SET_PIN_MODE") == SetPinMode && GetCommand("SET_OUTPUT") == SetOutput && GetCommand("GET_INPUT") == GetInput
  {
    CommandNameRoundTrip(SetPinMode);
    CommandNameRoundTrip(SetOutput);
    CommandNameRoundTrip(GetInput);
  }

  /** The response names of the session's three commands. */
  lemma ExampleReplies()
    ensures GetCommandString(SetPinMode, MsgOutput) == "RX_SET_PIN_MODE"
    ensures GetCommandString(SetOutput, MsgOutput) == "RX_SET_OUTPUT"
    ensures GetCommandString(GetInput, MsgError) == "ERR_GET_INPUT"
  {
    ResponseNameShape(SetPinMode, MsgOutput);
    ResponseNameShape(SetOutput, MsgOutput);
    ResponseNameShape(GetInput, MsgError);
    Concatenations();
  }

  /** The session's pin and mode. */
  lemma ExamplePin()
    ensures GetValidPinType("D30") == 0
    ensures GetValidPinMode("OUTPUT") == Output
  {
    PinNameRoundTrip(0);
    ModeNames();
  }

  /** From power-on: D30 is switched to OUTPUT, then driven HIGH; then an
      unknown pin is read. Each message gets the reply the protocol
      documents, and the driver sees the mode change and the write. */
  lemma Session(env: Env, first: string, second: string, third: string)
    requires Carries(env, first, "command", "SET_PIN_MODE") && Carries(env, first, "job", "1") && Carries(env, first, "pin", "D30") && Carries(env, first, "mode", "OUTPUT")
    requires Carries(env, second, "command", "SET_OUTPUT") && Carries(env, second, "job", "2") && Carries(env, second, "pin", "D30") && Carries(env, second, "level", "HIGH")
    requires Carries(env, third, "command", "GET_INPUT") && Carries(env, third, "job", "3") && Carries(env, third, "pin", "Z99")
    requires env.toInt("1") == 1 && env.toInt("2") == 2 && env.toInt("3") == 3
    ensures var o1 := ReceiveMessage(InitialController(), env, first);
            && o1.Done?
            && o1.out == [Response("RX_SET_PIN_MODE", [("job", Num(1)), ("pin", Str("D30")), ("mode", Str("OUTPUT"))])]
            && o1.driver == [Gpio.PinModeCall(Gpio.Header(30), Output)]
            && Wellformed(o1.ctl)
            && var o2 := ReceiveMessage(o1.ctl, env, second);
               && o2.Done?
               && o2.out == [Response("RX_SET_OUTPUT", [("job", Num(2)), ("pin", Str("D30")), ("level", Str("HIGH"))])]
               && o2.driver == [Gpio.DigitalWrite(Gpio.Header(30), true)]
               && Wellformed(o2.ctl)
               && var o3 := ReceiveMessage(o2.ctl, env, third);
                  && o3.Done?
                  && o3.out == [Response("ERR_GET_INPUT", [("job", Num(3)), ("error", Str("INVALID_PIN")), ("msg", Str("Pin 'Z99' is not valid"))])]
                  && o3.driver == []
  {
    Gpio.InitialModesCompatible();
    SessionFirst(env, first);
    var o1 := ReceiveMessage(InitialController(), env, first);
    SessionSecond(env, o1.ctl, second);
    var o2 := ReceiveMessage(o1.ctl, env, second);
    SessionThird(env, o2.ctl, third);
  }

  lemma SessionFirst(env: Env, first: string)
    requires Carries(env, first, "command", "SET_PIN_MODE") && Carries(env, first, "job", "1") && Carries(env, first, "pin", "D30") && Carries(env, first, "mode", "OUTPUT")
    requires env.toInt("1") == 1
    ensures var o := ReceiveMessage(InitialController(), env, first);
            && o.Done?
            && o.out == [Response("RX_SET_PIN_MODE", [("job", Num(1)), ("pin", Str("D30")), ("mode", Str("OUTPUT"))])]
            && o.driver == [Gpio.PinModeCall(Gpio.Header(30), Output)]
            && o.ctl.modes[0] == Output && Wellformed(o.ctl)
  {
    var init := InitialController();
    Gpio.InitialModesCompatible();
    SessionFirstDispatch(env, init, first);
    SessionFirstRun(env, init.(command := SetPinMode));
  }

  lemma SessionFirstDispatch(env: Env, ctl: Controller, first: string)
    requires Wellformed(ctl)
    requires Carries(env, first, "command", "SET_PIN_MODE") && Carries(env, first, "job", "1") && Carries(env, first, "pin", "D30") && Carries(env, first, "mode", "OUTPUT")
    requires env.toInt("1") == 1
    ensures ReceiveMessage(ctl, env, first) == RunCommand(ctl.(command := SetPinMode), env, 1, ["D30", "OUTPUT"], "SET_PIN_MODE")
  {
    assert GetCommand("SET_PIN_MODE") == SetPinMode by { CommandNameRoundTrip(SetPinMode); }
    var keys, args := RequiredKeys(SetPinMode), ["D30", "OUTPUT"];
    assert keys == ["pin", "mode"];
    forall i | 0 <= i < |args| ensures keys[i] in env.parse(first).doc && env.parse(first).doc[keys[i]] == args[i] {
      assert i == 0 || i == 1;
    }
    Dispatches(ctl, env, first, SetPinMode, args);
  }

  lemma SessionFirstRun(env: Env, c: Controller)
    requires Wellformed(c) && c.command == SetPinMode
    ensures var o := RunCommand(c, env, 1, ["D30", "OUTPUT"], "SET_PIN_MODE");
            && o.Done?
            && o.out == [Response("RX_SET_PIN_MODE", [("job", Num(1)), ("pin", Str("D30")), ("mode", Str("OUTPUT"))])]
            && o.driver == [Gpio.PinModeCall(Gpio.Header(30), Output)]
            && o.ctl.modes[0] == Output && Wellformed(o.ctl)
  {
    ExampleReplies();
    ExamplePin();
    assert Gpio.Compatible(0, Output);
    var r := CommandSetPinMode(c.modes, 1, "D30", "OUTPUT");
    assert RunCommand(c, env, 1, ["D30", "OUTPUT"], "SET_PIN_MODE") == Done(c.(modes := r.0), r.1, r.2);
  }

  lemma SessionSecond(env: Env, ctl: Controller, second: string)
    requires Wellformed(ctl) && ctl.modes[0] == Output
    requires Carries(env, second, "command", "SET_OUTPUT") && Carries(env, second, "job", "2") && Carries(env, second, "pin", "D30") && Carries(env, second, "level", "HIGH")
    requires env.toInt("2") == 2
    ensures var o := ReceiveMessage(ctl, env, second);
            && o.Done?
            && o.out == [Response("RX_SET_OUTPUT", [("job", Num(2)), ("pin", Str("D30")), ("level", Str("HIGH"))])]
            && o.driver == [Gpio.DigitalWrite(Gpio.Header(30), true)]
            && Wellformed(o.ctl)
  {
    SessionSecondDispatch(env, ctl, second);
    SessionSecondRun(env, ctl.(command := SetOutput));
  }

  lemma SessionSecondDispatch(env: Env, ctl: Controller, second: string)
    requires Wellformed(ctl)
    requires Carries(env, second, "command", "SET_OUTPUT") && Carries(env, second, "job", "2") && Carries(env, second, "pin", "D30") && Carries(env, second, "level", "HIGH")
    requires env.toInt("2") == 2
    ensures ReceiveMessage(ctl, env, second) == RunCommand(ctl.(command := SetOutput), env, 2, ["D30", "HIGH"], "SET_OUTPUT")
  {
    assert GetCommand("SET_OUTPUT") == SetOutput by { ExampleCommands(); }
    assert RequiredKeys(SetOutput) == ["pin", "level"];
    Dispatches(ctl, env, second, SetOutput, ["D30", "HIGH"]);
  }

  lemma SessionSecondRun(env: Env, c: Controller)
    requires Wellformed(c) && c.command == SetOutput && c.modes[0] == Output
    ensures var o := RunCommand(c, env, 2, ["D30", "HIGH"], "SET_OUTPUT");
            && o.Done?
            && o.out == [Response("RX_SET_OUTPUT", [("job", Num(2)), ("pin", Str("D30")), ("level", Str("HIGH"))])]
            && o.driver == [Gpio.DigitalWrite(Gpio.Header(30), true)]
            && o.ctl == c
  {
    ExampleReplies();
    ExamplePin();
    var r := CommandSetOutput(c.modes, env.toInt, 2, "D30", "HIGH");
    assert RunCommand(c, env, 2, ["D30", "HIGH"], "SET_OUTPUT") == Done(c, [r.0], r.1);
    assert LevelAccepted(env.toInt, 0, "HIGH");
    assert r == WriteLevel(env.toInt, 2, 0, "D30", "HIGH");
  }

  lemma SessionThird(env: Env, ctl: Controller, third: string)
    requires Wellformed(ctl)
    requires Carries(env, third, "command", "GET_INPUT") && Carries(env, third, "job", "3") && Carries(env, third, "pin", "Z99")
    requires env.toInt("3") == 3
    ensures var o := ReceiveMessage(ctl, env, third);
            && o.Done?
            && o.out == [Response("ERR_GET_INPUT", [("job", Num(3)), ("error", Str("INVALID_PIN")), ("msg", Str("Pin 'Z99' is not valid"))])]
            && o.driver == []
  {
    var c := ctl.(command := GetInput);
    assert ReceiveMessage(ctl, env, third) == RunCommand(c, env, 3, ["Z99"], "GET_INPUT") by {
      ExampleCommands();
      Dispatches(ctl, env, third, GetInput, ["Z99"]);
    }
    assert RunCommand(c, env, 3, ["Z99"], "GET_INPUT") == Done(c, [CommandGetInput(env.readings, 3, "Z99")], []);
    SessionThirdReply(env.readings);
  }

  lemma SessionThirdReply(rd: Gpio.Readings)
    ensures CommandGetInput(rd, 3, "Z99")
              == Response("ERR_GET_INPUT", [("job", Num(3)), ("error", Str("INVALID_PIN")), ("msg", Str("Pin 'Z99' is not valid"))])
  {
    ExampleReplies();
    UnknownPinName("Z99");
    Concatenations();
  }
}
