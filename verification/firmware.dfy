/** The sketch's entry points: setup() once at power-on, then forever a pass
    of loop() followed by the serial receive event. setup() prepares the
    serial link, re-applies the pin modes, binds the message callback and
    announces READY; each pass of loop() drains the mailbox into the
    message dispatcher and then services the logging table. */
module Firmware {
  import opened Protocol
  import Gpio
  import Logger
  import Serial
  import opened Messages
  import MessageProperties

  /** Everything the firmware keeps between passes. */
  datatype Board = Board(ctl: Controller, serial: Serial.SerialState)

  /** The effect of running the firmware for a while: either it is still
      running, with the board it reached, or a message made it read outside
      a table, after which nothing is modelled. Both keep what was sent and
      the driver calls made until then. */
  datatype Run =
    | Running(board: Board, out: seq<Response>, driver: seq<Gpio.DriverCall>)
    | Crashed(out: seq<Response>, driver: seq<Gpio.DriverCall>)

  /** What happens between two passes of loop(): the characters that
      arrived, the clock when the next pass starts, and the world that pass
      sees. */
  datatype Cycle = Cycle(chars: string, now: nat, env: Env)

  /** The board before setup: zeroed statics and the table as compiled. */
  function PowerOn(): Board {
    Board(InitialController(), Serial.Initial)
  }

  /** setup(): serial_init, load_pin_modes, init_message_handler (which binds
      receive_message as the mailbox's callback), command_ready. */
  function Boot(): (r: Run)
    ensures r.Running?
    ensures r.board.ctl == InitialController()
    ensures r.board.serial == Serial.SerialState("", "", false, true)
    ensures r.out == [CommandReady()]
    ensures |r.driver| == PIN_COUNT
    ensures forall p: PinId :: r.driver[p] == Gpio.PinModeCall(Gpio.Row(p).number, Gpio.Row(p).initialMode)
  {
    var b := PowerOn();
    var s := Serial.SerialInit(b.serial);
    var (modes, calls) := Gpio.LoadPinModes(b.ctl.modes);
    Gpio.LoadIdentityOnValid(b.ctl.modes);
    var s' := Serial.SetCallback(s);
    Running(Board(b.ctl.(modes := modes), s'), [CommandReady()], calls)
  }

  /** The second half of a pass, handle_logging_requests, on the state the
      message left behind. */
  function Service(ctl: Controller, serial: Serial.SerialState, env: Env, now: nat): (r: Run)
    ensures r.Running? && r.board.serial == serial && r.driver == []
    ensures r.board.ctl.modes == ctl.modes && r.board.ctl.command == ctl.command
    ensures r.board.ctl.requests == Logger.Tick(ctl.requests, now, env.readings).requests
    ensures r.out == Logger.Tick(ctl.requests, now, env.readings).out
  {
    var t := Logger.Tick(ctl.requests, now, env.readings);
    Running(Board(ctl.(requests := t.requests), serial), t.out, [])
  }

  /** A pass of loop() that found a line in the mailbox: receive_message on
      it, then the logging pass. */
  function Deliver(ctl: Controller, serial: Serial.SerialState, env: Env, line: string, now: nat): (r: Run)
    requires Wellformed(ctl)
    ensures ReceiveMessage(ctl, env, line).Undefined? <==> r.Crashed?
    ensures r.Crashed? ==> r.out == ReceiveMessage(ctl, env, line).out && r.driver == []
    ensures r.Running? ==> var o := ReceiveMessage(ctl, env, line);
                           var s := Service(o.ctl, serial, env, now);
                           && r.board == s.board
                           && r.out == o.out + s.out
                           && r.driver == o.driver
  {
    match ReceiveMessage(ctl, env, line)
    case Undefined(out) => Crashed(out, [])
    case Done(c, out, driver) =>
      var s := Service(c, serial, env, now);
      Running(s.board, out + s.out, driver)
  }

  /** loop(): serial_process, then handle_logging_requests. */
  function Loop(b: Board, env: Env, now: nat): (r: Run)
    requires Wellformed(b.ctl)
    ensures r.Running? ==> !r.board.serial.complete && r.board.serial.buffer == b.serial.buffer && r.board.serial.bound == b.serial.bound
    ensures !(b.serial.complete && b.serial.bound) ==> r == Service(b.ctl, b.serial.(complete := false), env, now)
    ensures b.serial.complete && b.serial.bound ==> r == Deliver(b.ctl, b.serial.(complete := false), env, b.serial.input, now)
  {
    var (s, line) := Serial.SerialProcess(b.serial);
    match line
    case None => Service(b.ctl, s, env, now)
    case Some(l) => Deliver(b.ctl, s, env, l, now)
  }

  /** serialEvent() after a pass: the characters that arrived meanwhile. */
  function ReceiveChars(b: Board, chars: string): (r: Board)
    ensures r.ctl == b.ctl
    ensures r.serial == Serial.SerialEvent(b.serial, chars)
  {
    b.(serial := Serial.SerialEvent(b.serial, chars))
  }

  /** Passes of loop() from a consistent board, each followed by the
      characters that arrive before the next. The output and the driver
      trace accumulate in order. */
  function RunFrom(b: Board, cycles: seq<Cycle>): (r: Run)
    requires Consistent(b.ctl)
    ensures r.Running? ==> Consistent(r.board.ctl)
    ensures r.Running? ==> r.board.serial.bound == b.serial.bound
    decreases |cycles|
  {
    if |cycles| == 0 then Running(b, [], [])
    else
      var c := cycles[0];
      LoopConsistent(b, c.env, c.now);
      match Loop(b, c.env, c.now)
      case Crashed(out, driver) => Crashed(out, driver)
      case Running(b1, out, driver) =>
        match RunFrom(ReceiveChars(b1, c.chars), cycles[1..])
        case Crashed(out', driver') => Crashed(out + out', driver + driver')
        case Running(b2, out', driver') => Running(b2, out + out', driver + driver')
  }

  /** The whole life of the firmware: setup(), then the given cycles. */
  function Execute(cycles: seq<Cycle>): (r: Run)
    ensures |r.out| >= 1 && r.out[0] == CommandReady()
    ensures r.Running? ==> Consistent(r.board.ctl) && r.board.serial.bound
  {
    var boot := Boot();
    match RunFrom(boot.board, cycles)
    case Crashed(out, driver) => Crashed(boot.out + out, boot.driver + driver)
    case Running(b, out, driver) => Running(b, boot.out + out, boot.driver + driver)
  }

  // ------------------------------------------------------------------
  // Properties
  // ------------------------------------------------------------------

  /** A pass of loop() keeps the state consistent: the message keeps it,
      and the logging pass keeps the table valid. */
  lemma LoopConsistent(b: Board, env: Env, now: nat)
    requires Consistent(b.ctl)
    ensures Loop(b, env, now).Running? ==> Consistent(Loop(b, env, now).board.ctl)
  {
    if b.serial.complete && b.serial.bound {
      MessageProperties.ReceiveMessageConsistent(b.ctl, env, b.serial.input);
      var o := ReceiveMessage(b.ctl, env, b.serial.input);
      if o.Done? {
        Logger.TickPreservesValid(o.ctl.requests, now, env.readings);
      }
    } else {
      Logger.TickPreservesValid(b.ctl.requests, now, env.readings);
    }
  }

  /** Right after setup nothing is pending: the first pass only services
      the (empty) logging table and sends nothing. */
  lemma FirstPassQuiet(env: Env, now: nat)
    ensures Loop(Boot().board, env, now) == Running(Boot().board, [], [])
  {
    var b := Boot().board;
    assert Logger.Tick([], now, env.readings) == Logger.TickResult([], []);
  }

  /** A pass with no complete line never touches the pin modes, the
      driver or the recorded command; it only services the logging
      table. */
  lemma IdlePass(b: Board, env: Env, now: nat)
    requires Wellformed(b.ctl) && !b.serial.complete
    ensures var r := Loop(b, env, now);
            && r.Running?
            && r.board.ctl.modes == b.ctl.modes
            && r.board.ctl.command == b.ctl.command
            && r.board.serial == b.serial
            && r.driver == []
            && r.out == Logger.Tick(b.ctl.requests, now, env.readings).out
  {
  }

  /** Receiving characters and then running a pass hands the dispatcher the
      line completed by the last newline among them (the text after the
      newline before it); earlier lines of the same burst are lost. */
  lemma LastLineDelivered(b: Board, chars: string, env: Env, now: nat)
    requires Wellformed(b.ctl) && b.serial.bound && '\n' !in b.serial.buffer
    requires '\n' in chars
    ensures var full := b.serial.buffer + chars;
            var k := Serial.LastNewline(full);
            && 0 <= k
            && var line := full[Serial.LastNewline(full[..k]) + 1..k];
               Loop(ReceiveChars(b, chars), env, now) == Deliver(b.ctl, Serial.SerialState(full[k + 1..], line, false, true), env, line, now)
  {
    Serial.BurstMailbox(b.serial, chars);
    var s := ReceiveChars(b, chars).serial;
    assert s.(complete := false) == Serial.SerialState(s.buffer, s.input, false, true);
  }

  /** A line is handled once: after the pass that delivered it, a pass
      with no new characters only services the logging table. */
  lemma LineHandledOnce(b: Board, env: Env, now: nat, later: nat)
    requires Consistent(b.ctl)
    requires Loop(b, env, now).Running?
    ensures var b1 := Loop(b, env, now).board;
            && Consistent(b1.ctl)
            && Loop(b1, env, later) == Service(b1.ctl, b1.serial, env, later)
  {
    LoopConsistent(b, env, now);
  }
}
