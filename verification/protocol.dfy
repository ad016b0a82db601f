/** The wire protocol of the controller: the closed enumerations of
    commands, message kinds, pins and pin modes, the name tables that map
    between them and their strings, and the builders that turn a command
    plus key/value arguments into one outbound response.

    A JSON document is modelled as data: an inbound message is the map of
    string keys to string values the external parser produced, and an
    outbound message is a response name followed by an ordered list of
    key/value pairs. */
module Protocol {

  datatype Option<T> = None | Some(value: T)

  /** command_type_t, numbered densely 0..12 in declaration order. */
  datatype Command =
    | GetInput | SetOutput | LogSignal | EndLogSignal | GetPinMode | SetPinMode
    | LoadPinModes | SavePinModes | ResetPinModes | TriggerPulse | Ready | Error | Invalid
  {
    /** The enumerator's numeric value. */
    function Ordinal(): (n: nat)
      ensures n < 13
    {
      match this
      case GetInput => 0
      case SetOutput => 1
      case LogSignal => 2
      case EndLogSignal => 3
      case GetPinMode => 4
      case SetPinMode => 5
      case LoadPinModes => 6
      case SavePinModes => 7
      case ResetPinModes => 8
      case TriggerPulse => 9
      case Ready => 10
      case Error => 11
      case Invalid => 12
    }
  }

  /** msg_type_t: the direction or kind of an outbound message. */
  datatype MsgType = MsgInput | MsgOutput | MsgError

  /** pin_t: the 26 real pins are 0..25, PIN_INVALID_PIN is the sentinel 26. */
  const PIN_COUNT: nat := 26
  const PIN_INVALID_PIN: int := 26
  type PinId = p: int | 0 <= p < 26
  type PinRef = p: int | 0 <= p <= 26

  /** pin_type_t */
  datatype SignalKind = Digital | Analog

  /** pin_mode_type_t: the capability class of a pin. */
  datatype Capability = InputOnly | OutputOnly | InputAndOutput

  /** pin_mode_t, with PIN_MODE_NOT_VALID as the fourth value. */
  datatype PinMode = Input | Output | InputPullup | NotValid
  {
    function Ordinal(): (n: nat)
      ensures n < 4
    {
      match this
      case Input => 0
      case Output => 1
      case InputPullup => 2
      case NotValid => 3
    }
  }

  /** One value written into an outbound JSON document. */
  datatype Value = Str(s: string) | Num(n: int) | Flag(b: bool)

  type Field = (string, Value)

  /** An outbound document: the "command" entry, always written first, and
      then the remaining key/value pairs in the order they were written. */
  datatype Response = Response(command: string, data: seq<Field>)

  /** What the external JSON parser made of one inbound line: whether it
      parsed, the string value of each top-level key, and the parser's error
      text when it failed. */
  datatype Parsed = Parsed(ok: bool, doc: map<string, string>, error: string)

  // ------------------------------------------------------------------
  // Name tables
  // ------------------------------------------------------------------

  /** command_mapping; both COMMAND_ERROR and COMMAND_INVALID are "ERROR". */
  const CommandMapping: seq<(Command, string)> := [
    (GetInput, "GET_INPUT"),
    (SetOutput, "SET_OUTPUT"),
    (LogSignal, "LOG_SIGNAL"),
    (EndLogSignal, "END_LOG_SIGNAL"),
    (GetPinMode, "GET_PIN_MODE"),
    (SetPinMode, "SET_PIN_MODE"),
    (LoadPinModes, "LOAD_PIN_MODES"),
    (SavePinModes, "SAVE_PIN_MODES"),
    (ResetPinModes, "RESET_PIN_MODES"),
    (TriggerPulse, "TRIGGER_PULSE"),
    (Ready, "READY"),
    (Error, "ERROR"),
    (Invalid, "ERROR")
  ]

  /** input_output_mapping */
  const InputOutputMapping: seq<(PinId, string)> := [
    (0, "D30"), (1, "D31"), (2, "D32"), (3, "D33"),
    (4, "D34"), (5, "D35"), (6, "D36"), (7, "D37"),
    (8, "D38"), (9, "D39"), (10, "D40"), (11, "D41"),
    (12, "D42"), (13, "D43"), (14, "D44"), (15, "D45"),
    (16, "D46"), (17, "D47"), (18, "D48"), (19, "D49"),
    (20, "A0"), (21, "A1"), (22, "A2"), (23, "A3"),
    (24, "DAC0"), (25, "DAC1")
  ]

  /** pin_modes_mapping: PIN_MODE_NOT_VALID has no entry. */
  const PinModesMapping: seq<(PinMode, string)> := [
    (Input, "INPUT"),
    (Output, "OUTPUT"),
    (InputPullup, "INPUT_PULLUP")
  ]

  /** The index of the first table entry whose name equals `s`, or the
      table's length when there is none: the loop with early return that
      get_command, get_valid_pin_mode and get_valid_pin_type each run. */
  function FirstMatch<K>(table: seq<(K, string)>, s: string): (i: nat)
    ensures i <= |table|
    ensures i < |table| ==> table[i].1 == s
    ensures forall j :: 0 <= j < i ==> table[j].1 != s
  {
    if |table| == 0 then 0
    else if table[0].1 == s then 0
    else 1 + FirstMatch(table[1..], s)
  }

  /** The name stored in command_mapping at the command's own index. */
  function CommandName(c: Command): string {
    CommandMapping[c.Ordinal()].1
  }

  /** The name stored in input_output_mapping at the pin's own index. */
  function PinName(p: PinId): string {
    InputOutputMapping[p].1
  }

  // ------------------------------------------------------------------
  // Interpreter: strings to enumerators
  // ------------------------------------------------------------------

  /** get_command: the command of the first entry with that name, else
      COMMAND_INVALID. */
  function GetCommand(s: string): (c: Command)
    ensures c == Invalid <==> forall i :: 0 <= i < |CommandMapping| ==> CommandMapping[i].1 != s
    ensures c != Invalid ==> CommandName(c) == s
  {
    CommandTableOrdered();
    var i := FirstMatch(CommandMapping, s);
    if i < |CommandMapping| then CommandMapping[i].0 else Invalid
  }

  /** get_valid_pin_type: the pin of the entry with that name, else the
      invalid-pin sentinel. */
  function GetValidPinType(s: string): (p: PinRef)
    ensures p == PIN_INVALID_PIN <==> forall i :: 0 <= i < |InputOutputMapping| ==> InputOutputMapping[i].1 != s
    ensures p != PIN_INVALID_PIN ==> PinName(p) == s
  {
    PinTableIndexed();
    var i := FirstMatch(InputOutputMapping, s);
    if i < |InputOutputMapping| then InputOutputMapping[i].0 else PIN_INVALID_PIN
  }

  /** get_valid_pin_mode: the mode of the entry with that name, else
      PIN_MODE_NOT_VALID. */
  function GetValidPinMode(s: string): (m: PinMode)
    ensures m == NotValid <==> s != "INPUT" && s != "OUTPUT" && s != "INPUT_PULLUP"
  {
    var i := FirstMatch(PinModesMapping, s);
    if i < |PinModesMapping| then PinModesMapping[i].0 else NotValid
  }

  // ------------------------------------------------------------------
  // Builder: enumerators to strings
  // ------------------------------------------------------------------

  /** get_command_string: the response name of a command. Inbound and
      outbound messages are "RX_" + name; errors are "ERR_" + name except
      COMMAND_ERROR, which is the bare name. (The switch's default branch
      cannot be reached: msg_type_t has exactly these three values.) */
  function GetCommandString(c: Command, t: MsgType): (s: string)
    ensures |s| >= 3 && (s[0] == 'R' <==> t != MsgError)
  {
    var name := CommandMapping[c.Ordinal()].1;
    match t
    case MsgInput => "RX_" + name
    case MsgOutput => "RX_" + name
    case MsgError => if c != Error then "ERR_" + name else name
  }

  /** get_pin_mode_string: indexes pin_modes_mapping by the mode, so the
      sentinel PIN_MODE_NOT_VALID (index 3) would read past the table. */
  function GetPinModeString(m: PinMode): (s: string)
    requires m != NotValid
    ensures s in {"INPUT", "OUTPUT", "INPUT_PULLUP"}
  {
    PinModesMapping[m.Ordinal()].1
  }

  // ------------------------------------------------------------------
  // Table consistency
  // ------------------------------------------------------------------

  /** Row i of command_mapping holds the command numbered i (the ordering
      the table's FIXME asks for), so the indexed lookup in
      get_command_string finds each command's own entry. */
  lemma CommandTableOrdered()
    ensures |CommandMapping| == 13
    ensures forall i :: 0 <= i < |CommandMapping| ==> CommandMapping[i].0.Ordinal() == i
    ensures forall c: Command :: CommandMapping[c.Ordinal()].0 == c
  {
    forall c: Command ensures CommandMapping[c.Ordinal()].0 == c {
      match c
      case GetInput =>
      case SetOutput =>
      case LogSignal =>
      case EndLogSignal =>
      case GetPinMode =>
      case SetPinMode =>
      case LoadPinModes =>
      case SavePinModes =>
      case ResetPinModes =>
      case TriggerPulse =>
      case Ready =>
      case Error =>
      case Invalid =>
    }
  }

  /** Row i of input_output_mapping holds pin i. */
  lemma PinTableIndexed()
    ensures |InputOutputMapping| == PIN_COUNT
    ensures forall i :: 0 <= i < |InputOutputMapping| ==> InputOutputMapping[i].0 == i
  {
  }

  /** An independent description of the pin names: D30..D49 for pins 0..19,
      A0..A3 for 20..23, DAC0 and DAC1 for 24 and 25. */
  function Digit(d: int): char
    requires 0 <= d < 10
  {
    (('0' as int) + d) as char
  }

  function PinLabel(p: PinId): string {
    if p < 20 then ['D', Digit((30 + p) / 10), Digit((30 + p) % 10)]
    else if p < 24 then ['A', Digit(p - 20)]
    else ['D', 'A', 'C', Digit(p - 24)]
  }

  /** The table agrees with that description, pin by pin. */
  lemma PinNameIsLabel(p: PinId)
    ensures PinName(p) == PinLabel(p)
  {
  }

  /** No two pins share a name. */
  lemma PinNamesDistinct(p: PinId, q: PinId)
    requires PinName(p) == PinName(q)
    ensures p == q
  {
    PinNameIsLabel(p);
    PinNameIsLabel(q);
    if p < 20 && q < 20 {
      assert PinLabel(p)[1] == PinLabel(q)[1];
      assert PinLabel(p)[2] == PinLabel(q)[2];
    } else if 20 <= p < 24 && 20 <= q < 24 {
      assert PinLabel(p)[1] == PinLabel(q)[1];
    } else if 24 <= p && 24 <= q {
      assert PinLabel(p)[3] == PinLabel(q)[3];
    }
  }

  /** Pin to name to pin is the identity on the 26 real pins. */
  lemma PinNameRoundTrip(p: PinId)
    ensures GetValidPinType(PinName(p)) == p
  {
    var q := GetValidPinType(PinName(p));
    if q == PIN_INVALID_PIN {
      assert false;
    }
    PinNamesDistinct(p, q);
  }

  /** Every pin name starts with 'D' or 'A', so no other text names a pin. */
  lemma UnknownPinName(s: string)
    requires |s| == 0 || (s[0] != 'D' && s[0] != 'A')
    ensures GetValidPinType(s) == PIN_INVALID_PIN
  {
    var p := GetValidPinType(s);
    if p != PIN_INVALID_PIN {
      PinNameIsLabel(p);
    }
  }

  /** Every name that resolves is the label of the pin it resolves to:
      the names the lookup accepts are exactly D30..D49, A0..A3, DAC0 and
      DAC1. */
  lemma PinLookupRoundTrip(s: string)
    requires GetValidPinType(s) != PIN_INVALID_PIN
    ensures PinLabel(GetValidPinType(s)) == s
  {
    PinNameIsLabel(GetValidPinType(s));
  }

  /** get_command inverts the name table for every command except
      COMMAND_INVALID, whose name "ERROR" resolves to COMMAND_ERROR. */
  lemma CommandNameRoundTrip(c: Command)
    ensures c != Invalid ==> GetCommand(CommandName(c)) == c
    ensures c == Invalid ==> GetCommand(CommandName(c)) == Error
  {
    CommandTableOrdered();
    CommandNamesDistinct();
    var d := GetCommand(CommandName(c));
    if d == Invalid {
      assert false;
    }
    assert CommandMapping[d.Ordinal()].1 == CommandMapping[c.Ordinal()].1;
    if c == Invalid {
      assert d.Ordinal() == 11;
    }
  }

  /** The first twelve names of command_mapping are pairwise distinct; only
      the last, COMMAND_INVALID's, repeats "ERROR". */
  lemma CommandNamesDistinct()
    ensures forall i, j :: 0 <= i < j < |CommandMapping| - 1 ==> CommandMapping[i].1 != CommandMapping[j].1
    ensures CommandMapping[12].1 == CommandMapping[11].1
  {
  }

  /** get_valid_pin_mode and get_pin_mode_string are mutual inverses on the
      three real modes. */
  lemma PinModeRoundTrip(m: PinMode, s: string)
    ensures m != NotValid ==> GetValidPinMode(GetPinModeString(m)) == m
    ensures GetValidPinMode(s) != NotValid ==> GetPinModeString(GetValidPinMode(s)) == s
  {
  }

  /** The shape of every response name: which prefix it carries and which
      command its remainder names. */
  lemma ResponseNameShape(c: Command, t: MsgType)
    ensures t != MsgError ==> GetCommandString(c, t) == "RX_" + CommandName(c)
    ensures t == MsgError && c != Error ==> GetCommandString(c, t) == "ERR_" + CommandName(c)
    ensures GetCommandString(Error, MsgError) == "ERROR"
    ensures GetCommandString(Invalid, MsgError) == "ERR_ERROR"
  {
  }

  /** A success name and an error name never coincide: one starts with
      'R', the other with 'E'. */
  lemma ReplyNotError(c: Command, d: Command)
    ensures GetCommandString(c, MsgOutput) != GetCommandString(d, MsgError)
  {
    var e := GetCommandString(d, MsgError);
    assert e[0] == 'E' by {
      if d != Error {
        assert e == "ERR_" + CommandMapping[d.Ordinal()].1;
      } else {
        assert e == "ERROR";
      }
    }
    assert GetCommandString(c, MsgOutput)[0] == 'R';
  }

  // ------------------------------------------------------------------
  // Composer: building documents
  // ------------------------------------------------------------------

  /** A variadic argument list as the builder sees it: an even number of
      values, each key position holding a string. */
  predicate WellPaired(args: seq<Value>) {
    |args| % 2 == 0 && forall i :: 0 <= i < |args| && i % 2 == 0 ==> args[i].Str?
  }

  /** The key/value pairs an argument list denotes, as an independent
      reference for the builder: pair k is argument 2k (its string) and
      argument 2k+1. */
  function Pairs(args: seq<Value>): (r: seq<Field>)
    requires WellPaired(args)
    ensures |r| == |args| / 2
    ensures forall k :: 0 <= k < |r| ==> r[k] == (args[2 * k].s, args[2 * k + 1])
  {
    seq(|args| / 2, k requires 0 <= k < |args| / 2 => (args[2 * k].s, args[2 * k + 1]))
  }

  /** Dropping the first key/value pair of an argument list drops the first
      pair it denotes. */
  lemma PairsCons(args: seq<Value>)
    requires WellPaired(args) && |args| >= 2
    ensures WellPaired(args[2..])
    ensures Pairs(args) == [(args[0].s, args[1])] + Pairs(args[2..])
  {
    forall i | 0 <= i < |args[2..]| && i % 2 == 0 ensures args[2..][i].Str? {
      assert args[2..][i] == args[i + 2];
    }
    var a, b := Pairs(args), [(args[0].s, args[1])] + Pairs(args[2..]);
    assert |a| == |b|;
    forall k | 0 <= k < |a| ensures a[k] == b[k] {
      if k > 0 {
        assert args[2..][2 * (k - 1)] == args[2 * k];
        assert args[2..][2 * (k - 1) + 1] == args[2 * k + 1];
      }
    }
  }

  /** The argument lists the handlers pass: none, one pair, two pairs. */
  lemma PairsOfLiterals(a: string, x: Value, b: string, y: Value)
    ensures WellPaired([]) && Pairs([]) == []
    ensures WellPaired([Str(a), x]) && Pairs([Str(a), x]) == [(a, x)]
    ensures WellPaired([Str(a), x, Str(b), y]) && Pairs([Str(a), x, Str(b), y]) == [(a, x), (b, y)]
  {
    var two := [Str(a), x, Str(b), y];
    forall i | 0 <= i < |two| && i % 2 == 0 ensures two[i].Str? {
      assert i == 0 || i == 2;
    }
  }

  /** The same for three pairs. */
  lemma PairsOfThree(a: string, x: Value, b: string, y: Value, c: string, z: Value)
    ensures WellPaired([Str(a), x, Str(b), y, Str(c), z])
    ensures Pairs([Str(a), x, Str(b), y, Str(c), z]) == [(a, x), (b, y), (c, z)]
  {
    var three := [Str(a), x, Str(b), y, Str(c), z];
    forall i | 0 <= i < |three| && i % 2 == 0 ensures three[i].Str? {
      assert i == 0 || i == 2 || i == 4;
    }
  }

  /** details::write_to_json_doc: consume the arguments two at a time as
      key and value and append the pair; with nothing left it is a no-op. */
  function WriteToJsonDoc(doc: seq<Field>, args: seq<Value>): (r: seq<Field>)
    requires WellPaired(args)
    ensures r == doc + Pairs(args)
    decreases |args|
  {
    if |args| == 0 then doc
    else
      PairsCons(args);
      WriteToJsonDoc(doc + [(args[0].s, args[1])], args[2..])
  }

  /** details::make_command_imp: the response name first, then the
      arguments as pairs in argument order. */
  function MakeCommandImp(c: Command, t: MsgType, args: seq<Value>): (r: Response)
    requires WellPaired(args)
    ensures r.command == GetCommandString(c, t)
    ensures r.data == Pairs(args)
  {
    Response(GetCommandString(c, t), WriteToJsonDoc([], args))
  }

  /** build_command: like make_command_imp with ("job", job) always the
      first pair. */
  function BuildCommand(c: Command, t: MsgType, job: int, args: seq<Value>): (r: Response)
    requires WellPaired(args)
    ensures r.command == GetCommandString(c, t)
    ensures r.data == [("job", Num(job))] + Pairs(args)
  {
    var all := [Str("job"), Num(job)] + args;
    assert WellPaired(all) by {
      forall i | 0 <= i < |all| && i % 2 == 0 ensures all[i].Str? {
        if i >= 2 { assert all[i] == args[i - 2]; }
      }
    }
    PairsCons(all);
    assert all[2..] == args;
    MakeCommandImp(c, t, all)
  }

  /** build_error without a job id: command, error, msg. */
  function BuildError(c: Command, error: string, msg: string): (r: Response)
    ensures r.command == GetCommandString(c, MsgError)
    ensures r.data == [("error", Str(error)), ("msg", Str(msg))]
  {
    MakeCommandImp(c, MsgError, [Str("error"), Str(error), Str("msg"), Str(msg)])
  }

  /** build_error with a job id: command, job, error, msg. */
  function BuildJobError(c: Command, error: string, msg: string, job: int): (r: Response)
    ensures r.command == GetCommandString(c, MsgError)
    ensures r.data == [("job", Num(job)), ("error", Str(error)), ("msg", Str(msg))]
  {
    BuildCommand(c, MsgError, job, [Str("error"), Str(error), Str("msg"), Str(msg)])
  }

  // ------------------------------------------------------------------
  // Parser and key lookup
  // ------------------------------------------------------------------

  /** receive_message_handler: a parse failure emits one
      DESERIALIZE_JSON_FAILED error (tagged COMMAND_ERROR, no job) and
      reports false; a parsed document reports true and emits nothing. */
  function ReceiveMessageHandler(parsed: Parsed): (r: (bool, seq<Response>))
    ensures r.0 == parsed.ok
    ensures r.0 ==> r.1 == []
    ensures !r.0 ==> r.1 == [Response("ERROR", [("error", Str("DESERIALIZE_JSON_FAILED")), ("msg", Str(parsed.error))])]
  {
    if parsed.ok then (true, [])
    else (false, [BuildError(Error, "DESERIALIZE_JSON_FAILED", parsed.error)])
  }

  /** The INVALID_KEY error has_object_given_key emits for a missing key. */
  function MissingKeyError(tag: Command, key: string): Response {
    BuildError(tag, "INVALID_KEY", "Key '" + key + "' is missing")
  }

  /** has_object_given_key: the key's value when present; otherwise one
      INVALID_KEY error tagged with the message's current command and no
      job. */
  function HasObjectGivenKey(doc: map<string, string>, tag: Command, key: string): (r: (Option<string>, seq<Response>))
    ensures key in doc <==> r.0.Some?
    ensures key in doc ==> r.0.value == doc[key] && r.1 == []
    ensures key !in doc ==> r.1 == [Response(GetCommandString(tag, MsgError), [("error", Str("INVALID_KEY")), ("msg", Str("Key '" + key + "' is missing"))])]
  {
    if key in doc then (Some(doc[key]), [])
    else (None, [MissingKeyError(tag, key)])
  }

  /** Several has_object_given_key calls joined by && as the dispatcher
      writes them: keys are tried left to right and the first missing one
      stops the chain, so at most one error is emitted. */
  function HasKeys(doc: map<string, string>, tag: Command, keys: seq<string>): (r: (Option<seq<string>>, seq<Response>))
    ensures r.0.Some? <==> forall i :: 0 <= i < |keys| ==> keys[i] in doc
    ensures r.0.Some? ==> r.1 == [] && |r.0.value| == |keys| && forall i :: 0 <= i < |keys| ==> r.0.value[i] == doc[keys[i]]
    ensures r.0.None? ==> exists i :: 0 <= i < |keys| && keys[i] !in doc && (forall j :: 0 <= j < i ==> keys[j] in doc) && r.1 == [MissingKeyError(tag, keys[i])]
  {
    if |keys| == 0 then (Some([]), [])
    else
      match HasObjectGivenKey(doc, tag, keys[0])
      case (None, errs) => (None, errs)
      case (Some(v), _) =>
        var rest := HasKeys(doc, tag, keys[1..]);
        if rest.0.None? then
          assert exists i :: 0 <= i < |keys| && keys[i] !in doc && (forall j :: 0 <= j < i ==> keys[j] in doc) && rest.1 == [MissingKeyError(tag, keys[i])] by {
            var i :| 0 <= i < |keys[1..]| && keys[1..][i] !in doc && (forall j :: 0 <= j < i ==> keys[1..][j] in doc) && rest.1 == [MissingKeyError(tag, keys[1..][i])];
            assert keys[i + 1] == keys[1..][i];
            forall j | 0 <= j < i + 1 ensures keys[j] in doc {
              if j > 0 { assert keys[j] == keys[1..][j - 1]; }
            }
          }
          (None, rest.1)
        else
          (Some([v] + rest.0.value), [])
  }
}
