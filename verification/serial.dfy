/** Line framing on the serial link and the one-slot mailbox between the
    receive interrupt and the control loop. Received characters accumulate
    in a buffer; a newline moves the buffered line into the mailbox and
    raises its flag; the control loop drains the mailbox by handing the
    line to the bound callback. */
module Serial {
  import opened Protocol

  /** string_buffer, string_input, string_complete, and whether a message
      callback has been bound. */
  datatype SerialState = SerialState(buffer: string, input: string, complete: bool, bound: bool)

  /** The globals before setup: empty strings, flag clear, no callback. */
  const Initial: SerialState := SerialState("", "", false, false)

  /** serial_init, state part: both strings emptied (the baud-rate setup is
      I/O). */
  function SerialInit(s: SerialState): (r: SerialState)
    ensures r.buffer == "" && r.input == ""
    ensures r.complete == s.complete && r.bound == s.bound
  {
    s.(buffer := "", input := "")
  }

  /** serial_set_callback: bind the callback to the mailbox's line. */
  function SetCallback(s: SerialState): (r: SerialState)
    ensures r.bound
    ensures r.buffer == s.buffer && r.input == s.input && r.complete == s.complete
  {
    s.(bound := true)
  }

  /** One character of serialEvent's loop. */
  function Receive(s: SerialState, c: char): (r: SerialState)
    ensures r.bound == s.bound
  {
    if c == '\n' then s.(complete := true, input := s.buffer, buffer := "")
    else s.(buffer := s.buffer + [c])
  }

  /** serialEvent: consume every available character in order. */
  function SerialEvent(s: SerialState, chars: string): (r: SerialState)
    ensures r.bound == s.bound
    ensures |chars| == 0 ==> r == s
    decreases |chars|
  {
    if |chars| == 0 then s
    else Receive(SerialEvent(s, chars[..|chars| - 1]), chars[|chars| - 1])
  }

  /** serial_process: when the flag is set, deliver the mailbox's line to
      the callback if one is bound, and clear the flag; otherwise do
      nothing. */
  function SerialProcess(s: SerialState): (r: (SerialState, Option<string>))
    ensures !s.complete ==> r == (s, None)
    ensures !r.0.complete
    ensures r.0.buffer == s.buffer && r.0.input == s.input && r.0.bound == s.bound
    ensures r.1.Some? <==> s.complete && s.bound
    ensures r.1.Some? ==> r.1.value == s.input
  {
    if s.complete then (s.(complete := false), if s.bound then Some(s.input) else None)
    else (s, None)
  }

  // ------------------------------------------------------------------
  // Properties
  // ------------------------------------------------------------------

  /** The index of the last newline in `s`, or -1 when there is none. */
  function LastNewline(s: string): (k: int)
    ensures -1 <= k < |s|
    ensures k >= 0 ==> s[k] == '\n'
    ensures forall j :: k < j < |s| ==> s[j] != '\n'
  {
    if |s| == 0 then -1
    else if s[|s| - 1] == '\n' then |s| - 1
    else LastNewline(s[..|s| - 1])
  }

  /** A text that ends with a newline somewhere has a last one. */
  lemma NewlineFound(pending: string, chars: string)
    requires '\n' in chars
    ensures LastNewline(pending + chars) >= 0
  {
    var i :| 0 <= i < |chars| && chars[i] == '\n';
    assert (pending + chars)[|pending| + i] == '\n';
  }

  predicate NewlineFree(s: SerialState) {
    '\n' !in s.buffer && '\n' !in s.input
  }

  /** A newline never enters the buffer or a delivered line. */
  lemma {:induction false} SerialEventNewlineFree(s: SerialState, chars: string)
    requires NewlineFree(s)
    ensures NewlineFree(SerialEvent(s, chars))
    decreases |chars|
  {
    if |chars| > 0 {
      SerialEventNewlineFree(s, chars[..|chars| - 1]);
    }
  }

  /** Appending a character moves the last newline only if the character
      is one. */
  lemma LastNewlineSnoc(s: string, c: char)
    ensures LastNewline(s + [c]) == if c == '\n' then |s| else LastNewline(s)
  {
    assert (s + [c])[..|s|] == s;
  }

  /** The mailbox after the text `full` has been received on top of an
      empty, newline-free start: with no newline the text is still pending;
      otherwise the text after the last newline is pending and the mailbox
      holds the line that newline completed. */
  predicate Framed(s: SerialState, full: string, r: SerialState) {
    var k := LastNewline(full);
    && r.bound == s.bound
    && (k < 0 ==> r == s.(buffer := full))
    && (k >= 0 ==> r.complete && r.buffer == full[k + 1..] && r.input == full[LastNewline(full[..k]) + 1..k])
  }

  /** Receiving one more character keeps the mailbox framed. */
  lemma FramedReceive(s: SerialState, text: string, prev: SerialState, c: char)
    requires Framed(s, text, prev)
    ensures Framed(s, text + [c], Receive(prev, c))
  {
    LastNewlineSnoc(text, c);
    if c == '\n' {
      FramedNewline(s, text, prev);
    } else {
      FramedOther(s, text, prev, c);
    }
  }

  /** A newline completes the line the buffer holds. */
  lemma FramedNewline(s: SerialState, text: string, prev: SerialState)
    requires Framed(s, text, prev)
    ensures Framed(s, text + ['\n'], Receive(prev, '\n'))
  {
    var full := text + ['\n'];
    var j := LastNewline(text);
    assert prev.buffer == text[j + 1..];
    assert LastNewline(full) == |text| by { LastNewlineSnoc(text, '\n'); }
    assert full[..|text|] == text;
    assert full[j + 1..|text|] == text[j + 1..];
    assert full[|text| + 1..] == [];
  }

  /** Any other character extends the pending text. */
  lemma FramedOther(s: SerialState, text: string, prev: SerialState, c: char)
    requires Framed(s, text, prev) && c != '\n'
    ensures Framed(s, text + [c], Receive(prev, c))
  {
    var full := text + [c];
    var k := LastNewline(text);
    assert LastNewline(full) == k by { LastNewlineSnoc(text, c); }
    assert Receive(prev, c) == prev.(buffer := prev.buffer + [c]);
    if k >= 0 {
      assert full[..k] == text[..k];
      assert full[k + 1..] == text[k + 1..] + [c];
    }
  }

  /** What a burst of characters does to the mailbox, stated on the text
      received so far (the pending buffer followed by the burst): only the
      line completed by the burst's last newline remains in the mailbox,
      so of several lines in one burst the earlier ones are overwritten. */
  lemma {:induction false} SerialEventFraming(s: SerialState, chars: string)
    requires '\n' !in s.buffer
    ensures Framed(s, s.buffer + chars, SerialEvent(s, chars))
    decreases |chars|
  {
    if |chars| == 0 {
      assert s.buffer + chars == s.buffer;
    } else {
      var init := chars[..|chars| - 1];
      var c := chars[|chars| - 1];
      assert s.buffer + chars == (s.buffer + init) + [c];
      SerialEventFraming(s, init);
      FramedReceive(s, s.buffer + init, SerialEvent(s, init), c);
    }
  }

  /** A burst that contains a newline leaves the mailbox full: it holds
      the line the burst's last newline completed, and the buffer holds
      what followed that newline. */
  lemma BurstMailbox(s: SerialState, chars: string)
    requires '\n' !in s.buffer && '\n' in chars
    ensures var full := s.buffer + chars;
            var k := LastNewline(full);
            var r := SerialEvent(s, chars);
            && 0 <= k
            && r.complete && r.bound == s.bound
            && r.buffer == full[k + 1..]
            && r.input == full[LastNewline(full[..k]) + 1..k]
  {
    NewlineFound(s.buffer, chars);
    SerialEventFraming(s, chars);
    FramedComplete(s, s.buffer + chars, SerialEvent(s, chars));
  }

  /** A framed mailbox whose text holds a newline is full. */
  lemma FramedComplete(s: SerialState, full: string, r: SerialState)
    requires Framed(s, full, r) && LastNewline(full) >= 0
    ensures var k := LastNewline(full);
            && r.complete && r.bound == s.bound
            && r.buffer == full[k + 1..]
            && r.input == full[LastNewline(full[..k]) + 1..k]
  {
  }

  /** A complete line is delivered at most once: a second drain finds the
      flag clear and delivers nothing. */
  lemma DeliverOnce(s: SerialState)
    ensures SerialProcess(SerialProcess(s).0).1 == None
    ensures SerialProcess(SerialProcess(s).0).0 == SerialProcess(s).0
  {
  }
}
