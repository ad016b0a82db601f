/** The logging scheduler: a table of at most MAX_REQUESTS periodic
    sampling jobs, one per pin, serviced once per control-loop tick. The
    clock is an explicit `now` (milliseconds) and pin values come from a
    readings oracle. The fixed array plus its count is modelled as the
    sequence of its live entries. */
module Logger {
  import opened Protocol
  import opened Gpio

  const MAX_REQUESTS: nat := 8

  /** LoggingRequest. The pin's signal kind, which the constructor caches,
      is a constant of the pin table and is looked up there instead. */
  datatype LoggingRequest = LoggingRequest(
    job: int,
    pin: PinId,
    period: int,
    lastRead: nat,
    firstPass: bool,
    done: bool,
    close: bool)

  /** A freshly constructed request: no sample taken, not closing. */
  function NewRequest(job: int, pin: PinId, period: int): LoggingRequest {
    LoggingRequest(job, pin, period, 0, true, false, false)
  }

  /** LoggingRequest::ready: the first sample is always due; after that a
      sample is due once strictly more than `period` ms have passed. */
  predicate Ready(r: LoggingRequest, now: nat) {
    r.firstPass || r.lastRead + r.period < now
  }

  /** Once due, an entry stays due until it is read; after a read at `now`
      it is due again exactly at the times later than `now + period`. */
  lemma ReadyTiming(r: LoggingRequest, now: nat, later: nat)
    ensures Ready(r, now) && now <= later ==> Ready(r, later)
    ensures Ready(Read(r, now), later) <==> now + r.period < later
  {
  }

  /** LoggingRequest::read, state part: stamp the time, leave the first
      pass, and become done if a close was requested. */
  function Read(r: LoggingRequest, now: nat): (r': LoggingRequest)
    ensures r'.job == r.job && r'.pin == r.pin && r'.period == r.period && r'.close == r.close
    ensures r'.lastRead == now && !r'.firstPass
    ensures r'.done <==> r.done || r.close
  {
    r.(lastRead := now, firstPass := false, done := r.done || r.close)
  }

  /** The sample message one read emits, from the request as read() left it:
      job, time, value, done. */
  function Sample(r: LoggingRequest, rd: Readings): (m: Response)
    ensures m.command == "RX_LOG_SIGNAL"
    ensures m.data == [("job", Num(r.job)), ("time", Num(r.lastRead)), ("value", Num(ReadPin(rd, r.pin))), ("done", Flag(r.done))]
  {
    PairsOfThree("time", Num(r.lastRead), "value", Num(ReadPin(rd, r.pin)), "done", Flag(r.done));
    assert GetCommandString(Command.LogSignal, MsgOutput) == "RX_LOG_SIGNAL" by {
      ResponseNameShape(Command.LogSignal, MsgOutput);
      assert "RX_" + "LOG_SIGNAL" == "RX_LOG_SIGNAL";
    }
    BuildCommand(Command.LogSignal, MsgOutput, r.job, [Str("time"), Num(r.lastRead), Str("value"), Num(ReadPin(rd, r.pin)), Str("done"), Flag(r.done)])
  }

  /** One entry after the emission pass of a tick. */
  function Advance(r: LoggingRequest, now: nat): LoggingRequest {
    if Ready(r, now) then Read(r, now) else r
  }

  /** The table after the emission pass of a tick. */
  function AdvanceAll(reqs: seq<LoggingRequest>, now: nat): (r: seq<LoggingRequest>)
    ensures |r| == |reqs|
    ensures forall i :: 0 <= i < |reqs| ==> r[i] == Advance(reqs[i], now)
  {
    seq(|reqs|, i requires 0 <= i < |reqs| => Advance(reqs[i], now))
  }

  /** The samples the emission pass of a tick sends, for the entries in
      table order. */
  function Samples(reqs: seq<LoggingRequest>, now: nat, rd: Readings): (r: seq<Response>)
    ensures |r| <= |reqs|
    ensures forall k :: 0 <= k < |r| ==> r[k].command == "RX_LOG_SIGNAL"
  {
    if |reqs| == 0 then []
    else
      var last := reqs[|reqs| - 1];
      Samples(reqs[..|reqs| - 1], now, rd) + (if Ready(last, now) then [Sample(Read(last, now), rd)] else [])
  }

  /** The entries the sweep keeps: those not done, in their order. */
  function Keep(reqs: seq<LoggingRequest>): (r: seq<LoggingRequest>)
    ensures |r| <= |reqs|
    ensures forall k :: 0 <= k < |r| ==> !r[k].done
  {
    if |reqs| == 0 then []
    else (if reqs[0].done then [] else [reqs[0]]) + Keep(reqs[1..])
  }

  datatype TickResult = TickResult(requests: seq<LoggingRequest>, out: seq<Response>)

  /** The reference definition of one tick: emit, then sweep. */
  function Tick(reqs: seq<LoggingRequest>, now: nat, rd: Readings): (t: TickResult)
    ensures NoneDone(t.requests)
    ensures |t.requests| <= |reqs| && |t.out| <= |reqs|
  {
    TickResult(Keep(AdvanceAll(reqs, now)), Samples(reqs, now, rd))
  }

  /** details::del_request: shift the entries after `position` down by one
      and drop the last slot. */
  method DelRequest(reqs: seq<LoggingRequest>, position: nat) returns (r: seq<LoggingRequest>)
    requires position < |reqs|
    ensures r == reqs[..position] + reqs[position + 1..]
  {
    var a := reqs;
    var i := position;
    while i < |reqs| - 1
      invariant position <= i <= |reqs| - 1
      invariant |a| == |reqs|
      invariant a[..position] == reqs[..position]
      invariant forall j :: position <= j < i ==> a[j] == reqs[j + 1]
      invariant forall j :: i <= j < |reqs| ==> a[j] == reqs[j]
    {
      a := a[i := a[i + 1]];
      i := i + 1;
    }
    r := a[..|reqs| - 1];
  }

  /** The first loop of handle_logging_requests: every due entry is read
      and its sample sent, in table order. */
  method EmitSamples(reqs: seq<LoggingRequest>, now: nat, rd: Readings) returns (cur: seq<LoggingRequest>, out: seq<Response>)
    ensures cur == AdvanceAll(reqs, now)
    ensures out == Samples(reqs, now, rd)
  {
    cur := reqs;
    out := [];
    var i := 0;
    while i < |cur|
      invariant |cur| == |reqs|
      invariant 0 <= i <= |cur|
      invariant forall j :: 0 <= j < i ==> cur[j] == Advance(reqs[j], now)
      invariant forall j :: i <= j < |cur| ==> cur[j] == reqs[j]
      invariant out == Samples(reqs[..i], now, rd)
    {
      assert reqs[..i + 1][..i] == reqs[..i];
      if Ready(cur[i], now) {
        var p := Read(cur[i], now);
        cur := cur[i := p];
        out := out + [Sample(p, rd)];
      }
      i := i + 1;
    }
    assert reqs[..|reqs|] == reqs;
  }

  /** The second loop of handle_logging_requests: walk the table, deleting
      each done entry in place and stepping past the others. */
  method SweepDone(table: seq<LoggingRequest>) returns (cur: seq<LoggingRequest>)
    ensures cur == Keep(table)
  {
    cur := table;
    var index := 0;
    while index < |cur|
      invariant 0 <= index <= |cur|
      invariant cur[..index] + Keep(cur[index..]) == Keep(table)
      decreases |cur| - index
    {
      assert cur[index..][1..] == cur[index + 1..];
      if cur[index].done {
        var next := DelRequest(cur, index);
        assert next[..index] == cur[..index];
        assert next[index..] == cur[index + 1..];
        cur := next;
      } else {
        assert cur[..index + 1] == cur[..index] + [cur[index]];
        index := index + 1;
      }
    }
    assert cur[..index] == cur;
  }

  /** handle_logging_requests: the emission loop, then the sweep. It
      computes `Tick`. */
  method HandleLoggingRequests(reqs: seq<LoggingRequest>, now: nat, rd: Readings) returns (result: seq<LoggingRequest>, out: seq<Response>)
    ensures TickResult(result, out) == Tick(reqs, now, rd)
  {
    var advanced;
    advanced, out := EmitSamples(reqs, now, rd);
    result := SweepDone(advanced);
  }

  /** The index of the first entry logging `pin`, or the count when none
      does: the search loop log_signal and end_log_signal both run. */
  function FindPin(reqs: seq<LoggingRequest>, pin: PinRef): (i: nat)
    ensures i <= |reqs|
    ensures i < |reqs| ==> reqs[i].pin == pin
    ensures forall j :: 0 <= j < i ==> reqs[j].pin != pin
  {
    if |reqs| == 0 then 0
    else if reqs[0].pin == pin then 0
    else 1 + FindPin(reqs[1..], pin)
  }

  /** log_signal: admission control. 1 when the table is full (checked
      first), 2 when the pin is already logged (even by a closing entry),
      else 0 with one fresh entry appended. */
  function LogSignal(reqs: seq<LoggingRequest>, job: int, pin: PinId, period: int): (r: (int, seq<LoggingRequest>))
    requires |reqs| <= MAX_REQUESTS
    ensures r.0 == 0 || r.0 == 1 || r.0 == 2
    ensures r.0 == 1 <==> |reqs| == MAX_REQUESTS
    ensures r.0 == 2 <==> |reqs| < MAX_REQUESTS && exists j :: 0 <= j < |reqs| && reqs[j].pin == pin
    ensures r.0 != 0 ==> r.1 == reqs
    ensures r.0 == 0 ==> r.1 == reqs + [NewRequest(job, pin, period)]
  {
    if |reqs| == MAX_REQUESTS then (1, reqs)
    else if FindPin(reqs, pin) < |reqs| then (2, reqs)
    else (0, reqs + [NewRequest(job, pin, period)])
  }

  /** end_log_signal: mark the entry for `pin` as closing and return 0, or
      return 1 when no entry logs that pin. */
  function EndLogSignal(reqs: seq<LoggingRequest>, pin: PinRef): (r: (int, seq<LoggingRequest>))
    ensures r.0 == 0 || r.0 == 1
    ensures r.0 == 1 <==> forall j :: 0 <= j < |reqs| ==> reqs[j].pin != pin
    ensures |r.1| == |reqs|
    ensures forall j :: 0 <= j < |reqs| ==> r.1[j] == (if reqs[j].pin == pin && j == FindPin(reqs, pin) then reqs[j].(close := true) else reqs[j])
  {
    var i := FindPin(reqs, pin);
    if i < |reqs| then (0, reqs[i := reqs[i].(close := true)]) else (1, reqs)
  }

  // ------------------------------------------------------------------
  // Invariant and properties
  // ------------------------------------------------------------------

  predicate DistinctPins(reqs: seq<LoggingRequest>) {
    forall i, j :: 0 <= i < j < |reqs| ==> reqs[i].pin != reqs[j].pin
  }

  predicate NoneDone(reqs: seq<LoggingRequest>) {
    forall i :: 0 <= i < |reqs| ==> !reqs[i].done
  }

  /** The table between ticks: within capacity, one entry per pin, and
      every done entry already swept. */
  predicate Valid(reqs: seq<LoggingRequest>) {
    |reqs| <= MAX_REQUESTS && DistinctPins(reqs) && NoneDone(reqs)
  }

  /** A successful start keeps the table valid; a refused one leaves it
      as it was. */
  lemma LogSignalPreservesValid(reqs: seq<LoggingRequest>, job: int, pin: PinId, period: int)
    requires Valid(reqs)
    ensures Valid(LogSignal(reqs, job, pin, period).1)
  {
  }

  /** end_log_signal never changes the count, the order, the pins or any
      other entry; it keeps the table valid. */
  lemma EndLogSignalPreservesValid(reqs: seq<LoggingRequest>, pin: PinRef)
    requires Valid(reqs)
    ensures Valid(EndLogSignal(reqs, pin).1)
    ensures forall j :: 0 <= j < |reqs| ==> EndLogSignal(reqs, pin).1[j].pin == reqs[j].pin
  {
  }

  /** Closing twice before the sweep succeeds both times and the second
      close changes nothing. */
  lemma EndLogSignalIdempotent(reqs: seq<LoggingRequest>, pin: PinRef)
    requires EndLogSignal(reqs, pin).0 == 0
    ensures EndLogSignal(EndLogSignal(reqs, pin).1, pin).0 == 0
    ensures EndLogSignal(EndLogSignal(reqs, pin).1, pin).1 == EndLogSignal(reqs, pin).1
  {
    var once := EndLogSignal(reqs, pin).1;
    var i := FindPin(reqs, pin);
    assert once[i].pin == pin;
    assert FindPin(once, pin) == i by {
      var k := FindPin(once, pin);
      assert forall j :: 0 <= j < |once| ==> once[j].pin == reqs[j].pin;
    }
  }

  /** The sweep splits over concatenation: it judges every entry on its own
      and keeps the survivors in their relative order. */
  lemma {:induction false} KeepAppend(a: seq<LoggingRequest>, b: seq<LoggingRequest>)
    ensures Keep(a + b) == Keep(a) + Keep(b)
    decreases |a|
  {
    if |a| == 0 {
      assert a + b == b;
    } else {
      assert (a + b)[1..] == a[1..] + b;
      KeepAppend(a[1..], b);
    }
  }

  /** The sweep keeps exactly the entries that are not done. */
  lemma {:induction false} KeepMembers(reqs: seq<LoggingRequest>)
    ensures forall r :: r in Keep(reqs) <==> r in reqs && !r.done
    ensures |Keep(reqs)| <= |reqs|
    ensures NoneDone(reqs) ==> Keep(reqs) == reqs
    decreases |reqs|
  {
    if |reqs| > 0 {
      KeepMembers(reqs[1..]);
      assert reqs == [reqs[0]] + reqs[1..];
      if NoneDone(reqs) {
        assert NoneDone(reqs[1..]) by {
          forall i | 0 <= i < |reqs[1..]| ensures !reqs[1..][i].done {
            assert reqs[1..][i] == reqs[i + 1];
          }
        }
      }
    }
  }

  /** Putting an entry in front of a table that does not log its pin keeps
      the pins distinct. */
  lemma DistinctCons(x: LoggingRequest, k: seq<LoggingRequest>)
    requires DistinctPins(k) && forall r :: r in k ==> r.pin != x.pin
    ensures DistinctPins([x] + k)
  {
    var t := [x] + k;
    forall i, j | 0 <= i < j < |t| ensures t[i].pin != t[j].pin {
      assert t[j] == k[j - 1];
      if i > 0 { assert t[i] == k[i - 1]; }
    }
  }

  /** A table with distinct pins: its tail has distinct pins and does not
      log the head's pin. */
  lemma DistinctTail(reqs: seq<LoggingRequest>)
    requires DistinctPins(reqs) && |reqs| > 0
    ensures DistinctPins(reqs[1..])
    ensures forall r :: r in reqs[1..] ==> r.pin != reqs[0].pin
  {
    forall i, j | 0 <= i < j < |reqs[1..]| ensures reqs[1..][i].pin != reqs[1..][j].pin {
      assert reqs[1..][i] == reqs[i + 1] && reqs[1..][j] == reqs[j + 1];
    }
    forall r | r in reqs[1..] ensures r.pin != reqs[0].pin {
      var m :| 0 <= m < |reqs[1..]| && reqs[1..][m] == r;
      assert reqs[m + 1] == r;
    }
  }

  /** The sweep keeps the relative order, so distinct pins stay distinct. */
  lemma {:induction false} KeepDistinct(reqs: seq<LoggingRequest>)
    requires DistinctPins(reqs)
    ensures DistinctPins(Keep(reqs))
    decreases |reqs|
  {
    if |reqs| > 0 {
      DistinctTail(reqs);
      KeepDistinct(reqs[1..]);
      KeepMembers(reqs[1..]);
      if !reqs[0].done {
        DistinctCons(reqs[0], Keep(reqs[1..]));
      }
    }
  }

  /** A tick emits one sample per ready entry, in table order: the samples
      of a concatenation are the samples of its parts. */
  lemma {:induction false} SamplesAppend(a: seq<LoggingRequest>, b: seq<LoggingRequest>, now: nat, rd: Readings)
    ensures Samples(a + b, now, rd) == Samples(a, now, rd) + Samples(b, now, rd)
    decreases |b|
  {
    if |b| == 0 {
      assert a + b == a;
    } else {
      var b' := b[..|b| - 1];
      assert (a + b)[..|a + b| - 1] == a + b';
      assert (a + b)[|a + b| - 1] == b[|b| - 1];
      SamplesAppend(a, b', now, rd);
    }
  }

  /** After any tick no entry is done, and a valid table stays valid. */
  lemma TickPreservesValid(reqs: seq<LoggingRequest>, now: nat, rd: Readings)
    requires Valid(reqs)
    ensures Valid(Tick(reqs, now, rd).requests)
    ensures |Tick(reqs, now, rd).requests| <= |reqs|
  {
    var adv := AdvanceAll(reqs, now);
    KeepMembers(adv);
    assert DistinctPins(adv);
    KeepDistinct(adv);
    var kept := Keep(adv);
    forall i | 0 <= i < |kept| ensures !kept[i].done {
      assert kept[i] in kept;
    }
  }

  /** An entry that is not due is carried through the tick untouched. */
  lemma NotReadyKept(reqs: seq<LoggingRequest>, now: nat, rd: Readings, i: nat)
    requires Valid(reqs) && i < |reqs| && !Ready(reqs[i], now)
    ensures reqs[i] in Tick(reqs, now, rd).requests
  {
    var adv := AdvanceAll(reqs, now);
    assert adv[i] == reqs[i];
    KeepMembers(adv);
  }

  /** A closing entry that is due emits its final sample, flagged done, and
      is swept in the same tick: afterwards no entry logs its pin. */
  lemma ClosedEntryFinishes(reqs: seq<LoggingRequest>, now: nat, rd: Readings, i: nat)
    requires Valid(reqs) && i < |reqs| && reqs[i].close && Ready(reqs[i], now)
    ensures Sample(Read(reqs[i], now), rd) in Tick(reqs, now, rd).out
    ensures Sample(Read(reqs[i], now), rd).data[3] == ("done", Flag(true))
    ensures forall r :: r in Tick(reqs, now, rd).requests ==> r.pin != reqs[i].pin
  {
    DueEntrySampled(reqs, now, rd, i);
    ClosedEntrySwept(reqs, now, i);
  }

  /** A due entry's sample is among the tick's messages. */
  lemma DueEntrySampled(reqs: seq<LoggingRequest>, now: nat, rd: Readings, i: nat)
    requires i < |reqs| && Ready(reqs[i], now)
    ensures Sample(Read(reqs[i], now), rd) in Samples(reqs, now, rd)
  {
    assert reqs == reqs[..i] + [reqs[i]] + reqs[i + 1..];
    SamplesAppend(reqs[..i] + [reqs[i]], reqs[i + 1..], now, rd);
    SamplesAppend(reqs[..i], [reqs[i]], now, rd);
    assert [reqs[i]][..0] == [];
  }

  /** A closing entry that is due is gone after the sweep, and with it its
      pin, since pins are distinct. */
  lemma ClosedEntrySwept(reqs: seq<LoggingRequest>, now: nat, i: nat)
    requires Valid(reqs) && i < |reqs| && reqs[i].close && Ready(reqs[i], now)
    ensures forall r :: r in Keep(AdvanceAll(reqs, now)) ==> r.pin != reqs[i].pin
  {
    var adv := AdvanceAll(reqs, now);
    KeepMembers(adv);
    forall r | r in Keep(adv) ensures r.pin != reqs[i].pin {
      var j :| 0 <= j < |adv| && adv[j] == r;
      assert adv[j].pin == reqs[j].pin;
    }
  }

  /** A newly admitted job is sampled on the very next tick, whatever the
      time, and then stays quiet until more than its period has passed. */
  lemma FirstSampleThenQuiet(reqs: seq<LoggingRequest>, job: int, pin: PinId, period: int, now: nat, later: nat, rd: Readings)
    requires Valid(reqs) && LogSignal(reqs, job, pin, period).0 == 0
    requires later <= now + period
    ensures Sample(Read(NewRequest(job, pin, period), now), rd) in Tick(LogSignal(reqs, job, pin, period).1, now, rd).out
    ensures Read(NewRequest(job, pin, period), now) in Tick(LogSignal(reqs, job, pin, period).1, now, rd).requests
    ensures !Ready(Read(NewRequest(job, pin, period), now), later)
  {
    var n := NewRequest(job, pin, period);
    var t := reqs + [n];
    SamplesAppend(reqs, [n], now, rd);
    assert [n][..0] == [];
    var adv := AdvanceAll(t, now);
    assert adv[|reqs|] == Read(n, now);
    KeepMembers(adv);
  }
}
