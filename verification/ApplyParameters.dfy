/** Writing a device configuration (src/client/mesycontrol/config_util.py):
    critical parameters are set to their safe values, then the others are
    written, then the critical ones get their values. The user may retry, skip
    or abort after any failure, and the generator may be closed at any yield. */
module ApplyParameters {
  import opened Messages

  datatype Param = Param(address: nat, safeValue: int)

  // What the user answers to a failure. Every other answer (yes, no, ...) ends
  // the attempts like a skip does.
  datatype Action = Retry | Skip | OtherAction

  // The conversation about one request: it succeeds, and the generator is
  // resumed or closed at the progress report; it fails, possibly after it took
  // effect, and the user answers or aborts; or the generator is closed while it
  // waits for the request.
  datatype Talk =
    | Succeeds(thenClosed: bool)
    | Fails(applied: bool, action: Action)
    | FailsThenAborted(applied: bool)
    | ClosedWaiting(applied: bool)

  // How far the generator got: to its end, to a close, to a request whose
  // conversation has not happened yet, or to an exception.
  datatype Outcome = Finished | Closed | Waiting | MissingValue | IdcConflict

  datatype Phase = ReadSource | MakeSafe | WriteOthers | WriteCriticals

  datatype Call = Get(address: nat) | Set(address: nat, value: int)

  // What can be seen from outside: a request leaves, with the destination's
  // parameters at that moment, or the user gives a request up.
  datatype Event =
    | Sent(phase: Phase, call: Call, memory: map<nat, int>)
    | GivenUp(phase: Phase, address: nat)

  // A device as the source of a configuration.
  datatype Source = Source(idc: int, value: nat -> int, cached: set<nat>, extensions: map<string, int>)

  class Device {
    const idc: int
    var memory: map<nat, int>
    var extensions: map<string, int>

    constructor (idc: int, memory: map<nat, int>)
      ensures this.idc == idc && this.memory == memory && extensions == map[]
    {
      this.idc := idc;
      this.memory := memory;
      extensions := map[];
    }

    method SetExtension(name: string, value: int)
      modifies `extensions
      ensures extensions == old(extensions)[name := value]
    {
      extensions := extensions[name := value];
    }
  }

  class ProgressUpdate {
    var current: nat
    var total: nat

    constructor (total: nat)
      ensures current == 0 && this.total == total
    {
      current := 0;
      this.total := total;
    }

    // The source asserts that the total is never exceeded.
    method Increment()
      requires current < total
      modifies `current
      ensures current == old(current) + 1
    {
      current := current + 1;
    }
  }

  // Everything outside the generator: how the coming requests end, and whether
  // the generator is closed at its first or last yield. 'log' records the run.
  class Environment {
    const talks: seq<Talk>
    const closedAtStart: bool
    const closedAtEnd: bool
    var next: nat
    ghost var log: seq<Event>

    ghost predicate Valid()
      reads `next
    {
      next <= |talks|
    }

    // Nobody closes or gives anything up: a failure is always answered by a retry.
    ghost predicate Cooperative() {
      !closedAtStart && !closedAtEnd &&
      forall t <- talks :: (t.Succeeds? && !t.thenClosed) || (t.Fails? && t.action == Retry)
    }

    constructor (talks: seq<Talk>, closedAtStart: bool, closedAtEnd: bool)
      ensures Valid() && log == [] && next == 0
      ensures this.talks == talks && this.closedAtStart == closedAtStart && this.closedAtEnd == closedAtEnd
    {
      this.talks := talks;
      this.closedAtStart := closedAtStart;
      this.closedAtEnd := closedAtEnd;
      next := 0;
      log := [];
    }
  }

  // How many of the first n requests succeed.
  ghost function Successes(talks: seq<Talk>, n: nat): (r: nat)
    requires n <= |talks|
    ensures r <= n
  {
    if n == 0 then 0 else Successes(talks, n - 1) + if talks[n - 1].Succeeds? then 1 else 0
  }

  // The conversation ends the run, or the user gives the request up.
  predicate Closes(t: Talk) {
    (t.Succeeds? && t.thenClosed) || t.FailsThenAborted? || t.ClosedWaiting?
  }

  predicate GivesUp(t: Talk) {
    t.Fails? && t.action != Retry
  }

  ghost function GiveUps(talks: seq<Talk>, n: nat): nat
    requires n <= |talks|
  {
    if n == 0 then 0 else GiveUps(talks, n - 1) + if GivesUp(talks[n - 1]) then 1 else 0
  }

  ghost function Sents(log: seq<Event>): nat {
    if log == [] then 0 else Sents(log[..|log| - 1]) + if log[|log| - 1].Sent? then 1 else 0
  }

  ghost function GivenUps(log: seq<Event>): nat {
    if log == [] then 0 else GivenUps(log[..|log| - 1]) + if log[|log| - 1].GivenUp? then 1 else 0
  }

  // Part of a run heard out the conversations from 'from' to 'to': each was about
  // one request, a request was given up exactly where the user did so, and the
  // generator was closed exactly by the last of them.
  ghost predicate Heard(talks: seq<Talk>, from: nat, to: nat, log: seq<Event>, log': seq<Event>, outcome: Outcome) {
    && from <= to <= |talks|
    && Sents(log') == Sents(log) + (to - from) + (if outcome == Waiting then 1 else 0)
    && GivenUps(log') - GivenUps(log) == GiveUps(talks, to) - GiveUps(talks, from)
    && (forall j | from <= j < to && Closes(talks[j]) :: j == to - 1 && outcome == Closed)
    && (outcome == Closed ==> from < to && Closes(talks[to - 1]))
    && (outcome == Waiting ==> to == |talks|)
  }

  lemma HeardNothing(talks: seq<Talk>, n: nat, log: seq<Event>, outcome: Outcome)
    requires n <= |talks| && outcome != Waiting && outcome != Closed
    ensures Heard(talks, n, n, log, log, outcome)
  {
  }

  lemma HeardOut(talks: seq<Talk>, from: nat, to: nat, log: seq<Event>, log': seq<Event>)
    requires Heard(talks, from, to, log, log', Finished)
    ensures Heard(talks, from, to, log, log', MissingValue)
  {
  }

  lemma HeardBoth(talks: seq<Talk>, a: nat, b: nat, c: nat, log: seq<Event>, log': seq<Event>, log'': seq<Event>,
                  outcome: Outcome)
    requires Heard(talks, a, b, log, log', Finished) && Heard(talks, b, c, log', log'', outcome)
    ensures Heard(talks, a, c, log, log'', outcome)
  {
    hide Closes, Sents, GivenUps, GiveUps;
  }

  // One request, and what came of it.
  lemma HeardOne(talks: seq<Talk>, n: nat, log: seq<Event>, phase: Phase, call: Call, memory: map<nat, int>,
                 outcome: Outcome)
    requires n <= |talks| && (outcome == Waiting <==> n == |talks|)
    requires n < |talks| ==> (outcome == Closed <==> Closes(talks[n]))
    ensures var sent := log + [Sent(phase, call, memory)];
            if n == |talks| then Heard(talks, n, n, log, sent, outcome)
            else if GivesUp(talks[n]) then
              Heard(talks, n, n + 1, log, sent + [GivenUp(phase, call.address)], outcome)
            else
              Heard(talks, n, n + 1, log, sent, outcome)
  {
    var sent := log + [Sent(phase, call, memory)];
    assert sent[..|log|] == log;
    assert (sent + [GivenUp(phase, call.address)])[..|sent|] == sent;
  }

  function Addresses(params: seq<Param>): set<nat> {
    set p <- params :: p.address
  }

  function Written(calls: seq<Call>): set<nat> {
    set c <- calls | c.Set? :: c.address
  }

  // No address is named twice.
  ghost predicate NoRepeats(params: seq<Param>) {
    forall i, j | 0 <= i < j < |params| :: params[i].address != params[j].address
  }

  ghost predicate NoRepeatedCalls(calls: seq<Call>) {
    forall i, j | 0 <= i < j < |calls| :: calls[i].address != calls[j].address
  }

  function Read(m: map<nat, int>, a: nat): Option<int> {
    if a in m then Some(m[a]) else None
  }

  // The two memories differ on the given addresses only.
  ghost predicate SameExcept(m: map<nat, int>, n: map<nat, int>, except: set<nat>) {
    forall a | a !in except :: Read(m, a) == Read(n, a)
  }

  // The events from 'from' on belong to one phase, and its requests were sent
  // while nothing but the addresses it writes had changed.
  ghost predicate LoggedIn(log: seq<Event>, from: nat, phase: Phase, memory: map<nat, int>, written: set<nat>) {
    forall k | from <= k < |log| ::
      log[k].phase == phase && (log[k].Sent? ==> SameExcept(log[k].memory, memory, written))
  }

  ghost predicate Achieved(call: Call, memory: map<nat, int>, values: map<nat, int>) {
    match call
    case Get(a) => a in values
    case Set(a, v) => Read(memory, a) == Some(v)
  }

  // Each of the first n calls achieved its effect or was given up.
  ghost predicate Dealt(
    calls: seq<Call>, n: nat, phase: Phase, log: seq<Event>, memory: map<nat, int>, values: map<nat, int>
  ) {
    n <= |calls| &&
    forall i | 0 <= i < n :: GivenUp(phase, calls[i].address) in log || Achieved(calls[i], memory, values)
  }

  ghost predicate NothingGivenUp(log: seq<Event>) {
    forall e <- log :: e.Sent?
  }

  ghost predicate FromSource(values: map<nat, int>, source: Source) {
    forall a <- values :: values[a] == source.value(a)
  }

  // What one call adds to the log: its requests, sent while nothing but the
  // address it writes had changed, and the user giving it up, if so.
  ghost predicate Attempts(log: seq<Event>, log': seq<Event>, phase: Phase, call: Call, memory: map<nat, int>,
                           givenUp: bool) {
    && log <= log'
    && LoggedIn(log', |log|, phase, memory, Written([call]))
    && (forall k | |log| <= k < |log'| && log'[k].Sent? :: log'[k].call == call)
    && (forall k | |log| <= k < |log'| && log'[k].GivenUp? :: givenUp && log'[k].address == call.address)
    && (givenUp ==> GivenUp(phase, call.address) in log')
  }

  lemma AttemptsNone(log: seq<Event>, phase: Phase, call: Call, memory: map<nat, int>)
    ensures Attempts(log, log, phase, call, memory, false)
    ensures SameExcept(memory, memory, Written([call]))
  {
  }

  lemma AttemptsMore(log: seq<Event>, log': seq<Event>, phase: Phase, call: Call, memory: map<nat, int>,
                     memory': map<nat, int>)
    requires Attempts(log, log', phase, call, memory, false)
    requires SameExcept(memory', memory, Written([call]))
    ensures Attempts(log, log' + [Sent(phase, call, memory')], phase, call, memory, false)
    ensures call.Set? ==> SameExcept(memory'[call.address := call.value], memory, Written([call]))
    ensures Attempts(log, log' + [GivenUp(phase, call.address)], phase, call, memory, true)
  {
    assert call.Set? ==> call in [call];
    assert (log' + [GivenUp(phase, call.address)])[|log'|] == GivenUp(phase, call.address);
  }

  lemma OneTalk(talks: seq<Talk>, n: nat)
    requires n < |talks|
    ensures talks[n] in talks
    ensures Successes(talks, n + 1) == Successes(talks, n) + if talks[n].Succeeds? then 1 else 0
    ensures Closes(talks[n]) <==> !talks[n].Fails? && (talks[n].Succeeds? ==> talks[n].thenClosed)
    ensures GivesUp(talks[n]) <==> talks[n].Fails? && talks[n].action != Retry
  {
  }

  // One callable of run_callables_generator: repeated while it fails and the
  // user says so. 'achieved' is false when the attempts ended with a failure.
  method RunCallable(dest: Device, phase: Phase, call: Call, env: Environment, progress: ProgressUpdate)
    returns (outcome: Outcome, achieved: bool)
    requires env.Valid() && progress.current < progress.total
    modifies dest`memory, env, progress`current
    ensures env.Valid() && outcome in {Finished, Closed, Waiting} && |old(env.log)| < |env.log|
    ensures Attempts(old(env.log), env.log, phase, call, old(dest.memory), outcome == Finished && !achieved)
    ensures SameExcept(dest.memory, old(dest.memory), Written([call]))
    ensures achieved && call.Set? ==> Read(dest.memory, call.address) == Some(call.value)
    ensures progress.current == old(progress.current) + if achieved then 1 else 0
    ensures Successes(env.talks, env.next) == old(Successes(env.talks, env.next)) + if achieved then 1 else 0
    ensures outcome == Waiting ==> env.next == |env.talks| && !achieved
    ensures Heard(env.talks, old(env.next), env.next, old(env.log), env.log, outcome)
    ensures env.Cooperative() ==> outcome != Closed && (achieved <==> outcome == Finished)
  {
    hide Attempts, SameExcept, Written, Heard, GiveUps, Sents, GivenUps, Successes, Closes, GivesUp;
    HeardNothing(env.talks, env.next, env.log, Finished);
    outcome := Finished;
    achieved := false;
    var action := Retry;
    AttemptsNone(env.log, phase, call, dest.memory);
    while action == Retry && !achieved
      invariant env.Valid() && |old(env.log)| <= |env.log|
      invariant achieved || action != Retry ==> |old(env.log)| < |env.log|
      invariant Attempts(old(env.log), env.log, phase, call, old(dest.memory), action != Retry)
      invariant SameExcept(dest.memory, old(dest.memory), Written([call]))
      invariant achieved && call.Set? ==> Read(dest.memory, call.address) == Some(call.value)
      invariant progress.current == old(progress.current) + if achieved then 1 else 0
      invariant Successes(env.talks, env.next) == old(Successes(env.talks, env.next)) + if achieved then 1 else 0
      invariant env.Cooperative() ==> action == Retry
      invariant outcome == Finished && (achieved ==> action == Retry)
      invariant Heard(env.talks, old(env.next), env.next, old(env.log), env.log, Finished)
      decreases |env.talks| - env.next
    {
      ghost var next, log := env.next, env.log;
      AttemptsMore(old(env.log), env.log, phase, call, old(dest.memory), dest.memory);
      env.log := env.log + [Sent(phase, call, dest.memory)];
      if env.next == |env.talks| {
        outcome := Waiting;
        HeardOne(env.talks, next, log, phase, call, dest.memory, Waiting);
        HeardBoth(env.talks, old(env.next), next, env.next, old(env.log), log, env.log, Waiting);
        return;
      }
      HeardOne(env.talks, next, log, phase, call, dest.memory, if Closes(env.talks[next]) then Closed else Finished);
      OneTalk(env.talks, next);
      var talk := env.talks[env.next];
      env.next := env.next + 1;
      if call.Set? && (talk.Succeeds? || talk.applied) {
        dest.memory := dest.memory[call.address := call.value];
      }
      match talk {
        case Succeeds(thenClosed) =>
          progress.Increment();
          achieved := true;
          outcome := if thenClosed then Closed else Finished;
        case Fails(_, answer) =>
          action := answer;
        case FailsThenAborted(_) =>
          outcome := Closed;
        case ClosedWaiting(_) =>
          outcome := Closed;
      }
      if action != Retry {
        AttemptsMore(old(env.log), env.log, phase, call, old(dest.memory), dest.memory);
        env.log := env.log + [GivenUp(phase, call.address)];
      }
      HeardBoth(env.talks, old(env.next), next, env.next, old(env.log), log, env.log, outcome);
      if outcome == Closed {
        return;
      }
    }
  }

  // What was given up is one of the calls and has no result.
  ghost predicate SkipsLeaveNoValue(log: seq<Event>, from: nat, calls: seq<Call>, values: map<nat, int>) {
    forall k | from <= k < |log| && log[k].GivenUp? ::
      log[k].address !in values && exists c <- calls :: c.address == log[k].address
  }

  // The first n calls were dealt with, all naming different addresses.
  ghost predicate RanThrough(calls: seq<Call>, n: nat, phase: Phase, from: nat, log: seq<Event>,
                             memory: map<nat, int>, values: map<nat, int>)
  {
    NoRepeatedCalls(calls) ==>
      && Dealt(calls, n, phase, log, memory, values)
      && SkipsLeaveNoValue(log, from, calls[..n], values)
      && forall a <- values :: exists c <- calls[..n] :: c.address == a
  }

  lemma RanOne(calls: seq<Call>, i: nat, phase: Phase, from: nat, log: seq<Event>, memory: map<nat, int>,
               values: map<nat, int>, log': seq<Event>, memory': map<nat, int>, values': map<nat, int>, achieved: bool)
    requires i < |calls| && from <= |log| && RanThrough(calls, i, phase, from, log, memory, values)
    requires Attempts(log, log', phase, calls[i], memory, !achieved)
    requires SameExcept(memory', memory, Written([calls[i]]))
    requires achieved && calls[i].Set? ==> Read(memory', calls[i].address) == Some(calls[i].value)
    requires achieved && calls[i].Get? ==> values'.Keys == values.Keys + {calls[i].address}
    requires !(achieved && calls[i].Get?) ==> values' == values
    ensures RanThrough(calls, i + 1, phase, from, log', memory', values')
  {
    if NoRepeatedCalls(calls) {
      assert calls[..i + 1] == calls[..i] + [calls[i]];
      DealtOne(calls, i, phase, log, memory, values, log', memory', values', achieved);
      SkipsOne(calls[..i], calls[i], phase, from, log, memory, values, log', values', achieved);
    }
  }

  lemma DealtOne(calls: seq<Call>, i: nat, phase: Phase, log: seq<Event>, memory: map<nat, int>, values: map<nat, int>,
                 log': seq<Event>, memory': map<nat, int>, values': map<nat, int>, achieved: bool)
    requires i < |calls| && NoRepeatedCalls(calls) && Dealt(calls, i, phase, log, memory, values)
    requires log <= log' && (!achieved ==> GivenUp(phase, calls[i].address) in log')
    requires SameExcept(memory', memory, {calls[i].address}) && values.Keys <= values'.Keys
    requires achieved ==> Achieved(calls[i], memory', values')
    ensures Dealt(calls, i + 1, phase, log', memory', values')
  {
    forall j | 0 <= j < i + 1
      ensures GivenUp(phase, calls[j].address) in log' || Achieved(calls[j], memory', values')
    {
      if j < i {
        assert calls[j].address != calls[i].address;
        assert Read(memory', calls[j].address) == Read(memory, calls[j].address);
      }
    }
  }

  lemma SkipsOne(done: seq<Call>, call: Call, phase: Phase, from: nat, log: seq<Event>, memory: map<nat, int>,
                 values: map<nat, int>, log': seq<Event>, values': map<nat, int>, achieved: bool)
    requires from <= |log| && SkipsLeaveNoValue(log, from, done, values)
    requires forall a <- values :: exists c <- done :: c.address == a
    requires forall c <- done :: c.address != call.address
    requires Attempts(log, log', phase, call, memory, !achieved)
    requires values'.Keys == values.Keys + if achieved && call.Get? then {call.address} else {}
    ensures SkipsLeaveNoValue(log', from, done + [call], values')
    ensures forall a <- values' :: exists c <- done + [call] :: c.address == a
  {
    hide LoggedIn, Written;
    assert call in done + [call];
    forall c | c in done ensures c in done + [call] {}
    forall k | from <= k < |log'| && log'[k].GivenUp?
      ensures log'[k].address !in values' && exists c <- done + [call] :: c.address == log'[k].address
    {
      if k < |log| {
        assert log'[k] == log[k];
        var c :| c in done && c.address == log[k].address;
      }
    }
    forall a | a in values' ensures exists c <- done + [call] :: c.address == a {
      if a in values {
        var c :| c in done && c.address == a;
      }
    }
  }

  lemma RanNone(calls: seq<Call>, phase: Phase, log: seq<Event>, memory: map<nat, int>)
    ensures RanThrough(calls, 0, phase, |log|, log, memory, map[])
    ensures Touched(calls, phase, log, log, memory, memory)
  {
  }

  // What the calls may have changed.
  ghost predicate Touched(calls: seq<Call>, phase: Phase, log: seq<Event>, log': seq<Event>,
                          memory: map<nat, int>, memory': map<nat, int>)
  {
    log <= log' && LoggedIn(log', |log|, phase, memory, Written(calls)) && SameExcept(memory', memory, Written(calls))
  }

  lemma TouchedMore(calls: seq<Call>, call: Call, phase: Phase, log: seq<Event>, memory: map<nat, int>,
                    log': seq<Event>, memory': map<nat, int>, log'': seq<Event>, memory'': map<nat, int>, givenUp: bool)
    requires Touched(calls, phase, log, log', memory, memory')
    requires call in calls
    requires Attempts(log', log'', phase, call, memory', givenUp)
    requires SameExcept(memory'', memory', Written([call]))
    ensures Touched(calls, phase, log, log'', memory, memory'')
    ensures !givenUp && NothingGivenUp(log') ==> NothingGivenUp(log'')
    ensures NothingGivenUp(log'') ==> !givenUp && NothingGivenUp(log')
  {
    assert Written([call]) <= Written(calls);
  }

  // The requests were for the first n calls, one after the other.
  ghost predicate OneByOne(calls: seq<Call>, n: nat, from: nat, log: seq<Event>)
    requires n <= |calls|
  {
    && (forall k | from <= k < |log| && log[k].Sent? :: log[k].call in calls[..n])
    && (NoRepeatedCalls(calls) ==>
          forall k, l, i, j | from <= k < l < |log| && log[k].Sent? && log[l].Sent?
                              && 0 <= i < |calls| && 0 <= j < |calls|
                              && log[k].call == calls[i] && log[l].call == calls[j] :: i <= j)
  }

  lemma OneMoreCall(calls: seq<Call>, n: nat, from: nat, log: seq<Event>, log': seq<Event>, phase: Phase,
                    memory: map<nat, int>, givenUp: bool)
    requires n < |calls| && from <= |log| && OneByOne(calls, n, from, log)
    requires Attempts(log, log', phase, calls[n], memory, givenUp)
    ensures OneByOne(calls, n + 1, from, log')
  {
    hide LoggedIn;
    assert calls[..n + 1] == calls[..n] + [calls[n]];
    assert forall k | 0 <= k < |log| :: log'[k] == log[k];
    forall k, l, i, j | from <= k < l < |log'| && log'[k].Sent? && log'[l].Sent? && 0 <= i < |calls| && 0 <= j < |calls|
                        && log'[k].call == calls[i] && log'[l].call == calls[j] && NoRepeatedCalls(calls)
      ensures i <= j
    {
      if k < |log| <= l {
        var h :| 0 <= h < n && calls[h] == log[k].call;
      }
    }
  }

  lemma FirstCalls(calls: seq<Call>, n: nat, from: nat, log: seq<Event>)
    requires n <= |calls| && OneByOne(calls, n, from, log)
    ensures OneByOne(calls, |calls|, from, log)
  {
    hide NoRepeatedCalls;
    assert calls[..|calls|] == calls[..n] + calls[n..];
  }

  lemma NoCalls(calls: seq<Call>, log: seq<Event>)
    ensures OneByOne(calls, 0, |log|, log)
  {
  }

  // run_callables_generator together with the loop that drives it. 'values'
  // are the results of the reads.
  method RunCallables(source: Source, dest: Device, phase: Phase, calls: seq<Call>, env: Environment,
                      progress: ProgressUpdate)
    returns (outcome: Outcome, values: map<nat, int>)
    requires env.Valid() && progress.current + |calls| <= progress.total
    modifies dest`memory, env, progress`current
    ensures env.Valid() && outcome in {Finished, Closed, Waiting}
    ensures Touched(calls, phase, old(env.log), env.log, old(dest.memory), dest.memory)
    ensures outcome == Finished ==> RanThrough(calls, |calls|, phase, |old(env.log)|, env.log, dest.memory, values)
    ensures OneByOne(calls, |calls|, |old(env.log)|, env.log)
    ensures FromSource(values, source)
    ensures calls != [] ==> |old(env.log)| < |env.log|
    ensures progress.current <= old(progress.current) + |calls|
    ensures outcome == Finished && NothingGivenUp(env.log) ==> progress.current == old(progress.current) + |calls|
    ensures progress.current - old(progress.current)
                 == Successes(env.talks, env.next) - old(Successes(env.talks, env.next))
    ensures outcome == Waiting ==> env.next == |env.talks| && progress.current < old(progress.current) + |calls|
    ensures Heard(env.talks, old(env.next), env.next, old(env.log), env.log, outcome)
    ensures env.Cooperative() ==> outcome != Closed
    ensures env.Cooperative() && NothingGivenUp(old(env.log)) ==> NothingGivenUp(env.log)
    ensures NothingGivenUp(env.log) ==> NothingGivenUp(old(env.log))
  {
    hide Attempts, Touched, RanThrough, NothingGivenUp, SameExcept, Written, Heard, OneByOne;
    HeardNothing(env.talks, env.next, env.log, Finished);
    values := map[];
    RanNone(calls, phase, env.log, dest.memory);
    NoCalls(calls, env.log);
    for i := 0 to |calls|
      invariant env.Valid()
      invariant Touched(calls, phase, old(env.log), env.log, old(dest.memory), dest.memory)
      invariant |old(env.log)| <= |env.log| && (i > 0 ==> |old(env.log)| < |env.log|)
      invariant RanThrough(calls, i, phase, |old(env.log)|, env.log, dest.memory, values)
      invariant OneByOne(calls, i, |old(env.log)|, env.log)
      invariant FromSource(values, source)
      invariant Heard(env.talks, old(env.next), env.next, old(env.log), env.log, Finished)
      invariant progress.current <= old(progress.current) + i
      invariant NothingGivenUp(env.log) ==>
                  NothingGivenUp(old(env.log)) && progress.current == old(progress.current) + i
      invariant progress.current - old(progress.current)
                     == Successes(env.talks, env.next) - old(Successes(env.talks, env.next))
      invariant env.Cooperative() && NothingGivenUp(old(env.log)) ==> NothingGivenUp(env.log)
    {
      ghost var log, memory, results, next := env.log, dest.memory, values, env.next;
      var achieved;
      outcome, achieved := RunCallable(dest, phase, calls[i], env, progress);
      HeardBoth(env.talks, old(env.next), next, env.next, old(env.log), log, env.log, outcome);
      TouchedMore(calls, calls[i], phase, old(env.log), old(dest.memory), log, memory, env.log, dest.memory,
                  outcome == Finished && !achieved);
      OneMoreCall(calls, i, |old(env.log)|, log, env.log, phase, memory, outcome == Finished && !achieved);
      if outcome != Finished {
        FirstCalls(calls, i + 1, |old(env.log)|, env.log);
        return;
      }
      if achieved && calls[i].Get? {
        values := values[calls[i].address := source.value(calls[i].address)];
      }
      RanOne(calls, i, phase, |old(env.log)|, log, memory, results, env.log, dest.memory, values, achieved);
    }
    outcome := Finished;
  }

  // The calls that bring the parameters to safety, and to their values.
  function SafeCalls(params: seq<Param>): (calls: seq<Call>)
    ensures |calls| == |params|
  {
    seq(|params|, i requires 0 <= i < |params| => Set(params[i].address, params[i].safeValue))
  }

  function ValueCalls(params: seq<Param>, values: map<nat, int>): (calls: seq<Call>)
    requires Addresses(params) <= values.Keys
    ensures |calls| == |params|
  {
    seq(|params|, i requires 0 <= i < |params| =>
      assert params[i] in params;
      Set(params[i].address, values[params[i].address]))
  }

  ghost function FinalCalls(params: seq<Param>, source: Source): (calls: seq<Call>)
    ensures |calls| == |params|
  {
    seq(|params|, i requires 0 <= i < |params| => Set(params[i].address, source.value(params[i].address)))
  }

  // The reads for what the source does not have cached.
  function MissingReads(params: seq<Param>, values: map<nat, int>): seq<Call> {
    if params == [] then []
    else (if params[0].address in values then [] else [Get(params[0].address)]) + MissingReads(params[1..], values)
  }

  function CachedParams(params: seq<Param>, cached: set<nat>): seq<Param> {
    if params == [] then []
    else (if params[0].address in cached then [params[0]] else []) + CachedParams(params[1..], cached)
  }

  // Every request of the phase was sent while the calls of an earlier phase
  // had their effect, except where they had been given up.
  ghost predicate SentAfter(log: seq<Event>, phase: Phase, calls: seq<Call>, earlier: Phase) {
    forall k | 0 <= k < |log| && log[k].Sent? && log[k].phase == phase ::
      Dealt(calls, |calls|, earlier, log[..k], log[k].memory, map[])
  }

  ghost predicate Reached(log: seq<Event>, phase: Phase) {
    exists e :: e in log && e.phase == phase
  }

  lemma DealtLater(calls: seq<Call>, phase: Phase, log: seq<Event>, memory: map<nat, int>, values: map<nat, int>,
                   log': seq<Event>, memory': map<nat, int>, written: set<nat>)
    requires Dealt(calls, |calls|, phase, log, memory, values)
    requires log <= log' && SameExcept(memory', memory, written)
    requires forall c <- calls :: c.Set? && c.address !in written
    ensures Dealt(calls, |calls|, phase, log', memory', map[])
  {
    forall i | 0 <= i < |calls|
      ensures GivenUp(phase, calls[i].address) in log' || Achieved(calls[i], memory', map[])
    {
      assert calls[i] in calls;
    }
  }

  lemma SentAfterPhase(calls: seq<Call>, earlier: Phase, log: seq<Event>, memory: map<nat, int>, values: map<nat, int>,
                       log': seq<Event>, phase: Phase, written: set<nat>)
    requires Dealt(calls, |calls|, earlier, log, memory, values)
    requires log <= log' && LoggedIn(log', |log|, phase, memory, written)
    requires forall c <- calls :: c.Set? && c.address !in written
    requires forall k | 0 <= k < |log| :: log[k].phase != phase
    ensures SentAfter(log', phase, calls, earlier)
  {
    forall k | 0 <= k < |log'| && log'[k].Sent? && log'[k].phase == phase
      ensures Dealt(calls, |calls|, earlier, log'[..k], log'[k].memory, map[])
    {
      DealtLater(calls, earlier, log, memory, values, log'[..k], log'[k].memory, written);
    }
  }

  lemma SentAfterExtends(log: seq<Event>, log': seq<Event>, phase: Phase, calls: seq<Call>, earlier: Phase)
    requires SentAfter(log, phase, calls, earlier)
    requires log <= log' && forall k | |log| <= k < |log'| :: log'[k].phase != phase
    ensures SentAfter(log', phase, calls, earlier)
  {
    forall k | 0 <= k < |log'| && log'[k].Sent? && log'[k].phase == phase
      ensures Dealt(calls, |calls|, earlier, log'[..k], log'[k].memory, map[])
    {
      assert log'[..k] == log[..k];
    }
  }

  // What a run of ApplyParameters promises, however it ended.
  ghost predicate Protected(log: seq<Event>, memory: map<nat, int>, criticals: seq<Param>, nonCriticals: seq<Param>,
                            source: Source)
  {
    // A non-critical request leaves only while the criticals are safe,
    && SentAfter(log, WriteOthers, SafeCalls(criticals), MakeSafe)
    // a critical one only while the others have their values,
    && SentAfter(log, WriteCriticals, FinalCalls(nonCriticals, source), WriteOthers)
    // and a run that got to the former but not to the latter leaves them safe.
    && (Reached(log, WriteOthers) && !Reached(log, WriteCriticals) ==>
          Dealt(SafeCalls(criticals), |criticals|, MakeSafe, log, memory, map[]))
  }

  // The destination has the value of every parameter whose write was not given up.
  ghost predicate Delivered(log: seq<Event>, memory: map<nat, int>, criticals: seq<Param>, nonCriticals: seq<Param>,
                            source: Source)
  {
    && Dealt(FinalCalls(nonCriticals, source), |nonCriticals|, WriteOthers, log, memory, map[])
    && Dealt(FinalCalls(criticals, source), |criticals|, WriteCriticals, log, memory, map[])
  }

  method CachedValues(source: Source, params: seq<Param>) returns (values: map<nat, int>)
    ensures values.Keys == Addresses(CachedParams(params, source.cached))
    ensures FromSource(values, source) && values.Keys <= Addresses(params)
    ensures forall p <- params :: p.address in source.cached <==> p.address in values
  {
    values := map[];
    for i := 0 to |params|
      invariant values.Keys <= Addresses(params)
      invariant values.Keys <= source.cached
      invariant forall j | 0 <= j < i :: params[j].address in source.cached ==> params[j].address in values
      invariant values.Keys == Addresses(CachedParams(params[..i], source.cached))
      invariant FromSource(values, source)
    {
      CachedParamsSplit(params[..i], params[i], source.cached);
      assert params[..i + 1] == params[..i] + [params[i]];
      if params[i].address in source.cached {
        values := values[params[i].address := source.value(params[i].address)];
      }
    }
    assert params[..|params|] == params;
  }

  lemma {:induction false} CachedParamsSplit(params: seq<Param>, p: Param, cached: set<nat>)
    ensures CachedParams(params + [p], cached) == CachedParams(params, cached) + if p.address in cached then [p] else []
  {
    if params == [] {
    } else {
      var first := if params[0].address in cached then [params[0]] else [];
      var last := if p.address in cached then [p] else [];
      assert (params + [p])[1..] == params[1..] + [p] && (params + [p])[0] == params[0];
      CachedParamsSplit(params[1..], p, cached);
      assert CachedParams(params + [p], cached) == first + (CachedParams(params[1..], cached) + last);
    }
  }

  lemma NoRepeatsSplit(p: Param, rest: seq<Param>)
    ensures NoRepeats([p] + rest) <==> p.address !in Addresses(rest) && NoRepeats(rest)
  {
    var params := [p] + rest;
    if NoRepeats(params) {
      forall q | q in rest ensures q.address != p.address {
        var j :| 0 <= j < |rest| && rest[j] == q;
        assert params[0].address != params[j + 1].address;
      }
      forall i, j | 0 <= i < j < |rest| ensures rest[i].address != rest[j].address {
        assert params[i + 1].address != params[j + 1].address;
      }
    } else if p.address !in Addresses(rest) {
      assert forall q <- rest :: q.address in Addresses(rest);
    }
  }

  lemma {:induction false} DistinctCount(params: seq<Param>)
    ensures |Addresses(params)| <= |params|
    ensures |Addresses(params)| == |params| <==> NoRepeats(params)
  {
    if params == [] {
    } else {
      hide NoRepeats;
      var p, rest := params[0], params[1..];
      DistinctCount(rest);
      NoRepeatsSplit(p, rest);
      assert params == [p] + rest;
      assert Addresses(params) == {p.address} + Addresses(rest);
      assert p.address in Addresses(rest) ==> Addresses(params) == Addresses(rest);
    }
  }

  lemma MissingReadsOf(params: seq<Param>, values: map<nat, int>, cached: set<nat>)
    requires forall p <- params :: p.address in cached <==> p.address in values
    ensures |MissingReads(params, values)| + |CachedParams(params, cached)| == |params|
    ensures forall p <- params :: p.address in values || Get(p.address) in MissingReads(params, values)
    ensures forall c <- MissingReads(params, values) ::
              c.Get? && c.address !in values && exists p <- params :: p.address == c.address
    ensures NoRepeats(params) ==> NoRepeatedCalls(MissingReads(params, values))
  {
    if params == [] {
    } else {
      MissingReadsOf(params[1..], values, cached);
    }
  }

  // The calls write exactly the parameters' addresses.
  ghost predicate Writes(calls: seq<Call>, params: seq<Param>) {
    |calls| == |params| && forall i | 0 <= i < |calls| :: calls[i].Set? && calls[i].address == params[i].address
  }

  lemma WrittenAddresses(calls: seq<Call>, params: seq<Param>)
    requires Writes(calls, params)
    ensures Written(calls) == Addresses(params)
    ensures NoRepeats(params) ==> NoRepeatedCalls(calls)
    ensures forall c <- calls :: c.Set? && c.address in Addresses(params)
  {
    forall a | a in Addresses(params) ensures a in Written(calls) {
      var i :| 0 <= i < |params| && params[i].address == a;
      assert calls[i] in calls;
    }
    forall c | c in calls ensures c.Set? && c.address in Addresses(params) {
      var i :| 0 <= i < |calls| && calls[i] == c;
      assert params[i] in params;
    }
  }

  lemma Distinct(nonCriticals: seq<Param>, criticals: seq<Param>)
    requires NoRepeats(nonCriticals + criticals)
    ensures NoRepeats(nonCriticals) && NoRepeats(criticals) && Addresses(nonCriticals) !! Addresses(criticals)
  {
    var params := nonCriticals + criticals;
    forall i, j | 0 <= i < |nonCriticals| && 0 <= j < |criticals|
      ensures nonCriticals[i].address != criticals[j].address
    {
      assert params[i].address != params[|nonCriticals| + j].address;
    }
    forall i, j | 0 <= i < j < |criticals| ensures criticals[i].address != criticals[j].address {
      assert params[|nonCriticals| + i].address != params[|nonCriticals| + j].address;
    }
    forall i, j | 0 <= i < j < |nonCriticals| ensures nonCriticals[i].address != nonCriticals[j].address {
      assert params[i].address != params[j].address;
    }
  }

  lemma SameExceptTransitive(m: map<nat, int>, n: map<nat, int>, o: map<nat, int>, except: set<nat>, more: set<nat>)
    requires SameExcept(m, n, except) && SameExcept(n, o, more) && except <= more
    ensures SameExcept(m, o, more)
  {
  }

  ghost function Rank(phase: Phase): nat {
    match phase
    case ReadSource => 0
    case MakeSafe => 1
    case WriteOthers => 2
    case WriteCriticals => 3
  }

  ghost predicate PhasesUpTo(log: seq<Event>, last: Phase) {
    forall k | 0 <= k < |log| :: Rank(log[k].phase) <= Rank(last)
  }

  // A read from the source was given up.
  ghost predicate ReadSkipped(log: seq<Event>) {
    exists e <- log :: e.GivenUp? && e.phase == ReadSource
  }

  lemma PhasesGrow(calls: seq<Call>, phase: Phase, log: seq<Event>, log': seq<Event>,
                   memory: map<nat, int>, memory': map<nat, int>, last: Phase)
    requires Touched(calls, phase, log, log', memory, memory') && PhasesUpTo(log, last) && Rank(last) < Rank(phase)
    ensures PhasesUpTo(log', phase)
    ensures ReadSkipped(log') <==> ReadSkipped(log)
  {
    if ReadSkipped(log') {
      var k :| 0 <= k < |log'| && log'[k].GivenUp? && log'[k].phase == ReadSource;
      assert k < |log|;
      assert log[k] in log;
    }
    if ReadSkipped(log) {
      var k :| 0 <= k < |log| && log[k].GivenUp? && log[k].phase == ReadSource;
      assert log'[k] in log';
    }
  }

  lemma EarlyIsProtected(log: seq<Event>, memory: map<nat, int>, criticals: seq<Param>, nonCriticals: seq<Param>,
                         source: Source)
    requires PhasesUpTo(log, MakeSafe)
    ensures Protected(log, memory, criticals, nonCriticals, source)
  {
    hide Dealt;
  }

  lemma OthersAreProtected(
    criticals: seq<Param>, nonCriticals: seq<Param>, source: Source, from: nat, values: map<nat, int>,
    log: seq<Event>, memory: map<nat, int>, log': seq<Event>, memory': map<nat, int>)
    requires NoRepeats(nonCriticals + criticals) && PhasesUpTo(log, MakeSafe)
    requires RanThrough(SafeCalls(criticals), |criticals|, MakeSafe, from, log, memory, values)
    requires Touched(FinalCalls(nonCriticals, source), WriteOthers, log, log', memory, memory')
    ensures Protected(log', memory', criticals, nonCriticals, source)
    ensures Dealt(SafeCalls(criticals), |criticals|, MakeSafe, log', memory', map[])
  {
    hide Dealt, SkipsLeaveNoValue, SameExcept, SafeCalls, FinalCalls, NoRepeats, NoRepeatedCalls, Written, Addresses;
    var safe, final := SafeCalls(criticals), FinalCalls(nonCriticals, source);
    Distinct(nonCriticals, criticals);
    CallsWrite(criticals, source);
    CallsWrite(nonCriticals, source);
    WrittenAddresses(safe, criticals);
    WrittenAddresses(final, nonCriticals);
    DealtIgnoresValues(safe, MakeSafe, log, memory, values);
    SentAfterPhase(safe, MakeSafe, log, memory, values, log', WriteOthers, Written(final));
    DealtLater(safe, MakeSafe, log, memory, values, log', memory', Written(final));
  }

  lemma CallsWrite(params: seq<Param>, source: Source)
    ensures Writes(SafeCalls(params), params) && Writes(FinalCalls(params, source), params)
  {
  }

  lemma DealtIgnoresValues(calls: seq<Call>, phase: Phase, log: seq<Event>, memory: map<nat, int>,
                           values: map<nat, int>)
    requires Dealt(calls, |calls|, phase, log, memory, values) && forall c <- calls :: c.Set?
    ensures Dealt(calls, |calls|, phase, log, memory, map[])
  {
    DealtLater(calls, phase, log, memory, values, log, memory, {});
  }

  lemma CriticalsAreProtected(
    criticals: seq<Param>, nonCriticals: seq<Param>, source: Source, from: nat, values: map<nat, int>,
    log: seq<Event>, memory: map<nat, int>, log': seq<Event>, memory': map<nat, int>)
    requires NoRepeats(nonCriticals + criticals) && PhasesUpTo(log, WriteOthers)
    requires Protected(log, memory, criticals, nonCriticals, source)
    requires RanThrough(FinalCalls(nonCriticals, source), |nonCriticals|, WriteOthers, from, log, memory, values)
    requires Touched(FinalCalls(criticals, source), WriteCriticals, log, log', memory, memory')
    requires criticals != [] ==> |log| < |log'|
    ensures Protected(log', memory', criticals, nonCriticals, source)
    ensures Dealt(FinalCalls(nonCriticals, source), |nonCriticals|, WriteOthers, log', memory', map[])
  {
    hide Dealt, SkipsLeaveNoValue, SameExcept, SafeCalls, FinalCalls, NoRepeats, NoRepeatedCalls, Written, Addresses;
    var safe, others, final := SafeCalls(criticals), FinalCalls(nonCriticals, source), FinalCalls(criticals, source);
    Distinct(nonCriticals, criticals);
    CallsWrite(criticals, source);
    CallsWrite(nonCriticals, source);
    WrittenAddresses(others, nonCriticals);
    WrittenAddresses(final, criticals);
    SentAfterPhase(others, WriteOthers, log, memory, values, log', WriteCriticals, Written(final));
    SentAfterExtends(log, log', WriteOthers, safe, MakeSafe);
    DealtLater(others, WriteOthers, log, memory, values, log', memory', Written(final));
    if criticals != [] {
      assert log'[|log|] in log';
    } else {
      NoneDealt(safe, MakeSafe, log', memory');
    }
  }

  lemma NoneDealt(calls: seq<Call>, phase: Phase, log: seq<Event>, memory: map<nat, int>)
    ensures Dealt(calls, 0, phase, log, memory, map[])
  {
  }

  // After the reads, a value is missing exactly where the read was given up.
  lemma ReadsLeaveGaps(params: seq<Param>, cached: map<nat, int>, log: seq<Event>, memory: map<nat, int>,
                       results: map<nat, int>)
    requires NoRepeats(params) && cached.Keys <= Addresses(params) && PhasesUpTo(log, ReadSource)
    requires RanThrough(MissingReads(params, cached), |MissingReads(params, cached)|, ReadSource, 0, log, memory,
               results)
    ensures ReadSkipped(log) <==> !(Addresses(params) <= (cached + results).Keys)
  {
    hide MissingReads, CachedParams, Written, NoRepeats, NoRepeatedCalls, Addresses, ReadSkipped;
    var gets := MissingReads(params, cached);
    MissingReadsOf(params, cached, cached.Keys);
    assert gets[..|gets|] == gets;
    if forall k | 0 <= k < |log| :: log[k].Sent? {
      NoneSkipped(log);
      forall a | a in Addresses(params) ensures a in cached || a in results {
        AddressOf(params, a);
        assert a !in cached ==> Get(a) in gets;
      }
    } else {
      var k :| 0 <= k < |log| && log[k].GivenUp?;
      OneSkipped(log, k);
      var c :| c in gets && c.address == log[k].address;
      AddressOf(params, c.address);
    }
  }

  lemma AddressOf(params: seq<Param>, a: nat)
    ensures a in Addresses(params) <==> exists p <- params :: p.address == a
  {
  }

  lemma NoneSkipped(log: seq<Event>)
    requires forall k | 0 <= k < |log| :: log[k].Sent?
    ensures !ReadSkipped(log)
  {
  }

  lemma OneSkipped(log: seq<Event>, k: nat)
    requires k < |log| && log[k].GivenUp? && log[k].phase == ReadSource
    ensures ReadSkipped(log)
  {
    assert log[k] in log;
  }

  lemma ReadsTouchNothing(calls: seq<Call>, log: seq<Event>, memory: map<nat, int>, memory': map<nat, int>)
    requires Touched(calls, ReadSource, [], log, memory, memory') && forall c <- calls :: c.Get?
    ensures SameExcept(memory', memory, {}) && PhasesUpTo(log, ReadSource)
  {
  }

  // The memory stays the same outside the parameters' addresses.
  lemma OnlyParameters(calls: seq<Call>, phase: Phase, log: seq<Event>, log': seq<Event>, memory: map<nat, int>,
                       memory': map<nat, int>, before: map<nat, int>, some: seq<Param>, params: seq<Param>)
    requires Touched(calls, phase, log, log', memory, memory') && Writes(calls, some)
    requires SameExcept(memory, before, Addresses(params)) && Addresses(some) <= Addresses(params)
    ensures SameExcept(memory', before, Addresses(params))
  {
    WrittenAddresses(calls, some);
    SameExceptTransitive(memory', memory, before, Addresses(some), Addresses(params));
  }

  lemma AddressesSplit(nonCriticals: seq<Param>, criticals: seq<Param>)
    ensures Addresses(nonCriticals + criticals) == Addresses(nonCriticals) + Addresses(criticals)
  {
  }

  lemma ValueCallsAreFinal(params: seq<Param>, values: map<nat, int>, source: Source)
    requires Addresses(params) <= values.Keys && FromSource(values, source)
    ensures ValueCalls(params, values) == FinalCalls(params, source)
  {
  }

  // The requests a run needs when none fails.
  ghost function Requests(source: Source, criticals: seq<Param>, nonCriticals: seq<Param>): int {
    2 * |nonCriticals| + 3 * |criticals| - |CachedParams(nonCriticals + criticals, source.cached)|
  }

  lemma AtStart(memory: map<nat, int>, criticals: seq<Param>, nonCriticals: seq<Param>, source: Source)
    ensures Protected([], memory, criticals, nonCriticals, source) && NothingGivenUp([]) &&
            SameExcept(memory, memory, {})
    ensures SameExcept(memory, memory, Addresses(nonCriticals + criticals))
  {
  }

  lemma FromBoth(values: map<nat, int>, results: map<nat, int>, source: Source)
    requires FromSource(values, source) && FromSource(results, source)
    ensures FromSource(values + results, source)
  {
  }

  lemma SafeIsDealt(criticals: seq<Param>, nonCriticals: seq<Param>, from: nat, log: seq<Event>, memory: map<nat, int>,
                    values: map<nat, int>)
    requires NoRepeats(nonCriticals + criticals)
    requires RanThrough(SafeCalls(criticals), |criticals|, MakeSafe, from, log, memory, values)
    ensures Dealt(SafeCalls(criticals), |criticals|, MakeSafe, log, memory, map[])
  {
    hide Dealt, SkipsLeaveNoValue, NoRepeats, NoRepeatedCalls;
    Distinct(nonCriticals, criticals);
    WrittenAddresses(SafeCalls(criticals), criticals);
    DealtIgnoresValues(SafeCalls(criticals), MakeSafe, log, memory, values);
  }

  lemma CriticalsAreDelivered(criticals: seq<Param>, nonCriticals: seq<Param>, source: Source, from: nat,
                              log: seq<Event>, memory: map<nat, int>, values: map<nat, int>)
    requires NoRepeats(nonCriticals + criticals)
    requires RanThrough(FinalCalls(criticals, source), |criticals|, WriteCriticals, from, log, memory, values)
    requires Dealt(FinalCalls(nonCriticals, source), |nonCriticals|, WriteOthers, log, memory, map[])
    ensures Delivered(log, memory, criticals, nonCriticals, source)
  {
    hide Dealt, SkipsLeaveNoValue, NoRepeats, NoRepeatedCalls;
    Distinct(nonCriticals, criticals);
    WrittenAddresses(FinalCalls(criticals, source), criticals);
    DealtIgnoresValues(FinalCalls(criticals, source), WriteCriticals, log, memory, values);
  }

  // The first two thirds of a run's promises, and that everything read is there.
  ghost predicate Started(log: seq<Event>, params: seq<Param>, values: map<nat, int>, source: Source) {
    && PhasesUpTo(log, ReadSource)
    && FromSource(values, source)
    && (NoRepeats(params) ==> (ReadSkipped(log) <==> !(Addresses(params) <= values.Keys)))
  }

  // Reads what the source does not have cached.
  method ReadRemaining(source: Source, dest: Device, params: seq<Param>, cached: map<nat, int>, env: Environment,
                       progress: ProgressUpdate)
    returns (outcome: Outcome, values: map<nat, int>)
    requires env.Valid() && env.log == [] && progress.current + |MissingReads(params, cached)| <= progress.total
    requires FromSource(cached, source) && cached.Keys <= Addresses(params)
    modifies dest`memory, env, progress`current
    ensures env.Valid() && outcome in {Finished, Closed, Waiting}
    ensures SameExcept(dest.memory, old(dest.memory), {}) && PhasesUpTo(env.log, ReadSource)
    ensures outcome == Finished ==> Started(env.log, params, values, source)
    ensures progress.current <= old(progress.current) + |MissingReads(params, cached)|
    ensures outcome == Finished && NothingGivenUp(env.log) ==>
              progress.current == old(progress.current) + |MissingReads(params, cached)|
    ensures progress.current - old(progress.current)
                 == Successes(env.talks, env.next) - old(Successes(env.talks, env.next))
    ensures outcome == Waiting ==>
              env.next == |env.talks| && progress.current < old(progress.current) + |MissingReads(params, cached)|
    ensures Heard(env.talks, old(env.next), env.next, old(env.log), env.log, outcome)
    ensures env.Cooperative() ==> outcome != Closed && NothingGivenUp(env.log)
  {
    hide SameExcept, Written, Addresses, MissingReads, CachedParams, NoRepeats, Touched, RanThrough, ReadSkipped,
      NothingGivenUp, PhasesUpTo, FromSource, Successes, Heard;
    AtStart(dest.memory, params, [], source);
    MissingReadsOf(params, cached, cached.Keys);
    outcome, values := RunCallables(source, dest, ReadSource, MissingReads(params, cached), env, progress);
    ReadsTouchNothing(MissingReads(params, cached), env.log, old(dest.memory), dest.memory);
    if outcome == Finished && NoRepeats(params) {
      ReadsLeaveGaps(params, cached, env.log, dest.memory, values);
    }
    FromBoth(cached, values, source);
    values := cached + values;
  }

  // Whatever the outcome, only the parameters' addresses change, and the
  // phases protect each other.
  ghost predicate Kept(log: seq<Event>, memory: map<nat, int>, before: map<nat, int>, criticals: seq<Param>,
                       nonCriticals: seq<Param>, source: Source)
  {
    && SameExcept(memory, before, Addresses(nonCriticals + criticals))
    && (NoRepeats(nonCriticals + criticals) ==> Protected(log, memory, criticals, nonCriticals, source))
  }

  // A value turned out to be missing: its read was given up, and the criticals
  // are left safe.
  ghost predicate StoppedSafely(log: seq<Event>, memory: map<nat, int>, criticals: seq<Param>,
                                nonCriticals: seq<Param>) {
    NoRepeats(nonCriticals + criticals) ==>
      ReadSkipped(log) && Dealt(SafeCalls(criticals), |criticals|, MakeSafe, log, memory, map[])
  }

  // All three phases are through.
  ghost predicate Completed(log: seq<Event>, memory: map<nat, int>, criticals: seq<Param>, nonCriticals: seq<Param>,
                            source: Source)
  {
    NoRepeats(nonCriticals + criticals) ==>
      !ReadSkipped(log) && Delivered(log, memory, criticals, nonCriticals, source)
  }

  lemma SafeStage(
    criticals: seq<Param>, nonCriticals: seq<Param>, source: Source, before: map<nat, int>, log: seq<Event>,
    memory: map<nat, int>, log': seq<Event>, memory': map<nat, int>)
    requires PhasesUpTo(log, ReadSource) && SameExcept(memory, before, Addresses(nonCriticals + criticals))
    requires Touched(SafeCalls(criticals), MakeSafe, log, log', memory, memory')
    ensures PhasesUpTo(log', MakeSafe) && (ReadSkipped(log') <==> ReadSkipped(log))
    ensures Kept(log', memory', before, criticals, nonCriticals, source)
  {
    hide Protected, SameExcept, Addresses, NoRepeats, Touched, ReadSkipped, SafeCalls, Writes;
    var params := nonCriticals + criticals;
    AddressesSplit(nonCriticals, criticals);
    CallsWrite(criticals, source);
    PhasesGrow(SafeCalls(criticals), MakeSafe, log, log', memory, memory', ReadSource);
    OnlyParameters(SafeCalls(criticals), MakeSafe, log, log', memory, memory', before, criticals, params);
    EarlyIsProtected(log', memory', criticals, nonCriticals, source);
  }

  lemma OthersStage(
    criticals: seq<Param>, nonCriticals: seq<Param>, source: Source, before: map<nat, int>, from: nat,
    values: map<nat, int>, log: seq<Event>, memory: map<nat, int>, log': seq<Event>, memory': map<nat, int>)
    requires PhasesUpTo(log, MakeSafe) && Kept(log, memory, before, criticals, nonCriticals, source)
    requires RanThrough(SafeCalls(criticals), |criticals|, MakeSafe, from, log, memory, values)
    requires Touched(FinalCalls(nonCriticals, source), WriteOthers, log, log', memory, memory')
    ensures PhasesUpTo(log', WriteOthers) && (ReadSkipped(log') <==> ReadSkipped(log))
    ensures Kept(log', memory', before, criticals, nonCriticals, source)
    ensures (NoRepeats(nonCriticals + criticals) ==> ReadSkipped(log)) ==>
              StoppedSafely(log', memory', criticals, nonCriticals)
  {
    hide Protected, Dealt, SameExcept, Addresses, NoRepeats, Touched, RanThrough, ReadSkipped, SafeCalls, FinalCalls;
    hide Writes;
    var params := nonCriticals + criticals;
    AddressesSplit(nonCriticals, criticals);
    CallsWrite(nonCriticals, source);
    PhasesGrow(FinalCalls(nonCriticals, source), WriteOthers, log, log', memory, memory', MakeSafe);
    OnlyParameters(FinalCalls(nonCriticals, source), WriteOthers, log, log', memory, memory', before, nonCriticals,
                   params);
    if NoRepeats(params) {
      OthersAreProtected(criticals, nonCriticals, source, from, values, log, memory, log', memory');
    }
  }

  lemma CriticalsStage(
    criticals: seq<Param>, nonCriticals: seq<Param>, source: Source, before: map<nat, int>, from: nat,
    values: map<nat, int>, log: seq<Event>, memory: map<nat, int>, log': seq<Event>, memory': map<nat, int>,
    results: map<nat, int>, finished: bool)
    requires PhasesUpTo(log, WriteOthers) && Kept(log, memory, before, criticals, nonCriticals, source)
    requires RanThrough(FinalCalls(nonCriticals, source), |nonCriticals|, WriteOthers, from, log, memory, values)
    requires Touched(FinalCalls(criticals, source), WriteCriticals, log, log', memory, memory')
    requires criticals != [] ==> |log| < |log'|
    requires finished ==>
               RanThrough(FinalCalls(criticals, source), |criticals|, WriteCriticals, |log|, log', memory', results)
    ensures Kept(log', memory', before, criticals, nonCriticals, source)
    ensures finished && (NoRepeats(nonCriticals + criticals) ==> !ReadSkipped(log)) ==>
              Completed(log', memory', criticals, nonCriticals, source)
  {
    hide Protected, Dealt, Delivered, SameExcept, Addresses, NoRepeats, Touched, RanThrough, ReadSkipped, SafeCalls;
    hide FinalCalls, Writes;
    var params := nonCriticals + criticals;
    AddressesSplit(nonCriticals, criticals);
    CallsWrite(criticals, source);
    PhasesGrow(FinalCalls(criticals, source), WriteCriticals, log, log', memory, memory', WriteOthers);
    OnlyParameters(FinalCalls(criticals, source), WriteCriticals, log, log', memory, memory', before, criticals,
                   params);
    if NoRepeats(params) {
      CriticalsAreProtected(criticals, nonCriticals, source, from, values, log, memory, log', memory');
      if finished {
        CriticalsAreDelivered(criticals, nonCriticals, source, |log|, log', memory', results);
      }
    }
  }

  lemma SafelyStopped(criticals: seq<Param>, nonCriticals: seq<Param>, from: nat, log: seq<Event>,
                      memory: map<nat, int>, values: map<nat, int>)
    requires NoRepeats(nonCriticals + criticals) ==> ReadSkipped(log)
    requires RanThrough(SafeCalls(criticals), |criticals|, MakeSafe, from, log, memory, values)
    ensures StoppedSafely(log, memory, criticals, nonCriticals)
  {
    hide Dealt, NoRepeats, RanThrough, SafeCalls, ReadSkipped;
    if NoRepeats(nonCriticals + criticals) {
      SafeIsDealt(criticals, nonCriticals, from, log, memory, values);
    }
  }

  lemma GapsMeanSkipped(log: seq<Event>, criticals: seq<Param>, nonCriticals: seq<Param>, values: map<nat, int>,
                        source: Source)
    requires Started(log, nonCriticals + criticals, values, source)
    ensures NoRepeats(nonCriticals + criticals) ==>
              (ReadSkipped(log) <==> !(Addresses(nonCriticals) <= values.Keys && Addresses(criticals) <= values.Keys))
  {
    hide NoRepeats, ReadSkipped, Addresses;
    AddressesSplit(nonCriticals, criticals);
  }

  // The three write phases.
  method WriteAll(source: Source, dest: Device, criticals: seq<Param>, nonCriticals: seq<Param>, values: map<nat, int>,
                  env: Environment, progress: ProgressUpdate)
    returns (outcome: Outcome)
    requires env.Valid() && progress.current + |nonCriticals| + 2 * |criticals| <= progress.total
    requires Started(env.log, nonCriticals + criticals, values, source)
    modifies dest`memory, env, progress`current
    ensures env.Valid() && outcome in {Finished, Closed, Waiting, MissingValue}
    ensures Kept(env.log, dest.memory, old(dest.memory), criticals, nonCriticals, source)
    ensures outcome == MissingValue ==> StoppedSafely(env.log, dest.memory, criticals, nonCriticals)
    ensures outcome == Finished ==> Completed(env.log, dest.memory, criticals, nonCriticals, source)
    ensures progress.current <= old(progress.current) + |nonCriticals| + 2 * |criticals|
    ensures outcome == Finished && NothingGivenUp(env.log) ==>
              progress.current == old(progress.current) + |nonCriticals| + 2 * |criticals|
    ensures progress.current - old(progress.current)
                 == Successes(env.talks, env.next) - old(Successes(env.talks, env.next))
    ensures outcome == Waiting ==>
              env.next == |env.talks| && progress.current < old(progress.current) + |nonCriticals| + 2 * |criticals|
    ensures Heard(env.talks, old(env.next), env.next, old(env.log), env.log, outcome)
    ensures env.Cooperative() && old(NothingGivenUp(env.log)) ==> outcome != Closed && NothingGivenUp(env.log)
    ensures NothingGivenUp(env.log) ==> old(NothingGivenUp(env.log))
  {
    hide Kept, StoppedSafely, Completed, SameExcept, Addresses, NoRepeats, Touched, RanThrough,
      ReadSkipped, NothingGivenUp, PhasesUpTo, FromSource, SafeCalls, FinalCalls, ValueCalls, Successes, Heard;
    ghost var first, start := env.next, env.log;
    ghost var before, log, memory := dest.memory, env.log, dest.memory;
    AtStart(before, criticals, nonCriticals, source);
    GapsMeanSkipped(log, criticals, nonCriticals, values, source);
    var results;
    outcome, results := RunCallables(source, dest, MakeSafe, SafeCalls(criticals), env, progress);
    SafeStage(criticals, nonCriticals, source, before, log, memory, env.log, dest.memory);
    if outcome != Finished {
      return;
    }
    if !(Addresses(nonCriticals) <= values.Keys) {
      SafelyStopped(criticals, nonCriticals, |log|, env.log, dest.memory, results);
      HeardOut(env.talks, first, env.next, start, env.log);
      outcome := MissingValue;
      return;
    }
    ghost var next, safeFrom, safeResults := env.next, |log|, results;
    log, memory := env.log, dest.memory;
    ValueCallsAreFinal(nonCriticals, values, source);
    outcome, results := RunCallables(source, dest, WriteOthers, ValueCalls(nonCriticals, values), env, progress);
    OthersStage(criticals, nonCriticals, source, before, safeFrom, safeResults, log, memory, env.log, dest.memory);
    HeardBoth(env.talks, first, next, env.next, start, log, env.log, outcome);
    if outcome != Finished {
      return;
    }
    if !(Addresses(criticals) <= values.Keys) {
      HeardOut(env.talks, first, env.next, start, env.log);
      outcome := MissingValue;
      return;
    }
    next := env.next;
    ghost var othersFrom, othersResults := |log|, results;
    log, memory := env.log, dest.memory;
    ValueCallsAreFinal(criticals, values, source);
    outcome, results := RunCallables(source, dest, WriteCriticals, ValueCalls(criticals, values), env, progress);
    CriticalsStage(criticals, nonCriticals, source, before, othersFrom, othersResults, log, memory, env.log,
                   dest.memory, results, outcome == Finished);
    HeardBoth(env.talks, first, next, env.next, start, log, env.log, outcome);
  }

  method ApplyParameters(source: Source, dest: Device, criticals: seq<Param>, nonCriticals: seq<Param>,
                         env: Environment)
    returns (outcome: Outcome, current: nat, total: nat)
    requires env.Valid()
    modifies dest`memory, env
    ensures env.Valid()
    ensures outcome == IdcConflict <==> source.idc != dest.idc
    ensures outcome == IdcConflict ==> env.log == [] && dest.memory == old(dest.memory)
    ensures Kept(env.log, dest.memory, old(dest.memory), criticals, nonCriticals, source)
    ensures outcome == MissingValue ==> StoppedSafely(env.log, dest.memory, criticals, nonCriticals)
    ensures outcome == Finished ==> Completed(env.log, dest.memory, criticals, nonCriticals, source)
    ensures current <= total
    ensures outcome == Finished && NothingGivenUp(env.log) ==>
              (current == total <==> NoRepeats(CachedParams(nonCriticals + criticals, source.cached)))
    // It ends where the environment ends it, and not before.
    ensures outcome != IdcConflict && env.closedAtStart ==>
              outcome == Closed && env.log == [] && env.next == old(env.next) && dest.memory == old(dest.memory)
    ensures outcome != IdcConflict && !env.closedAtStart ==>
              || (Heard(env.talks, old(env.next), env.next, [], env.log, outcome) &&
                  (outcome == Finished ==> !env.closedAtEnd))
              || (&& outcome == Closed && env.closedAtEnd
                  && Heard(env.talks, old(env.next), env.next, [], env.log, Finished)
                  && Completed(env.log, dest.memory, criticals, nonCriticals, source))
    ensures env.Cooperative() && source.idc == dest.idc ==>
              && NothingGivenUp(env.log) && outcome != Closed
              && (outcome == Waiting ==> Successes(env.talks, |env.talks|) - old(Successes(env.talks, env.next))
                                           < Requests(source, criticals, nonCriticals))
  {
    hide Kept, StoppedSafely, Completed, SameExcept, Addresses, NoRepeats, MissingReads, CachedParams, Started;
    hide NothingGivenUp, PhasesUpTo, FromSource, Successes, Heard;
    env.log := [];
    current, total := 0, 0;
    NothingYet(dest.memory, criticals, nonCriticals, source);
    if source.idc != dest.idc {
      outcome := IdcConflict;
      return;
    }
    var params := nonCriticals + criticals;
    var values := CachedValues(source, params);
    DistinctCount(CachedParams(params, source.cached));
    MissingReadsOf(params, values, source.cached);
    total := |nonCriticals| + |criticals| - |values| + |nonCriticals| + 2 * |criticals|;
    var progress := new ProgressUpdate(total);
    if env.closedAtStart {
      outcome := Closed;
      return;
    }
    ghost var before := dest.memory;
    outcome, values := ReadRemaining(source, dest, params, values, env, progress);
    current := progress.current;
    OnlyRead(env.log, dest.memory, before, criticals, nonCriticals, source);
    if outcome != Finished {
      return;
    }
    ghost var memory, next, log := dest.memory, env.next, env.log;
    outcome := WriteAll(source, dest, criticals, nonCriticals, values, env, progress);
    HeardBoth(env.talks, old(env.next), next, env.next, [], log, env.log, outcome);
    current := progress.current;
    KeptSince(env.log, dest.memory, memory, before, criticals, nonCriticals, source);
    if outcome == Finished && env.closedAtEnd {
      outcome := Closed;
    }
  }

  lemma NothingYet(memory: map<nat, int>, criticals: seq<Param>, nonCriticals: seq<Param>, source: Source)
    ensures Kept([], memory, memory, criticals, nonCriticals, source) && NothingGivenUp([])
  {
    AtStart(memory, criticals, nonCriticals, source);
  }

  lemma OnlyRead(log: seq<Event>, memory: map<nat, int>, before: map<nat, int>, criticals: seq<Param>,
                 nonCriticals: seq<Param>, source: Source)
    requires PhasesUpTo(log, ReadSource) && SameExcept(memory, before, {})
    ensures Kept(log, memory, before, criticals, nonCriticals, source)
  {
    hide Protected;
    EarlyIsProtected(log, memory, criticals, nonCriticals, source);
  }

  lemma KeptSince(log: seq<Event>, memory: map<nat, int>, between: map<nat, int>, before: map<nat, int>,
                  criticals: seq<Param>, nonCriticals: seq<Param>, source: Source)
    requires Kept(log, memory, between, criticals, nonCriticals, source) && SameExcept(between, before, {})
    ensures Kept(log, memory, before, criticals, nonCriticals, source)
  {
    hide Protected;
  }

  // Protection, parameter by parameter.
  lemma SafeWhileOthersAreWritten(log: seq<Event>, memory: map<nat, int>, criticals: seq<Param>,
                                  nonCriticals: seq<Param>, source: Source, k: nat, p: Param)
    requires Protected(log, memory, criticals, nonCriticals, source)
    requires k < |log| && log[k].Sent?
    ensures log[k].phase == WriteOthers && p in criticals ==>
              GivenUp(MakeSafe, p.address) in log[..k] || Read(log[k].memory, p.address) == Some(p.safeValue)
    ensures log[k].phase == WriteCriticals && p in nonCriticals ==>
              GivenUp(WriteOthers, p.address) in log[..k] ||
                Read(log[k].memory, p.address) == Some(source.value(p.address))
  {
    if log[k].phase == WriteOthers && p in criticals {
      var i :| 0 <= i < |criticals| && criticals[i] == p;
      assert SafeCalls(criticals)[i] == Set(p.address, p.safeValue);
    }
    if log[k].phase == WriteCriticals && p in nonCriticals {
      var i :| 0 <= i < |nonCriticals| && nonCriticals[i] == p;
      assert FinalCalls(nonCriticals, source)[i] == Set(p.address, source.value(p.address));
    }
  }

  lemma SafeAfterAnAbort(log: seq<Event>, memory: map<nat, int>, criticals: seq<Param>, nonCriticals: seq<Param>,
                         source: Source, p: Param)
    requires Protected(log, memory, criticals, nonCriticals, source) && p in criticals
    requires Reached(log, WriteOthers) && !Reached(log, WriteCriticals)
    ensures GivenUp(MakeSafe, p.address) in log || Read(memory, p.address) == Some(p.safeValue)
  {
    var i :| 0 <= i < |criticals| && criticals[i] == p;
    assert SafeCalls(criticals)[i] == Set(p.address, p.safeValue);
  }

  // A run in which nothing was given up makes the destination equal to the source.
  lemma CompletedCopies(log: seq<Event>, memory: map<nat, int>, criticals: seq<Param>, nonCriticals: seq<Param>,
                        source: Source, p: Param)
    requires NoRepeats(nonCriticals + criticals) && Completed(log, memory, criticals, nonCriticals, source)
    requires NothingGivenUp(log) && p in nonCriticals + criticals
    ensures Read(memory, p.address) == Some(source.value(p.address))
  {
    if p in nonCriticals {
      var i :| 0 <= i < |nonCriticals| && nonCriticals[i] == p;
      assert FinalCalls(nonCriticals, source)[i] == Set(p.address, source.value(p.address));
    } else {
      var i :| 0 <= i < |criticals| && criticals[i] == p;
      assert FinalCalls(criticals, source)[i] == Set(p.address, source.value(p.address));
    }
  }

  // So without a read given up no value turns out to be missing.
  lemma NothingMissing(log: seq<Event>, memory: map<nat, int>, criticals: seq<Param>, nonCriticals: seq<Param>)
    requires NoRepeats(nonCriticals + criticals) && NothingGivenUp(log)
    ensures !StoppedSafely(log, memory, criticals, nonCriticals)
  {
  }

  // apply_device_config: the extensions follow the parameters, and only then.
  method ApplyDeviceConfig(idcConflict: bool, source: Source, dest: Device, criticals: seq<Param>,
                           nonCriticals: seq<Param>, env: Environment)
    returns (outcome: Outcome)
    requires env.Valid()
    modifies dest, env
    ensures outcome == IdcConflict <==> idcConflict || source.idc != dest.idc
    ensures outcome == IdcConflict ==> dest.memory == old(dest.memory)
    ensures outcome == Finished ==> Completed(env.log, dest.memory, criticals, nonCriticals, source)
    ensures outcome != IdcConflict ==> Kept(env.log, dest.memory, old(dest.memory), criticals, nonCriticals, source)
    ensures dest.extensions == old(dest.extensions) + if outcome == Finished then source.extensions else map[]
  {
    hide Kept, StoppedSafely, Completed;
    if idcConflict {
      outcome := IdcConflict;
      return;
    }
    var current, total;
    outcome, current, total := ApplyParameters(source, dest, criticals, nonCriticals, env);
    if outcome != Finished {
      return;
    }
    CopyExtensions(source, dest);
  }

  method CopyExtensions(source: Source, dest: Device)
    modifies dest`extensions
    ensures dest.extensions == old(dest.extensions) + source.extensions
  {
    var names := source.extensions.Keys;
    while names != {}
      invariant names <= source.extensions.Keys
      invariant dest.extensions == old(dest.extensions) + (source.extensions - names)
      decreases |names|
    {
      var name :| name in names;
      dest.SetExtension(name, source.extensions[name]);
      names := names - {name};
    }
  }
}
