/** Futures of the client (src/client/mesycontrol/future.py). */
module Futures {
  import opened Messages

  // A done-callback: a function that, when it runs, registers some further
  // callbacks on the same future.
  datatype Callback = Callback(id: nat, adds: seq<Callback>)

  // The order in which callbacks run: a callback registered by another one
  // runs at once, before those that were registered earlier.
  ghost function Trace(callbacks: seq<Callback>): seq<nat> {
    if callbacks == [] then []
    else [callbacks[0].id] + Trace(callbacks[0].adds) + Trace(callbacks[1..])
  }

  lemma {:induction false} TraceJoins(a: seq<Callback>, b: seq<Callback>)
    ensures Trace(a + b) == Trace(a) + Trace(b)
    decreases |a|
  {
    if a == [] {
      assert a + b == b;
    } else {
      assert (a + b)[1..] == a[1..] + b;
      TraceJoins(a[1..], b);
    }
  }

  lemma TraceOne(c: Callback)
    ensures Trace([c]) == [c.id] + Trace(c.adds)
  {
    assert [c][1..] == [];
  }

  // All callbacks that run, and how often.
  ghost function Everyone(callbacks: seq<Callback>): multiset<nat> {
    if callbacks == [] then multiset{}
    else multiset{callbacks[0].id} + Everyone(callbacks[0].adds) + Everyone(callbacks[1..])
  }

  // Each runs once; the one registered first runs first, and what it registers
  // runs next, before those registered after it.
  lemma {:induction false} EachRunsOnce(callbacks: seq<Callback>)
    ensures multiset(Trace(callbacks)) == Everyone(callbacks)
    ensures callbacks != [] ==>
              var first, inner := callbacks[0], Trace(callbacks[0].adds);
              && Trace(callbacks)[0] == first.id && 1 + |inner| <= |Trace(callbacks)|
              && Trace(callbacks)[1..1 + |inner|] == inner
              && Trace(callbacks)[1 + |inner|..] == Trace(callbacks[1..])
    decreases callbacks
  {
    if callbacks == [] {
    } else {
      EachRunsOnce(callbacks[0].adds);
      EachRunsOnce(callbacks[1..]);
    }
  }

  // Values and exceptions are opaque; a result may be Python's None.
  class Future {
    var done: bool
    var running: bool
    var cancelled: bool
    var result: Option<int>
    var exception: Option<int>
    var callbacks: seq<Callback>

    // The callbacks that were registered, and those that ran.
    ghost var registered: seq<Callback>
    ghost var ran: seq<nat>

    // Callbacks run once, in the order of their registration and not before
    // the future is done.
    ghost predicate Valid()
      reads this
    {
      && (!done ==> callbacks == registered && ran == [] && result == None && exception == None && !cancelled)
      && (done ==> callbacks == [] && ran == Trace(registered))
      && (cancelled ==> result == None && exception == None)
    }

    constructor ()
      ensures Valid() && !done && !running && !cancelled && registered == []
    {
      done, running, cancelled, result, exception, callbacks := false, false, false, None, None, [];
      registered, ran := [], [];
    }

    // cancel()
    method Cancel() returns (ok: bool)
      requires Valid()
      modifies this
      ensures Valid() && registered == old(registered)
      ensures ok <==> !old(done) && !old(running)
      ensures ok ==> done && cancelled && !running
      ensures !ok ==> done == old(done) && running == old(running) && cancelled == old(cancelled)
      ensures result == old(result) && exception == old(exception)
    {
      if done || running {
        return false;
      }
      cancelled := true;
      SetDone();
      ok := true;
    }

    // set_result(); false is FutureIsDone.
    method SetResult(value: Option<int>) returns (ok: bool)
      requires Valid()
      modifies this
      ensures Valid() && registered == old(registered)
      ensures ok <==> !old(done)
      ensures ok ==> done && !running && result == value && exception == None && !cancelled
      ensures !ok ==> done && result == old(result) && exception == old(exception)
      ensures !ok ==> cancelled == old(cancelled) && running == old(running)
    {
      if done {
        return false;
      }
      result := value;
      SetDone();
      ok := true;
    }

    // set_exception()
    method SetException(error: int) returns (ok: bool)
      requires Valid()
      modifies this
      ensures Valid() && registered == old(registered)
      ensures ok <==> !old(done)
      ensures ok ==> done && !running && exception == Some(error) && result == None && !cancelled
      ensures !ok ==> done && result == old(result) && exception == old(exception)
      ensures !ok ==> cancelled == old(cancelled) && running == old(running)
    {
      if done {
        return false;
      }
      exception := Some(error);
      SetDone();
      ok := true;
    }

    // set_running_or_notify_cancel(): None stands for the exceptions. A future
    // that is done with the result None is not recognised as done.
    method SetRunningOrNotifyCancel() returns (r: Option<bool>)
      requires Valid()
      modifies `running
      ensures Valid()
      ensures r == None <==> old(running) || result.Some? || exception.Some?
      ensures r.Some? ==> r.value == !cancelled
      ensures running == (old(running) || (r.Some? && r.value))
      ensures !old(done && running) ==> (done && running <==> r.Some? && r.value && done)
    {
      if running || result.Some? || exception.Some? {
        return None;
      }
      if cancelled {
        return Some(false);
      }
      running := true;
      r := Some(true);
    }

    // add_done_callback()
    method AddDoneCallback(c: Callback, unique: bool)
      requires Valid()
      modifies `callbacks, `registered, `ran
      ensures Valid()
      ensures registered == old(registered) + if done || !unique || c !in old(callbacks) then [c] else []
      ensures done ==> ran == old(ran) + Trace([c])
    {
      if done {
        TraceJoins(registered, [c]);
        ExecCallback(c);
        registered := registered + [c];
      } else if !unique || c !in callbacks {
        callbacks := callbacks + [c];
        registered := registered + [c];
      }
    }

    // _set_done(), for a future that is not done.
    method SetDone()
      requires !done && callbacks == registered && ran == []
      modifies this
      ensures done && !running && callbacks == [] && registered == old(registered) && ran == Trace(registered)
      ensures cancelled == old(cancelled) && result == old(result) && exception == old(exception)
    {
      done := true;
      running := false;
      assert registered[..0] == [];
      for i := 0 to |callbacks|
        invariant done && !running && callbacks == registered == old(registered)
        invariant cancelled == old(cancelled) && result == old(result) && exception == old(exception)
        invariant ran == Trace(registered[..i])
      {
        assert registered[..i + 1] == registered[..i] + [callbacks[i]];
        TraceJoins(registered[..i], [callbacks[i]]);
        ExecCallback(callbacks[i]);
      }
      assert registered[..|registered|] == registered;
      callbacks := [];
    }

    // _exec_callback(), on a future that is done. What the callback raises is
    // logged; what it registers runs at once.
    method ExecCallback(c: Callback)
      modifies `ran
      ensures ran == old(ran) + Trace([c])
      decreases c
    {
      ran := ran + [c.id];
      ghost var before := ran;
      assert c.adds[..0] == [];
      for i := 0 to |c.adds|
        invariant ran == before + Trace(c.adds[..i])
      {
        assert c.adds[..i + 1] == c.adds[..i] + [c.adds[i]];
        TraceJoins(c.adds[..i], [c.adds[i]]);
        ExecCallback(c.adds[i]);
      }
      assert c.adds[..|c.adds|] == c.adds;
      TraceOne(c);
    }
  }

  // Those of the futures that are done, in order.
  function DoneAmong(futures: seq<nat>, done: set<nat>): seq<nat> {
    if futures == [] then []
    else (if futures[0] in done then [futures[0]] else []) + DoneAmong(futures[1..], done)
  }

  function ListedAmong(later: seq<nat>, futures: seq<nat>): seq<nat> {
    if later == [] then []
    else (if later[0] in futures then [later[0]] else []) + ListedAmong(later[1..], futures)
  }

  lemma DoneAmongSnoc(futures: seq<nat>, f: nat, done: set<nat>)
    ensures DoneAmong(futures + [f], done) == DoneAmong(futures, done) + if f in done then [f] else []
  {
    if futures != [] {
      assert (futures + [f])[1..] == futures[1..] + [f];
    }
  }

  lemma ListedAmongSnoc(later: seq<nat>, f: nat, futures: seq<nat>)
    ensures ListedAmong(later + [f], futures) == ListedAmong(later, futures) + if f in futures then [f] else []
  {
    if later != [] {
      assert (later + [f])[1..] == later[1..] + [f];
    }
  }

  // Both pick from left to right.
  lemma {:induction false} DonePicked(a: seq<nat>, b: seq<nat>, done: set<nat>)
    ensures DoneAmong(a + b, done) == DoneAmong(a, done) + DoneAmong(b, done)
    decreases |b|
  {
    hide DoneAmong;
    if b == [] {
      assert a + b == a;
      NonePicked(done, []);
    } else {
      var n := |b| - 1;
      assert a + b == (a + b[..n]) + [b[n]] && b == b[..n] + [b[n]];
      DonePicked(a, b[..n], done);
      DoneAmongSnoc(a + b[..n], b[n], done);
      DoneAmongSnoc(b[..n], b[n], done);
    }
  }

  lemma {:induction false} ListedPicked(a: seq<nat>, b: seq<nat>, futures: seq<nat>)
    ensures ListedAmong(a + b, futures) == ListedAmong(a, futures) + ListedAmong(b, futures)
    decreases |b|
  {
    hide ListedAmong;
    if b == [] {
      assert a + b == a;
      NonePicked({}, futures);
    } else {
      var n := |b| - 1;
      assert a + b == (a + b[..n]) + [b[n]] && b == b[..n] + [b[n]];
      ListedPicked(a, b[..n], futures);
      ListedAmongSnoc(a + b[..n], b[n], futures);
      ListedAmongSnoc(b[..n], b[n], futures);
    }
  }

  lemma NonePicked(done: set<nat>, futures: seq<nat>)
    ensures DoneAmong([], done) == [] && ListedAmong([], futures) == []
  {
  }

  lemma OnePicked(f: nat, done: set<nat>, futures: seq<nat>)
    ensures DoneAmong([f], done) == if f in done then [f] else []
    ensures ListedAmong([f], futures) == if f in futures then [f] else []
  {
  }

  // all_done(): some of the futures are done, the others become so in the
  // order 'later'. The callback is registered once on each of them.
  method AllDone(futures: seq<nat>, done: set<nat>, later: seq<nat>) returns (order: seq<nat>, completed: bool)
    ensures order == DoneAmong(futures, done) + ListedAmong(later, futures)
    ensures completed <==> |order| >= |futures|
  {
    order := [];
    completed := false;
    for i := 0 to |futures|
      invariant order == DoneAmong(futures[..i], done) && |order| <= i
      invariant completed <==> i > 0 && |order| == |futures|
    {
      DoneAmongSnoc(futures[..i], futures[i], done);
      assert futures[..i + 1] == futures[..i] + [futures[i]];
      if futures[i] in done {
        order := order + [futures[i]];
        completed := completed || |order| == |futures|;
      }
    }
    assert futures[..|futures|] == futures;
    if |futures| == 0 {
      completed := true;
    }
    ghost var first := order;
    for i := 0 to |later|
      invariant order == first + ListedAmong(later[..i], futures)
      invariant completed <==> |order| >= |futures|
    {
      ListedAmongSnoc(later[..i], later[i], futures);
      assert later[..i + 1] == later[..i] + [later[i]];
      if later[i] in futures {
        order := order + [later[i]];
        completed := completed || |order| == |futures|;
      }
    }
    assert later[..|later|] == later;
  }

  function PendingAmong(futures: seq<nat>, done: set<nat>): seq<nat> {
    if futures == [] then []
    else (if futures[0] in done then [] else [futures[0]]) + PendingAmong(futures[1..], done)
  }

  function Elements(s: seq<nat>): set<nat> {
    set x | x in s
  }

  predicate NoRepeats(s: seq<nat>) {
    forall i, j | 0 <= i < j < |s| :: s[i] != s[j]
  }

  lemma NoRepeatsSplit(x: nat, rest: seq<nat>)
    ensures NoRepeats([x] + rest) <==> x !in rest && NoRepeats(rest)
  {
    var s := [x] + rest;
    if NoRepeats(s) {
      forall j | 0 <= j < |rest| ensures rest[j] != x {
        assert s[0] != s[j + 1];
      }
      forall i, j | 0 <= i < j < |rest| ensures rest[i] != rest[j] {
        assert s[i + 1] != s[j + 1];
      }
    }
  }

  lemma {:induction false} ElementsCount(s: seq<nat>)
    ensures |Elements(s)| <= |s|
    ensures |Elements(s)| == |s| <==> NoRepeats(s)
  {
    if s == [] {
    } else {
      hide NoRepeats;
      var x, rest := s[0], s[1..];
      ElementsCount(rest);
      NoRepeatsSplit(x, rest);
      assert s == [x] + rest;
      assert Elements(s) == {x} + Elements(rest);
      assert x in rest ==> Elements(s) == Elements(rest);
    }
  }

  lemma SplitByDone(futures: seq<nat>, done: set<nat>)
    ensures |DoneAmong(futures, done)| + |PendingAmong(futures, done)| == |futures|
    ensures forall f :: f in PendingAmong(futures, done) <==> f in futures && f !in done
  {
  }

  lemma ListedElements(later: seq<nat>, futures: seq<nat>)
    ensures forall f :: f in ListedAmong(later, futures) <==> f in later && f in futures
    ensures NoRepeats(later) ==> NoRepeats(ListedAmong(later, futures))
  {
    if later == [] {
    } else {
      ListedElements(later[1..], futures);
      assert later == [later[0]] + later[1..];
      if NoRepeats(later) {
        assert NoRepeats(later[1..]);
        assert later[0] !in later[1..];
      }
    }
  }

  // Once all the futures are done, so is all_done, exactly if none that had
  // still to finish was given twice.
  lemma AllDoneCompletes(futures: seq<nat>, done: set<nat>, later: seq<nat>)
    requires NoRepeats(later) && (forall f <- later :: f !in done) && forall f <- futures :: f in done || f in later
    ensures |DoneAmong(futures, done)| + |ListedAmong(later, futures)| <= |futures|
    ensures |DoneAmong(futures, done)| + |ListedAmong(later, futures)| == |futures| <==>
              NoRepeats(PendingAmong(futures, done))
  {
    var pending, listed := PendingAmong(futures, done), ListedAmong(later, futures);
    SplitByDone(futures, done);
    ListedElements(later, futures);
    assert Elements(listed) == Elements(pending);
    ElementsCount(listed);
    ElementsCount(pending);
  }
}
