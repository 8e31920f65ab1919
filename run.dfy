/** `App::run`: drain the channel, draw once, until `exit` is set. */
module AppRun {
  import opened AppState
  import opened Events

  /** All events of the batches, in order. */
  function Concat(batches: seq<seq<Event>>): seq<Event> {
    if batches == [] then [] else batches[0] + Concat(batches[1..])
  }

  /** The states the loop draws. `pending` is what the channel holds when the loop starts and
      `arrivals[k]` what the producers send between the `k`th drain and the one before it. */
  function RunFrames(s: AppValue, pending: seq<Event>, arrivals: seq<seq<Event>>): (frames: seq<AppValue>)
    requires s.Valid()
    ensures |frames| <= |arrivals|
    decreases |arrivals|
  {
    if s.exit || arrivals == [] then []
    else
      var s' := Drain(s, pending + arrivals[0]);
      [s'] + RunFrames(s', [], arrivals[1..])
  }

  /** `run`: one drain and one draw per iteration while `exit` is unset. The draw is a read of
      the state (recorded in `frames`); the loop ends when the producers' sends run out. */
  method Run(app: App, rx: Receiver, arrivals: seq<seq<Event>>) returns (frames: seq<AppValue>)
    requires app.Valid()
    modifies app, rx
    ensures app.Valid()
    ensures frames == RunFrames(old(app.State()), old(rx.pending), arrivals)
    ensures app.State() == if frames == [] then old(app.State()) else frames[|frames| - 1]
  {
    frames := [];
    var k := 0;
    while !app.exit && k < |arrivals|
      invariant 0 <= k <= |arrivals|
      invariant app.Valid()
      invariant k > 0 ==> rx.pending == []
      invariant frames + RunFrames(app.State(), rx.pending, arrivals[k..])
             == RunFrames(old(app.State()), old(rx.pending), arrivals)
      invariant app.State() == if frames == [] then old(app.State()) else frames[|frames| - 1]
    {
      ghost var before, waiting := app.State(), rx.pending;
      rx.Send(arrivals[k]);
      HandleEvents(app, rx);
      frames := frames + [app.State()];
      RunFramesStep(before, waiting, arrivals, k);
      k := k + 1;
    }
  }

  /** One iteration of the loop: a drain of what is waiting and the batch sent, then a draw. */
  lemma RunFramesStep(s: AppValue, pending: seq<Event>, arrivals: seq<seq<Event>>, k: nat)
    requires s.Valid() && !s.exit && k < |arrivals|
    ensures RunFrames(s, pending, arrivals[k..])
         == [Drain(s, pending + arrivals[k])] + RunFrames(Drain(s, pending + arrivals[k]), [], arrivals[k + 1..])
  {
    assert arrivals[k..][0] == arrivals[k] && arrivals[k..][1..] == arrivals[k + 1..];
  }

  /** No frame but the last has `exit` set. */
  ghost predicate ExitOnlyLast(frames: seq<AppValue>) {
    forall k :: 0 <= k < |frames| - 1 ==> !frames[k].exit
  }

  /** Nothing is drawn once `exit` is set, and only the last frame can have it set. */
  lemma {:induction false} ExitEndsTheLoop(s: AppValue, pending: seq<Event>, arrivals: seq<seq<Event>>)
    requires s.Valid()
    ensures s.exit ==> RunFrames(s, pending, arrivals) == []
    ensures ExitOnlyLast(RunFrames(s, pending, arrivals))
    decreases |arrivals|
  {
    if !s.exit && arrivals != [] {
      var s' := Drain(s, pending + arrivals[0]);
      ExitEndsTheLoop(s', [], arrivals[1..]);
      var frames, rest := RunFrames(s, pending, arrivals), RunFrames(s', [], arrivals[1..]);
      assert frames == [s'] + rest;
      forall k | 0 <= k < |frames| - 1 ensures !frames[k].exit {
        if k > 0 {
          assert frames[k] == rest[k - 1];
        }
      }
    }
  }

  /** The loop stops early only because a drain set `exit`. */
  lemma {:induction false} StopsOnlyOnExit(s: AppValue, pending: seq<Event>, arrivals: seq<seq<Event>>)
    requires s.Valid() && !s.exit
    ensures var frames := RunFrames(s, pending, arrivals);
      |frames| < |arrivals| ==> frames != [] && frames[|frames| - 1].exit
    decreases |arrivals|
  {
    if arrivals != [] {
      var s' := Drain(s, pending + arrivals[0]);
      if !s'.exit {
        StopsOnlyOnExit(s', [], arrivals[1..]);
      }
    }
  }

  lemma ConcatPrefix(arrivals: seq<seq<Event>>, k: nat)
    requires k < |arrivals|
    ensures Concat(arrivals[..k + 1]) == arrivals[0] + Concat(arrivals[1..][..k])
  {
    var prefix := arrivals[..k + 1];
    assert prefix[0] == arrivals[0] && prefix[1..] == arrivals[1..][..k];
  }

  /** The `k`th frame shows every event sent so far applied in order. */
  lemma {:induction false} FrameIsDrainOfPrefix(s: AppValue, pending: seq<Event>, arrivals: seq<seq<Event>>, k: nat)
    requires s.Valid() && k < |RunFrames(s, pending, arrivals)|
    ensures RunFrames(s, pending, arrivals)[k] == Drain(s, pending + Concat(arrivals[..k + 1]))
    decreases k
  {
    var first := pending + arrivals[0];
    var s' := Drain(s, first);
    var rest := Concat(arrivals[1..][..k]);
    RunFramesAt(s, pending, arrivals, k);
    ConcatPrefix(arrivals, k);
    assert pending + Concat(arrivals[..k + 1]) == first + rest;
    if k == 0 {
      assert arrivals[1..][..0] == [];
      assert first + rest == first;
    } else {
      FrameIsDrainOfPrefix(s', [], arrivals[1..], k - 1);
      assert [] + rest == rest;
      DrainAppend(s, first, rest);
    }
  }

  /** Frame `k` of a run is the first drain's state or frame `k - 1` of the rest. */
  lemma RunFramesAt(s: AppValue, pending: seq<Event>, arrivals: seq<seq<Event>>, k: nat)
    requires s.Valid() && k < |RunFrames(s, pending, arrivals)|
    ensures var s' := Drain(s, pending + arrivals[0]);
      RunFrames(s, pending, arrivals)[k] == if k == 0 then s' else RunFrames(s', [], arrivals[1..])[k - 1]
  {
    assert !s.exit && arrivals != [];
    var s' := Drain(s, pending + arrivals[0]);
    var frames, rest := RunFrames(s, pending, arrivals), RunFrames(s', [], arrivals[1..]);
    assert frames == [s'] + rest;
  }

  /** A tick with nothing to drain still draws once, and draws the state unchanged. */
  lemma IdleTick(s: AppValue, later: seq<seq<Event>>)
    requires s.Valid() && !s.exit
    ensures RunFrames(s, [], [[]] + later)[0] == s
  {
    assert ([[]] + later)[0] == [];
    var none: seq<Event> := [];
    assert none + none == none;
  }
}
