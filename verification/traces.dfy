/**
  The engine driven by a stream of time-stamped events, one callback at a
  time, in the order the hook delivers them (src/main.rs:22-26 registers the
  callback; every invocation sees the state the previous one left).
 */
module Traces {
  import opened Optional
  import opened Keyboard
  import opened Engine

  /** A hooked event together with the clock reading at its callback, in milliseconds. */
  datatype Stamped = Stamped(event: Event, at: nat)

  /** The state after a run and every event delivered downstream, in order. */
  datatype Trace = Trace(state: State, output: seq<Event>)

  /**
    Feeds `evs` to the engine one by one from state `s`. No event is ever
    turned into two; with the feature off none is lost either.
   */
  function Run(s: State, evs: seq<Stamped>, escFeature: bool): (t: Trace)
    ensures |t.output| <= |evs|
    ensures !escFeature ==> |t.output| == |evs|
    decreases |evs|
  {
    if |evs| == 0 then
      Trace(s, [])
    else
      var t := Run(s, evs[..|evs| - 1], escFeature);
      var o := Step(t.state, evs[|evs| - 1].event, evs[|evs| - 1].at, escFeature);
      Trace(o.state, t.output + Emitted(o))
  }

  /** The raw events of a stamped stream. */
  function Events(evs: seq<Stamped>): seq<Event>
    decreases |evs|
  {
    if |evs| == 0 then [] else Events(evs[..|evs| - 1]) + [evs[|evs| - 1].event]
  }

  /**
    Reference definition of "key `k` is down after `evs`": the last press or
    release of `k` in the stream decides; with neither, it is as it was.
   */
  function HeldAfter(evs: seq<Stamped>, k: Key, initially: bool): bool
    decreases |evs|
  {
    if |evs| == 0 then
      initially
    else
      var e := evs[|evs| - 1].event;
      if e == Press(k) then true
      else if e == Release(k) then false
      else HeldAfter(evs[..|evs| - 1], k, initially)
  }

  /**
    With the feature off, the i-th event delivered downstream stands for the
    i-th hooked event: it is that event itself, or the arrow event that
    replaced it and reads back to it through the inverse arrow table.
   */
  lemma {:induction false} RunOutputMatchesInput(s: State, evs: seq<Stamped>)
    ensures var out := Run(s, evs, false).output;
            forall i | 0 <= i < |evs| :: out[i] == evs[i].event || OriginalOf(out[i]) == Some(evs[i].event)
    decreases |evs|
  {
    if |evs| > 0 {
      var prefix := evs[..|evs| - 1];
      RunOutputMatchesInput(s, prefix);
      forall i | 0 <= i < |evs| - 1 ensures evs[i] == prefix[i] { }
    }
  }

  /** No event of the stream presses a chord member. */
  predicate NoChordPress(evs: seq<Stamped>) {
    forall i :: 0 <= i < |evs| ==> !IsChordPress(evs[i].event)
  }

  /** No event of the stream is an Escape press. */
  predicate NoEscapePress(evs: seq<Stamped>) {
    forall i :: 0 <= i < |evs| ==> evs[i].event != Press(Escape)
  }

  /**
    The pressed set tracks the stream: a key is in it exactly when its last
    press or release was a press. With the feature on, Escape is the one key
    this can fail for, because a swallowed Escape press is never recorded.
   */
  lemma {:induction false} RunPressedTracksLastKeyEvent(s: State, evs: seq<Stamped>, escFeature: bool, k: Key)
    requires !escFeature || k != Escape
    ensures k in Run(s, evs, escFeature).state.pressed <==> HeldAfter(evs, k, k in s.pressed)
    decreases |evs|
  {
    if |evs| > 0 {
      var prefix := evs[..|evs| - 1];
      RunPressedTracksLastKeyEvent(s, prefix, escFeature, k);
      var before := Run(s, prefix, escFeature).state;
      var last := evs[|evs| - 1];
      if !EscSuppressed(before, last.event, last.at, escFeature) {
        assert Step(before, last.event, last.at, escFeature).state.pressed
               == UpdatePressed(before.pressed, last.event);
      }
    }
  }

  /** A stream that never presses W or AltGr leaves the mode as it found it. */
  lemma {:induction false} RunModeStable(s: State, evs: seq<Stamped>, escFeature: bool)
    requires NoChordPress(evs)
    ensures Run(s, evs, escFeature).state.navigating == s.navigating
    decreases |evs|
  {
    if |evs| > 0 {
      var prefix := evs[..|evs| - 1];
      assert NoChordPress(prefix) by {
        forall i | 0 <= i < |prefix| ensures !IsChordPress(prefix[i].event) {
          assert prefix[i] == evs[i];
        }
      }
      RunModeStable(s, prefix, escFeature);
      var last := evs[|evs| - 1];
      assert !IsChordPress(last.event);
      StepToggleIff(Run(s, prefix, escFeature).state, last.event, last.at, escFeature);
    }
  }

  /**
    With the mode off and never toggled, and no Escape press that could be
    swallowed, every event reaches applications exactly as it was hooked.
   */
  lemma {:induction false} RunPassThrough(s: State, evs: seq<Stamped>, escFeature: bool)
    requires !s.navigating && NoChordPress(evs)
    requires !escFeature || NoEscapePress(evs)
    ensures Run(s, evs, escFeature).output == Events(evs)
    decreases |evs|
  {
    if |evs| > 0 {
      var prefix := evs[..|evs| - 1];
      assert NoChordPress(prefix) && (!escFeature || NoEscapePress(prefix)) by {
        forall i | 0 <= i < |prefix| ensures prefix[i] == evs[i] { }
      }
      RunPassThrough(s, prefix, escFeature);
      RunModeStable(s, evs, escFeature);
      var before := Run(s, prefix, escFeature).state;
      var last := evs[|evs| - 1];
      assert !EscSuppressed(before, last.event, last.at, escFeature);
      StepModeOff(before, last.event, last.at, escFeature);
    }
  }

  // ---------------------------------------------------------------------------
  // Concrete streams
  // ---------------------------------------------------------------------------

  /** Running a stream extended by one event is running the stream, then one step. */
  lemma RunSnoc(s: State, evs: seq<Stamped>, x: Stamped, escFeature: bool)
    ensures var t := Run(s, evs, escFeature);
            var o := Step(t.state, x.event, x.at, escFeature);
            Run(s, evs + [x], escFeature) == Trace(o.state, t.output + Emitted(o))
  {
  }

  /** W then AltGr from the initial state: both are delivered unchanged and the mode is on. */
  lemma ChordTurnsModeOn(escFeature: bool, t0: nat, t1: nat) returns (s2: State)
    ensures var t := Run(Initial, [Stamped(Press(W), t0), Stamped(Press(AltGr), t1)], escFeature);
            t.state == s2 && t.output == [Press(W), Press(AltGr)]
    ensures s2.navigating && s2.pressed == {W, AltGr} && s2.escBlockedUntil == None
  {
    var x1, x2 := Stamped(Press(W), t0), Stamped(Press(AltGr), t1);
    RunSnoc(Initial, [], x1, escFeature);
    RunSnoc(Initial, [x1], x2, escFeature);
    assert [x1] + [x2] == [x1, x2];
    var s1 := Step(Initial, x1.event, t0, escFeature).state;
    StepToggleIff(Initial, x1.event, t0, escFeature);
    StepToggleIff(s1, x2.event, t1, escFeature);
    s2 := Step(s1, x2.event, t1, escFeature).state;
  }

  /** Pressing W, releasing it, then pressing AltGr never holds both: the mode stays off. */
  lemma ChordNeedsBothHeld(escFeature: bool, t0: nat, t1: nat, t2: nat)
    ensures var t := Run(Initial, [Stamped(Press(W), t0), Stamped(Release(W), t1), Stamped(Press(AltGr), t2)], escFeature);
            !t.state.navigating && t.output == [Press(W), Release(W), Press(AltGr)]
  {
    var x1, x2, x3 := Stamped(Press(W), t0), Stamped(Release(W), t1), Stamped(Press(AltGr), t2);
    RunSnoc(Initial, [], x1, escFeature);
    RunSnoc(Initial, [x1], x2, escFeature);
    RunSnoc(Initial, [x1, x2], x3, escFeature);
    assert [x1] + [x2] == [x1, x2] && [x1, x2] + [x3] == [x1, x2, x3];
    var s1 := Step(Initial, x1.event, t0, escFeature).state;
    var s2 := Step(s1, x2.event, t1, escFeature).state;
    StepToggleIff(Initial, x1.event, t0, escFeature);
    StepToggleIff(s1, x2.event, t1, escFeature);
    StepToggleIff(s2, x3.event, t2, escFeature);
  }

  /** W then AltGr turns the mode on; a following D press is delivered as a Right press. */
  lemma ChordThenDirection(escFeature: bool, t0: nat, t1: nat, t2: nat)
    ensures var t := Run(Initial, [Stamped(Press(W), t0), Stamped(Press(AltGr), t1), Stamped(Press(D), t2)], escFeature);
            t.state.navigating && t.output == [Press(W), Press(AltGr), Press(Right)]
  {
    var x1, x2, x3 := Stamped(Press(W), t0), Stamped(Press(AltGr), t1), Stamped(Press(D), t2);
    var s2 := ChordTurnsModeOn(escFeature, t0, t1);
    RunSnoc(Initial, [x1, x2], x3, escFeature);
    assert [x1, x2] + [x3] == [x1, x2, x3];
    StepToggleIff(s2, x3.event, t2, escFeature);
    StepModeOnDirectional(s2, x3.event, t2, escFeature);
    assert Emitted(Step(s2, x3.event, t2, escFeature)) == [Press(Right)];
  }

  /** With W still held, pressing AltGr again turns the mode back off. */
  lemma ChordPressedAgainToggles(escFeature: bool, t0: nat, t1: nat, t2: nat, t3: nat)
    ensures var t := Run(Initial, [Stamped(Press(W), t0), Stamped(Press(AltGr), t1),
                                   Stamped(Release(AltGr), t2), Stamped(Press(AltGr), t3)], escFeature);
            !t.state.navigating
  {
    var x1, x2, x3, x4 := Stamped(Press(W), t0), Stamped(Press(AltGr), t1), Stamped(Release(AltGr), t2), Stamped(Press(AltGr), t3);
    RunSnoc(Initial, [], x1, escFeature);
    RunSnoc(Initial, [x1], x2, escFeature);
    RunSnoc(Initial, [x1, x2], x3, escFeature);
    RunSnoc(Initial, [x1, x2, x3], x4, escFeature);
    assert [x1] + [x2] == [x1, x2] && [x1, x2] + [x3] == [x1, x2, x3] && [x1, x2, x3] + [x4] == [x1, x2, x3, x4];
    var s1 := Step(Initial, x1.event, t0, escFeature).state;
    var s2 := Step(s1, x2.event, t1, escFeature).state;
    var s3 := Step(s2, x3.event, t2, escFeature).state;
    StepToggleIff(Initial, x1.event, t0, escFeature);
    StepToggleIff(s1, x2.event, t1, escFeature);
    StepToggleIff(s2, x3.event, t2, escFeature);
    StepToggleIff(s3, x4.event, t3, escFeature);
  }

  /** A repeated AltGr press with no release in between (keyboard auto-repeat) toggles again too. */
  lemma ChordAutoRepeatToggles(escFeature: bool, t0: nat, t1: nat, t2: nat)
    ensures var t := Run(Initial, [Stamped(Press(W), t0), Stamped(Press(AltGr), t1), Stamped(Press(AltGr), t2)], escFeature);
            !t.state.navigating
  {
    var x1, x2, x3 := Stamped(Press(W), t0), Stamped(Press(AltGr), t1), Stamped(Press(AltGr), t2);
    RunSnoc(Initial, [], x1, escFeature);
    RunSnoc(Initial, [x1], x2, escFeature);
    RunSnoc(Initial, [x1, x2], x3, escFeature);
    assert [x1] + [x2] == [x1, x2] && [x1, x2] + [x3] == [x1, x2, x3];
    var s1 := Step(Initial, x1.event, t0, escFeature).state;
    var s2 := Step(s1, x2.event, t1, escFeature).state;
    StepToggleIff(Initial, x1.event, t0, escFeature);
    StepToggleIff(s1, x2.event, t1, escFeature);
    StepToggleIff(s2, x3.event, t2, escFeature);
  }

  /** Feature on: an Escape press less than 300 ms after a BackQuote press is swallowed. */
  lemma EscapeInsideWindow(t0: nat, t1: nat)
    requires t1 < t0 + EscWindowMs
    ensures Run(Initial, [Stamped(Press(BackQuote), t0), Stamped(Press(Escape), t1)], true).output
            == [Press(BackQuote)]
  {
  }

  /** Feature on: an Escape press 300 ms or more after a BackQuote press finds the window closed and passes. */
  lemma EscapeAfterWindow(t0: nat, t1: nat)
    requires t1 >= t0 + EscWindowMs
    ensures Run(Initial, [Stamped(Press(BackQuote), t0), Stamped(Press(Escape), t1)], true).output
            == [Press(BackQuote), Press(Escape)]
  {
  }

  /** Feature on: only the Escape press is swallowed; its release inside the window still passes. */
  lemma EscapeReleaseInsideWindowPasses(t0: nat, t1: nat, t2: nat)
    requires t1 < t0 + EscWindowMs && t2 < t0 + EscWindowMs
    ensures Run(Initial, [Stamped(Press(BackQuote), t0), Stamped(Press(Escape), t1),
                          Stamped(Release(Escape), t2)], true).output
            == [Press(BackQuote), Release(Escape)]
  {
    var x1, x2, x3 := Stamped(Press(BackQuote), t0), Stamped(Press(Escape), t1), Stamped(Release(Escape), t2);
    RunSnoc(Initial, [], x1, true);
    RunSnoc(Initial, [x1], x2, true);
    RunSnoc(Initial, [x1, x2], x3, true);
    assert [x1] + [x2] == [x1, x2] && [x1, x2] + [x3] == [x1, x2, x3];
    var s1 := Step(Initial, x1.event, t0, true).state;
    EscWindowExpiryAndArming(Initial, x1.event, t0);
    assert s1 == State({BackQuote}, false, Some(t0 + EscWindowMs));
    EscWindowActive(s1, t1);
    StepModeOff(s1, x3.event, t2, true);
    assert Emitted(Step(s1, x3.event, t2, true)) == [Release(Escape)];
  }

  /**
    A W held while the chord turns the mode on is released as Up: applications
    see a W press that is never released and an Up release with no press.
   */
  lemma HeldWReleasedAsUp(escFeature: bool, t0: nat, t1: nat, t2: nat)
    ensures Run(Initial, [Stamped(Press(W), t0), Stamped(Press(AltGr), t1), Stamped(Release(W), t2)], escFeature).output
            == [Press(W), Press(AltGr), Release(Up)]
  {
    var x1, x2, x3 := Stamped(Press(W), t0), Stamped(Press(AltGr), t1), Stamped(Release(W), t2);
    var s2 := ChordTurnsModeOn(escFeature, t0, t1);
    RunSnoc(Initial, [x1, x2], x3, escFeature);
    assert [x1, x2] + [x3] == [x1, x2, x3];
    StepToggleIff(s2, x3.event, t2, escFeature);
    StepModeOnDirectional(s2, x3.event, t2, escFeature);
    assert Emitted(Step(s2, x3.event, t2, escFeature)) == [Release(Up)];
  }
}
