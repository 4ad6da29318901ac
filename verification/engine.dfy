/**
  The interception engine: the hook callback of src/main.rs:28-95 as one pure
  step function over an explicitly threaded state.

  The process-wide statics (the mode flag, the pressed-key set and the Escape
  deadline, src/main.rs:13-20) become the fields of `State`; the clock becomes
  the `now` parameter in milliseconds; the compile-time feature
  `disable_esc_on_quote` becomes the `escFeature` parameter; the call that
  synthesises an arrow event becomes an element of `Outcome.injected`.
 */
module Engine {
  import opened Optional
  import opened Keyboard

  /** How long a BackQuote press keeps Escape presses suppressed, in milliseconds. */
  const EscWindowMs: nat := 300

  /**
    The engine's state between two events: the keys it believes are down, the
    navigation-mode flag, and the instant until which Escape presses are
    swallowed (only ever set when the feature is compiled in).
   */
  datatype State = State(pressed: set<Key>, navigating: bool, escBlockedUntil: Option<nat>)

  /** The state at process start: nothing held, mode off, no deadline. */
  const Initial: State := State({}, false, None)

  /**
    What one callback invocation does: the state afterwards, the event handed
    back to the hook (`None` suppresses it) and the events synthesised in its place.
   */
  datatype Outcome = Outcome(state: State, passed: Option<Event>, injected: seq<Event>)

  /** The events that reach applications downstream, in delivery order. */
  function Emitted(o: Outcome): seq<Event> {
    (if o.passed.Some? then [o.passed.value] else []) + o.injected
  }

  /** The Escape-suppression window is open at `now`: a deadline is set and lies strictly after `now`. */
  predicate WindowOpen(s: State, now: nat) {
    s.escBlockedUntil.Some? && s.escBlockedUntil.value > now
  }

  /** The feature is on, its window is open and `e` is an Escape press: the event is swallowed. */
  predicate EscSuppressed(s: State, e: Event, now: nat, escFeature: bool) {
    escFeature && WindowOpen(s, now) && e == Press(Escape)
  }

  /** Stage 1 for an event that is not swallowed: a deadline that is not after `now` is dropped. */
  function ExpireWindow(deadline: Option<nat>, now: nat, escFeature: bool): Option<nat> {
    if escFeature && deadline.Some? && deadline.value <= now then None else deadline
  }

  /** Stage 2: a press inserts its key, a release removes it, any other event leaves the set alone. */
  function UpdatePressed(pressed: set<Key>, e: Event): (after: set<Key>)
    ensures forall k :: k in after <==> (e == Press(k) || (k in pressed && e != Release(k)))
  {
    match e
    case Press(k) => pressed + {k}
    case Release(k) => pressed - {k}
    case NonKey => pressed
  }

  /** Stage 2, chord test: a press of a chord member that leaves every chord member held. */
  predicate Toggles(after: set<Key>, e: Event) {
    e.Press? && ChordComplete(after) && e.key in Chord
  }

  /** Stage 3: with the feature on, a BackQuote press (re)starts the window. */
  function Arm(deadline: Option<nat>, e: Event, now: nat, escFeature: bool): Option<nat> {
    if escFeature && e == Press(BackQuote) then Some(now + EscWindowMs) else deadline
  }

  /** The remap stage's verdict: the event handed back, if any, and the events synthesised in its place. */
  datatype Decision = Decision(passed: Option<Event>, injected: seq<Event>)

  /**
    Stage 4: with the mode on, a press or release of W, A, S or D is replaced by
    the same kind of event on its arrow key; everything else is handed back unchanged.
   */
  function Remap(navigating: bool, e: Event): (d: Decision)
    ensures d.passed.Some? ==> d.passed.value == e && d.injected == []
    ensures d.passed.None? ==> |d.injected| == 1 && OriginalOf(d.injected[0]) == Some(e)
  {
    if navigating && e != NonKey && Direction(e.key).Some? then
      DirectionInverse(e.key, Direction(e.key).value);
      Decision(None, [SameKind(e, Direction(e.key).value)])
    else
      Decision(Some(e), [])
  }

  /** The directional event a synthesised arrow event stands for, read back through the inverse table. */
  function OriginalOf(injected: Event): Option<Event> {
    if injected != NonKey && SourceOf(injected.key).Some? then
      Some(SameKind(injected, SourceOf(injected.key).value))
    else
      None
  }

  /**
    One invocation of the hook callback on event `e` at time `now`.
    Every event is either handed back untouched, replaced by exactly one
    synthesised event, or (only an Escape press inside the window) swallowed.
   */
  function Step(s: State, e: Event, now: nat, escFeature: bool): (o: Outcome)
    ensures |Emitted(o)| <= 1
    ensures o.passed.Some? ==> o.passed.value == e && o.injected == []
    ensures o.passed.None? && o.injected != [] ==> OriginalOf(o.injected[0]) == Some(e)
    ensures Emitted(o) == [] <==> EscSuppressed(s, e, now, escFeature)
    ensures EscSuppressed(s, e, now, escFeature) ==> o.state == s
    ensures !escFeature ==> o.state.escBlockedUntil == s.escBlockedUntil
  {
    if EscSuppressed(s, e, now, escFeature) then
      Outcome(s, None, [])
    else
      var deadline := ExpireWindow(s.escBlockedUntil, now, escFeature);
      var pressed := UpdatePressed(s.pressed, e);
      var navigating := if Toggles(pressed, e) then !s.navigating else s.navigating;
      var decision := Remap(navigating, e);
      Outcome(State(pressed, navigating, Arm(deadline, e, now, escFeature)), decision.passed, decision.injected)
  }

  // ---------------------------------------------------------------------------
  // Properties of a single step
  // ---------------------------------------------------------------------------

  /**
    Reference definition of the toggle, stated on the set BEFORE the event:
    W goes down while AltGr is held, or AltGr goes down while W is held.
   */
  predicate CompletesChord(before: set<Key>, e: Event) {
    (e == Press(W) && AltGr in before) || (e == Press(AltGr) && W in before)
  }

  /** The pressed set after a step: insert on press, remove on release, unchanged otherwise. */
  lemma StepPressedSet(s: State, e: Event, now: nat, escFeature: bool)
    requires !EscSuppressed(s, e, now, escFeature)
    ensures e.Press? ==> Step(s, e, now, escFeature).state.pressed == s.pressed + {e.key}
    ensures e.Release? ==> Step(s, e, now, escFeature).state.pressed == s.pressed - {e.key}
    ensures e.Release? && e.key !in s.pressed ==> Step(s, e, now, escFeature).state.pressed == s.pressed
    ensures e == NonKey ==> Step(s, e, now, escFeature).state.pressed == s.pressed
  {
  }

  /**
    The mode flips exactly when the event completes the chord; releases,
    presses of other keys and non-key events never change it.
   */
  lemma StepToggleIff(s: State, e: Event, now: nat, escFeature: bool)
    ensures Step(s, e, now, escFeature).state.navigating != s.navigating <==> CompletesChord(s.pressed, e)
    ensures !IsChordPress(e) ==> Step(s, e, now, escFeature).state.navigating == s.navigating
  {
    if !EscSuppressed(s, e, now, escFeature) {
      ChordCompleteIffHeld(UpdatePressed(s.pressed, e));
    }
  }

  /** With the mode off after the step, the event is handed back unchanged and nothing is injected. */
  lemma StepModeOff(s: State, e: Event, now: nat, escFeature: bool)
    requires !EscSuppressed(s, e, now, escFeature)
    requires !Step(s, e, now, escFeature).state.navigating
    ensures Step(s, e, now, escFeature).passed == Some(e)
    ensures Step(s, e, now, escFeature).injected == []
  {
  }

  /**
    With the mode on after the step, a press or release of W, A, S or D is
    suppressed and exactly one event of the same kind on its arrow key is injected.
   */
  lemma StepModeOnDirectional(s: State, e: Event, now: nat, escFeature: bool)
    requires Step(s, e, now, escFeature).state.navigating
    requires e != NonKey && e.key in {W, A, S, D}
    ensures Step(s, e, now, escFeature).passed == None
    ensures e.Press? ==> Step(s, e, now, escFeature).injected == [Press(Direction(e.key).value)]
    ensures e.Release? ==> Step(s, e, now, escFeature).injected == [Release(Direction(e.key).value)]
  {
  }

  /**
    The arrow table itself: whenever the mode is on after the event, W becomes
    Up, A Left, S Down and D Right, for presses and for releases.
   */
  lemma ModeOnArrowTable(s: State, e: Event, now: nat, escFeature: bool)
    requires Step(s, e, now, escFeature).state.navigating
    ensures e == Press(W) ==> Step(s, e, now, escFeature).injected == [Press(Up)]
    ensures e == Press(A) ==> Step(s, e, now, escFeature).injected == [Press(Left)]
    ensures e == Press(S) ==> Step(s, e, now, escFeature).injected == [Press(Down)]
    ensures e == Press(D) ==> Step(s, e, now, escFeature).injected == [Press(Right)]
    ensures e == Release(W) ==> Step(s, e, now, escFeature).injected == [Release(Up)]
    ensures e == Release(A) ==> Step(s, e, now, escFeature).injected == [Release(Left)]
    ensures e == Release(S) ==> Step(s, e, now, escFeature).injected == [Release(Down)]
    ensures e == Release(D) ==> Step(s, e, now, escFeature).injected == [Release(Right)]
  {
  }

  /** With the mode on, any other key event and any non-key event is handed back unchanged. */
  lemma StepModeOnOther(s: State, e: Event, now: nat, escFeature: bool)
    requires !EscSuppressed(s, e, now, escFeature)
    requires e == NonKey || e.key !in {W, A, S, D}
    ensures Step(s, e, now, escFeature).passed == Some(e)
    ensures Step(s, e, now, escFeature).injected == []
  {
  }

  /**
    The remap reads the mode after this event's toggle: with AltGr held and the
    mode off, the W press that turns the mode on is itself replaced by an Up
    press; with the mode on, the W press that turns it off is handed back.
   */
  lemma RemapUsesFreshMode(s: State, now: nat, escFeature: bool)
    requires AltGr in s.pressed
    ensures !s.navigating ==> Step(s, Press(W), now, escFeature).state.navigating
    ensures !s.navigating ==> Emitted(Step(s, Press(W), now, escFeature)) == [Press(Up)]
    ensures s.navigating ==> !Step(s, Press(W), now, escFeature).state.navigating
    ensures s.navigating ==> Emitted(Step(s, Press(W), now, escFeature)) == [Press(W)]
  {
    ChordCompleteIffHeld(s.pressed + {W});
  }

  /** Feature on, window open: an Escape press is swallowed and the whole state is left as it was. */
  lemma EscWindowActive(s: State, now: nat)
    requires WindowOpen(s, now)
    ensures Step(s, Press(Escape), now, true) == Outcome(s, None, [])
  {
  }

  /**
    Feature on: a deadline not after `now` is cleared before anything else
    (unless the event re-arms it), a BackQuote press sets it to `now + 300`,
    an open window survives every event other than a BackQuote press, and no
    other event ever opens one.
   */
  lemma EscWindowExpiryAndArming(s: State, e: Event, now: nat)
    ensures (s.escBlockedUntil.Some? && !WindowOpen(s, now) && e != Press(BackQuote))
            ==> Step(s, e, now, true).state.escBlockedUntil == None
    ensures e == Press(BackQuote) ==> Step(s, e, now, true).state.escBlockedUntil == Some(now + EscWindowMs)
    ensures (s.escBlockedUntil == None && e != Press(BackQuote))
            ==> Step(s, e, now, true).state.escBlockedUntil == None
    ensures (WindowOpen(s, now) && e != Press(BackQuote))
            ==> Step(s, e, now, true).state.escBlockedUntil == s.escBlockedUntil
  {
  }

  /**
    Feature off: the deadline is neither read nor written, and the clock is
    never consulted, so the step does not depend on either.
   */
  lemma FeatureOffIgnoresDeadline(s: State, e: Event, now: nat, now': nat, d: Option<nat>)
    ensures Step(s, e, now, false).state.escBlockedUntil == s.escBlockedUntil
    ensures var o := Step(s, e, now, false);
            var o' := Step(s.(escBlockedUntil := d), e, now', false);
            o'.state == o.state.(escBlockedUntil := d) && o'.passed == o.passed && o'.injected == o.injected
  {
  }

  /**
    Whenever the event is not swallowed, switching the feature on changes
    nothing but the deadline: pressed set, mode and downstream events agree.
   */
  lemma FeatureOnlyAffectsEscape(s: State, e: Event, now: nat)
    requires !EscSuppressed(s, e, now, true)
    ensures var on := Step(s, e, now, true);
            var off := Step(s, e, now, false);
            on.state.pressed == off.state.pressed && on.state.navigating == off.state.navigating
            && on.passed == off.passed && on.injected == off.injected
  {
  }

  /** The deadline, if any, lies at most 300 ms after `now`. */
  predicate DeadlineBounded(s: State, now: nat) {
    s.escBlockedUntil.Some? ==> s.escBlockedUntil.value <= now + EscWindowMs
  }

  /** A deadline never runs more than 300 ms ahead of the clock, however the events arrive. */
  lemma StepKeepsDeadlineBounded(s: State, e: Event, now: nat, later: nat, escFeature: bool)
    requires DeadlineBounded(s, now) && now <= later
    ensures DeadlineBounded(Step(s, e, later, escFeature).state, later)
  {
  }
}
