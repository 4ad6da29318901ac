# arrowasd interception engine in Dafny

arrowasd installs one global keyboard hook. Its callback (`callback`, src/main.rs:28-95)
decides for every hooked event whether to hand it back to the system unchanged, to
swallow it, or to swallow it and synthesise another event in its place. Holding W and
AltGr together toggles *navigation mode*. While the mode is on, presses and releases of
W, A, S and D are replaced by presses and releases of Up, Left, Down and Right. With the
optional `disable_esc_on_quote` feature, a BackQuote press also swallows every Escape
press for the next 300 ms.

This project models that callback as a pure step function and proves what it does:

- `optional.dfy` holds `Optional.Option`, the `Option` of the callback's result and of the deadline.
- `keyboard.dfy` (module `Keyboard`) holds the keys and events, the chord {W, AltGr}
  (src/main.rs:16) with the source's counting test, and the WASD-to-arrow table with its inverse.
- `engine.dfy` (module `Engine`) holds the process state (`SWITCHING`, `PRESSED_KEYS` and
  `ESC_DISABLED_UNTIL`, src/main.rs:13-20) as one `State` record. `Step` is the callback:
  it takes the state, the event, the clock reading `now` in milliseconds and the feature flag
  `escFeature`. It returns the next state, the event handed back (`None` suppresses it) and
  the injected events. The lemmas in this module state one property of one step each.
- `traces.dfy` (module `Traces`) feeds a stream of time-stamped events through `Step`, as the
  hook does. It proves properties of whole streams by induction, and it works through
  short key sequences: the chord in each order, a direction key in navigation mode, and the Escape window.

The stages of `Step` run in the source's order:

1. Escape suppression, when the feature is on.
2. The pressed-set update and the chord test.
3. Arming, when the feature is on.
4. The remap, which reads the mode value after this event's toggle.

Some properties follow from the code as written and are proved here:

- A W held while the chord turns the mode on is released as Up. Applications then see a
  W press that is never released (`Traces.HeldWReleasedAsUp`).
- A swallowed Escape press does not swallow its release (`Traces.EscapeReleaseInsideWindowPasses`).
- Every further press of a chord member toggles the mode again while both chord keys are
  held. Keyboard auto-repeat counts as such a press (`Traces.ChordAutoRepeatToggles`).

## Model

| member | source | states |
|---|---|---|
| Keyboard.ChordCompleteIffHeld | src/main.rs:49 | the intersection-count test `keys ∩ BIND` has as many elements as `BIND` exactly when both W and AltGr are held |
| Keyboard.Direction | src/main.rs:70-76 | exactly W, A, S and D have a direction, and every direction is one of the four arrow keys |
| Keyboard.DirectionInverse | src/main.rs:70-76 | the arrow table and its inverse agree in both directions, so the table is one-to-one |
| Keyboard.SameKind | src/main.rs:79-83 | the synthesised event carries the arrow key and is a press exactly when the original is a press |
| Engine.UpdatePressed | src/main.rs:44-65 | after an event a key is held iff the event pressed it, or it was held and the event did not release it |
| Engine.Remap | src/main.rs:67-94 | an event is either handed back unchanged with nothing injected, or replaced by exactly one injected event whose inverse-table reading is the original event |
| Engine.Step | src/main.rs:28-95 | at most one event reaches applications; a handed-back event is the original; an injected event maps back to the original; nothing at all is emitted exactly when the feature is on, the deadline lies after `now` and the event is an Escape press, and then the state is untouched; with the feature off the deadline never changes |
| Engine.StepPressedSet | src/main.rs:44-65 | a press inserts its key, a release removes it, releasing a key that is not held leaves the set as it was, non-key events leave it alone |
| Engine.StepToggleIff | src/main.rs:49-50 | the mode flips iff W is pressed while AltGr is held or AltGr is pressed while W is held; releases, other keys and non-key events never flip it |
| Engine.StepModeOff | src/main.rs:92-93 | with the mode off after the update, the event is handed back unchanged and nothing is injected |
| Engine.StepModeOnDirectional | src/main.rs:67-85 | with the mode on after the update, a W/A/S/D event is suppressed and exactly one press (for a press) or release (for a release) of its arrow key is injected |
| Engine.ModeOnArrowTable | src/main.rs:70-83 | for any event after which the mode is on, the injected events are W to Up, A to Left, S to Down and D to Right, for presses and for releases |
| Engine.StepModeOnOther | src/main.rs:86-93 | any non-directional key event and any non-key event is handed back unchanged with no injection, whatever the mode |
| Engine.RemapUsesFreshMode | src/main.rs:49-85 | with AltGr held, the W press that turns the mode on is itself replaced by an Up press, and the W press that turns it off is handed back |
| Engine.EscWindowActive | src/main.rs:33-37 | feature on and deadline strictly after `now`: an Escape press is suppressed and pressed set, mode and deadline are all unchanged |
| Engine.EscWindowExpiryAndArming | src/main.rs:33-57 | feature on: a deadline not after `now` is cleared, a BackQuote press sets it to `now + 300`, an open window survives every other event, and with no deadline set no event other than a BackQuote press sets one |
| Engine.FeatureOffIgnoresDeadline | src/main.rs:29-42 | feature off: the deadline is never written, and the step's result depends neither on the deadline nor on the clock |
| Engine.FeatureOnlyAffectsEscape | src/main.rs:29-57 | for every event the window does not swallow, turning the feature on changes nothing but the deadline |
| Engine.StepKeepsDeadlineBounded | src/main.rs:53-57 | the deadline never lies more than 300 ms after the latest clock reading, for any non-decreasing clock |
| Traces.Run | src/main.rs:22-28 | over a stream of hooked events, at most as many events reach applications as were hooked, and with the feature off exactly as many |
| Traces.RunOutputMatchesInput | src/main.rs:67-94 | with the feature off, the i-th delivered event is the i-th hooked event or the arrow event that replaced it, which reads back to it through the inverse table; order is kept and nothing is dropped or duplicated |
| Traces.RunPressedTracksLastKeyEvent | src/main.rs:44-65 | after a stream, a key is in the pressed set iff its last press or release was a press (Escape excepted when the feature is on) |
| Traces.RunModeStable | src/main.rs:49-50 | a stream with no W or AltGr press leaves the mode unchanged |
| Traces.RunPassThrough | src/main.rs:92-93 | with the mode off, no chord press and no Escape press the window could swallow, applications receive exactly the hooked events |
| Traces.ChordTurnsModeOn | src/main.rs:44-51 | from the initial state, pressing W and then AltGr passes both events, turns the mode on and leaves exactly W and AltGr held with no deadline |
| Traces.ChordNeedsBothHeld | src/main.rs:44-51 | press W, release W, press AltGr: the mode stays off and all three events pass |
| Traces.ChordThenDirection | src/main.rs:44-85 | press W, press AltGr, press D: the mode is on and applications see W, AltGr, then a Right press |
| Traces.ChordPressedAgainToggles | src/main.rs:49-50 | with W held, pressing AltGr a second time turns the mode back off |
| Traces.ChordAutoRepeatToggles | src/main.rs:49-50 | an auto-repeated AltGr press with W held toggles the mode again |
| Traces.EscapeInsideWindow | src/main.rs:33-57 | feature on: an Escape press less than 300 ms after a BackQuote press is swallowed |
| Traces.EscapeAfterWindow | src/main.rs:33-41 | feature on: an Escape press 300 ms or more after a BackQuote press passes |
| Traces.EscapeReleaseInsideWindowPasses | src/main.rs:33-65 | feature on: inside the window the Escape press is swallowed but its release passes |
| Traces.HeldWReleasedAsUp | src/main.rs:60-85 | press W, press AltGr, release W: applications see W, AltGr, then an Up release, so W is never released downstream |

## Left out

- Hook installation and its error message (`main`, src/main.rs:22-26) are OS input/output. `Traces.Run` stands for the hook delivering events one at a time.
- The call that synthesises an arrow event (src/main.rs:84) becomes an element of `Outcome.injected`. Its result is ignored by the source, so there is no failure path.
- The model does not feed injected events back through the hook, although the platform may deliver them to the callback again. That happens outside this code.
- The printing of each pressed key (src/main.rs:52) is diagnostic output only.
- `lazy_static`, `Arc<Mutex<..>>`, the atomic flag and the panics on poisoned locks are concurrency plumbing. One explicitly threaded `State` replaces them, because the hook delivers events one at a time.
- `SystemTime::now()` and `Duration` become a natural number of milliseconds, `now`, so the model does not use floating-point or wall-clock time.
- Engine.Step: the source reads the clock a second time when it arms the window (src/main.rs:56). The model uses the same `now` for both reads, so it omits the callback's run time between the two reads, which includes the printing of the key (src/main.rs:52).
- The compile-time `disable_esc_on_quote` switch becomes the boolean parameter `escFeature`.
- Keyboard.Key: keys other than the eleven the engine distinguishes are folded into `Other(code)`. Mouse and wheel events are folded into `NonKey`, and the event's timestamp and name fields are dropped, because the callback never reads them.
