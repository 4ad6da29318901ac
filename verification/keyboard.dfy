/**
  Keys, hooked events, the toggle chord and the WASD-to-arrow table of the
  keyboard interceptor (src/main.rs:11-16, 70-83).
 */
module Keyboard {
  import opened Optional

  /** The keys the engine tells apart; every other physical key is `Other`. */
  datatype Key =
    | W | A | S | D
    | AltGr | Escape | BackQuote
    | Up | Left | Down | Right
    | Other(code: nat)

  /** A hooked input event. Mouse buttons, moves and wheel turns are all `NonKey`. */
  datatype Event = Press(key: Key) | Release(key: Key) | NonKey

  /** The keys that must be held together to toggle navigation mode. */
  const Chord: set<Key> := {W, AltGr}

  /** A chord member going down. */
  predicate IsChordPress(e: Event) {
    e.Press? && e.key in Chord
  }

  /**
    The chord test in the shape the source writes it: the held keys meet the
    chord in as many keys as the chord has.
   */
  predicate ChordComplete(keys: set<Key>) {
    |keys * Chord| == |Chord|
  }

  /** The counting test is exactly "both W and AltGr are held". */
  lemma ChordCompleteIffHeld(keys: set<Key>)
    ensures ChordComplete(keys) <==> (W in keys && AltGr in keys)
  {
    assert |Chord| == 2;
    if W in keys && AltGr in keys {
      assert keys * Chord == Chord;
    } else if W in keys {
      assert keys * Chord == {W};
    } else if AltGr in keys {
      assert keys * Chord == {AltGr};
    } else {
      assert keys * Chord == {};
    }
  }

  /** The arrow key a directional source key stands for in navigation mode. */
  function Direction(k: Key): (arrow: Option<Key>)
    ensures arrow.Some? <==> k in {W, A, S, D}
    ensures arrow.Some? ==> arrow.value in {Up, Left, Down, Right}
  {
    match k
    case W => Some(Up)
    case A => Some(Left)
    case S => Some(Down)
    case D => Some(Right)
    case _ => None
  }

  /** The directional source key an arrow key is produced from, the inverse table. */
  function SourceOf(arrow: Key): (k: Option<Key>)
  {
    match arrow
    case Up => Some(W)
    case Left => Some(A)
    case Down => Some(S)
    case Right => Some(D)
    case _ => None
  }

  /** The two tables are inverse to each other, so no two source keys share an arrow. */
  lemma DirectionInverse(k: Key, arrow: Key)
    ensures Direction(k) == Some(arrow) <==> SourceOf(arrow) == Some(k)
  {
  }

  /** A key event of the same kind as `e` (press stays press, release stays release) for key `k`. */
  function SameKind(e: Event, k: Key): (r: Event)
    requires e != NonKey
    ensures r != NonKey && r.key == k
    ensures r.Press? <==> e.Press?
  {
    if e.Press? then Press(k) else Release(k)
  }
}
