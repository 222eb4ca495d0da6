/**
  The emulated keyboard of the input method (src/ime.cpp): at most one key and the modifiers it needs are held at
  a time, and every press that is sent is matched by one release.
*/
module ImeKeyboard {
  import opened Options

  datatype KeyEvent = Down(code: nat) | Up(code: nat)

  const KEY_LEFTCTRL: nat := 29
  const KEY_LEFTSHIFT: nat := 42
  const KEY_LEFTALT: nat := 56

  /** The three bits of a modifier mask that are ever emulated. */
  datatype Mods = Mods(shift: bool, ctrl: bool, alt: bool)

  const NONE := Mods(false, false, false)

  /** mask & ~other. */
  function Without(mask: Mods, other: Mods): Mods {
    Mods(mask.shift && !other.shift, mask.ctrl && !other.ctrl, mask.alt && !other.alt)
  }

  /** What the seat holds and what is emulated make up the modifiers wanted, and overlap in none. */
  lemma SeatAndEmulated(wanted: Mods, seat: Mods, code: nat)
    ensures HoldsKey(wanted, code) || HoldsKey(seat, code) <==>
            HoldsKey(seat, code) || HoldsKey(Without(wanted, seat), code)
    ensures !(HoldsKey(seat, code) && HoldsKey(Without(wanted, seat), code))
    ensures HoldsKey(Without(wanted, seat), code) ==> HoldsKey(wanted, code)
  {}

  predicate HoldsKey(m: Mods, code: nat) {
    (m.shift && code == KEY_LEFTSHIFT) || (m.ctrl && code == KEY_LEFTCTRL) || (m.alt && code == KEY_LEFTALT)
  }

  predicate IsModifierKey(code: nat) {
    HoldsKey(Mods(true, true, true), code)
  }

  /** The keys a client that saw the events takes to be down. */
  function DownKeys(log: seq<KeyEvent>): set<nat> {
    if log == [] then {}
    else
      var before := DownKeys(log[..|log| - 1]);
      match log[|log| - 1]
      case Down(code) => before + {code}
      case Up(code) => before - {code}
  }

  /** No key goes down twice without coming up, and none comes up that is not down. */
  ghost predicate Clean(log: seq<KeyEvent>) {
    if log == [] then true
    else
      var before := log[..|log| - 1];
      && Clean(before)
      && match log[|log| - 1]
         case Down(code) => code !in DownKeys(before)
         case Up(code) => code in DownKeys(before)
  }

  function When(condition: bool, e: KeyEvent): seq<KeyEvent> {
    if condition then [e] else []
  }

  /** What release_key_if_needed sends. */
  function Released(log: seq<KeyEvent>, held: Option<nat>, mods: Mods): seq<KeyEvent> {
    (if held.Some? then log + [Up(held.value)] else log)
    + When(mods.alt, Up(KEY_LEFTALT)) + When(mods.ctrl, Up(KEY_LEFTCTRL)) + When(mods.shift, Up(KEY_LEFTSHIFT))
  }

  /** What press_key sends after the release. */
  function Pressed(log: seq<KeyEvent>, code: nat, mods: Mods): seq<KeyEvent> {
    log + When(mods.shift, Down(KEY_LEFTSHIFT)) + When(mods.ctrl, Down(KEY_LEFTCTRL))
        + When(mods.alt, Down(KEY_LEFTALT))
    + [Down(code)]
  }

  /** Exactly the held key and the held modifiers are down. */
  ghost predicate Holds(log: seq<KeyEvent>, held: Option<nat>, mods: Mods) {
    && Clean(log)
    && (held.Some? ==> !IsModifierKey(held.value))
    && (forall code: nat :: code in DownKeys(log) <==> held == Some(code) || HoldsKey(mods, code))
  }

  lemma Append(log: seq<KeyEvent>, e: KeyEvent)
    ensures DownKeys(log + [e]) == if e.Down? then DownKeys(log) + {e.code} else DownKeys(log) - {e.code}
    ensures Clean(log + [e]) <==> Clean(log) && (e.Down? <==> e.code !in DownKeys(log))
  {
    assert (log + [e])[..|log|] == log;
  }

  lemma KeyUp(log: seq<KeyEvent>, held: Option<nat>, mods: Mods)
    requires Holds(log, held, mods)
    ensures Holds(if held.Some? then log + [Up(held.value)] else log, None, mods)
  {
    if held.Some? {
      Append(log, Up(held.value));
    }
  }

  lemma KeyDown(log: seq<KeyEvent>, mods: Mods, code: nat)
    requires Holds(log, None, mods) && !IsModifierKey(code)
    ensures Holds(log + [Down(code)], Some(code), mods)
  {
    Append(log, Down(code));
  }

  /** One modifier key goes up or down, or nothing is sent when the condition is false. */
  lemma ModifierMoves(log: seq<KeyEvent>, mods: Mods, mods': Mods, code: nat, condition: bool, e: KeyEvent)
    requires Holds(log, None, mods) && e.code == code
    requires !condition ==> mods' == mods
    requires condition ==> forall c: nat :: HoldsKey(mods', c) <==>
                             if c == code then e.Down? else HoldsKey(mods, c)
    requires condition ==> (e.Down? <==> !HoldsKey(mods, code))
    ensures Holds(log + When(condition, e), None, mods')
  {
    if condition {
      Append(log, e);
    } else {
      assert log + [] == log;
    }
  }

  lemma ModifiersUp(log: seq<KeyEvent>, m: Mods)
    requires Holds(log, None, m)
    ensures Holds(log + When(m.alt, Up(KEY_LEFTALT)) + When(m.ctrl, Up(KEY_LEFTCTRL))
                      + When(m.shift, Up(KEY_LEFTSHIFT)),
                  None, NONE)
  {
    hide Holds, When;
    var log1 := log + When(m.alt, Up(KEY_LEFTALT));
    ModifierMoves(log, m, m.(alt := false), KEY_LEFTALT, m.alt, Up(KEY_LEFTALT));
    var log2 := log1 + When(m.ctrl, Up(KEY_LEFTCTRL));
    ModifierMoves(log1, m.(alt := false), Mods(m.shift, false, false), KEY_LEFTCTRL, m.ctrl, Up(KEY_LEFTCTRL));
    ModifierMoves(log2, Mods(m.shift, false, false), NONE, KEY_LEFTSHIFT, m.shift, Up(KEY_LEFTSHIFT));
  }

  lemma ModifiersDown(log: seq<KeyEvent>, m: Mods)
    requires Holds(log, None, NONE)
    ensures Holds(log + When(m.shift, Down(KEY_LEFTSHIFT)) + When(m.ctrl, Down(KEY_LEFTCTRL))
                  + When(m.alt, Down(KEY_LEFTALT)), None, m)
  {
    hide Holds, When;
    var log1 := log + When(m.shift, Down(KEY_LEFTSHIFT));
    ModifierMoves(log, NONE, Mods(m.shift, false, false), KEY_LEFTSHIFT, m.shift, Down(KEY_LEFTSHIFT));
    var log2 := log1 + When(m.ctrl, Down(KEY_LEFTCTRL));
    ModifierMoves(log1, Mods(m.shift, false, false), m.(alt := false), KEY_LEFTCTRL, m.ctrl, Down(KEY_LEFTCTRL));
    ModifierMoves(log2, m.(alt := false), m, KEY_LEFTALT, m.alt, Down(KEY_LEFTALT));
  }

  /** Releasing leaves nothing down, whatever was held. */
  lemma ReleasedIsClean(log: seq<KeyEvent>, held: Option<nat>, mods: Mods)
    requires Holds(log, held, mods)
    ensures Holds(Released(log, held, mods), None, NONE) && DownKeys(Released(log, held, mods)) == {}
  {
    KeyUp(log, held, mods);
    ModifiersUp(if held.Some? then log + [Up(held.value)] else log, mods);
  }

  /** Pressing after a release leaves exactly the key and its modifiers down. */
  lemma PressedIsClean(log: seq<KeyEvent>, code: nat, mods: Mods)
    requires Holds(log, None, NONE) && !IsModifierKey(code)
    ensures Holds(Pressed(log, code, mods), Some(code), mods)
  {
    hide Holds, When;
    ModifiersDown(log, mods);
    KeyDown(log + When(mods.shift, Down(KEY_LEFTSHIFT)) + When(mods.ctrl, Down(KEY_LEFTCTRL))
            + When(mods.alt, Down(KEY_LEFTALT)), mods, code);
  }

  class EmulatedKeyboard {
    var held: Option<nat>
    var heldModifiers: Mods
    var previous: Mods
    ghost var log: seq<KeyEvent>

    ghost predicate Valid()
      reads this
    {
      Holds(log, held, heldModifiers)
    }

    constructor ()
      ensures Valid() && held == None && heldModifiers == NONE && log == []
    {
      held, heldModifiers, previous, log := None, NONE, NONE, [];
    }

    method NotifyKey(send: bool, e: KeyEvent)
      modifies this`log
      ensures log == old(log) + When(send, e)
    {
      if send {
        log := log + [e];
      }
    }

    /** release_key_if_needed: afterwards nothing is down. */
    method ReleaseKeyIfNeeded()
      requires Valid()
      modifies this
      ensures Valid() && held == None && heldModifiers == NONE && previous == NONE && DownKeys(log) == {}
      ensures log == Released(old(log), old(held), old(heldModifiers))
    {
      hide Holds, When;
      ReleasedIsClean(log, held, heldModifiers);
      if held.Some? {
        log := log + [Up(held.value)];
      }
      held := None;
      NotifyKey(heldModifiers.alt, Up(KEY_LEFTALT));
      NotifyKey(heldModifiers.ctrl, Up(KEY_LEFTCTRL));
      NotifyKey(heldModifiers.shift, Up(KEY_LEFTSHIFT));
      previous, heldModifiers := NONE, NONE;
    }

    /**
      press_key: whatever was held is released first; then the modifiers go down that the seat does not hold
      itself, then the key.
    */
    method PressKey(code: nat, mods: Option<Mods>, seat: Option<Mods>)
      requires Valid() && !IsModifierKey(code)
      modifies this
      ensures Valid() && held == Some(code)
      ensures heldModifiers == if mods.None? then NONE else Without(mods.value, if seat.Some? then seat.value else NONE)
      ensures log == Pressed(Released(old(log), old(held), old(heldModifiers)), code, heldModifiers)
    {
      hide Holds, When;
      ReleaseKeyIfNeeded();
      if mods.Some? {
        if seat.Some? {
          previous := seat.value;
        }
        heldModifiers := Without(mods.value, previous);
      }
      PressedIsClean(log, code, heldModifiers);
      NotifyKey(heldModifiers.shift, Down(KEY_LEFTSHIFT));
      NotifyKey(heldModifiers.ctrl, Down(KEY_LEFTCTRL));
      NotifyKey(heldModifiers.alt, Down(KEY_LEFTALT));
      log := log + [Down(code)];
      held := Some(code);
    }
  }
}
