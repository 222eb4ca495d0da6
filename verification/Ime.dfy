/**
  Typing text through a generated keymap (src/ime.cpp): characters get keycodes from a cyclic list, the queue of
  the latest 47 assignments becomes the keymap, and the collected keycodes are pressed under it.
*/
module Ime {
  import opened ImeKeyboard
  import opened Options
  import opened Utf8

  type Keysym = bv32

  const NO_SYMBOL: Keysym := 0
  const EURO_SIGN: Keysym := 0x20AC

  /** keysym_from_ch; xkb stands for xkb_utf32_to_keysym. */
  function KeysymFromCh(xkb: bv32 -> Keysym, ch: bv32): Keysym {
    if ch == 0x20AC then EURO_SIGN
    else if 0x3130 <= ch <= 0x318F || 0x11A8 <= ch <= 0x11C2 || ch == 0x11EB || ch == 0x11F0 || ch == 0x11F9
            || ch == 0x2030
    then ch | 0x100_0000
    else xkb(ch)
  }

  /** The keysym of the Unicode range for a character. */
  function UnicodeKeysym(ch: bv32): Keysym {
    ch | 0x100_0000
  }

  /**
    What a client reads a keysym as. It knows the euro sign and the keysyms of the Unicode range, and it undoes what
    xkbcommon makes of a character.
  */
  ghost predicate Reads(character: Keysym -> bv32, xkb: bv32 -> Keysym) {
    && character(EURO_SIGN) == 0x20AC
    && (forall ch: bv32 :: 0x100 <= ch <= 0x10FFFF ==> character(UnicodeKeysym(ch)) == ch)
    && (forall ch: bv32 :: xkb(ch) != NO_SYMBOL ==> character(xkb(ch)) == ch)
  }

  /** The keysym of a character stands for that character. */
  lemma KeysymStandsForIt(character: Keysym -> bv32, xkb: bv32 -> Keysym, ch: bv32)
    requires Reads(character, xkb) && KeysymFromCh(xkb, ch) != NO_SYMBOL
    ensures character(KeysymFromCh(xkb, ch)) == ch
  {
    assert UnicodeKeysym(ch) == ch | 0x100_0000;
  }

  /** The characters xkbcommon would give another keysym, or none, can always be typed. */
  lemma ExceptionsAreTypable(xkb: bv32 -> Keysym, ch: bv32)
    requires || ch == 0x20AC || 0x3130 <= ch <= 0x318F || 0x11A8 <= ch <= 0x11C2 || ch in {0x11EB, 0x11F0, 0x11F9}
             || ch == 0x2030
    ensures KeysymFromCh(xkb, ch) != NO_SYMBOL
    ensures forall other: bv32 -> Keysym :: KeysymFromCh(other, ch) == KeysymFromCh(xkb, ch)
  {}

  // ----- The cyclic list of keycodes -----

  const COUNT: nat := 47
  const WORD: nat := 0x1_0000_0000

  /** allow_keycodes: the evdev codes of 1..=, Q..}, A..`, \ and Z../ in that order. */
  function AllowKeycode(i: nat): nat
    requires i < COUNT
  {
    if i < 12 then i + 2 else if i < 24 then i + 4 else if i < 36 then i + 6 else i + 7
  }

  /**
    They rise from KEY_1 to KEY_SLASH and leave out exactly backspace, tab, enter, control and shift, so the keymap's
    range of keycodes has room for them, and a client that takes them for evdev codes reads none as an action.
  */
  lemma KeycodesAreOfPrintingKeys(i: nat, j: nat, code: nat)
    requires i < j < COUNT
    ensures 2 <= AllowKeycode(i) < AllowKeycode(j) <= 53
    ensures (exists k: nat :: k < COUNT && AllowKeycode(k) == code) <==>
            2 <= code <= 53 && code !in {14, 15, 28, 29, 42}
  {
    if 2 <= code <= 53 && code !in {14, 15, 28, 29, 42} {
      var k := if code < 14 then code - 2 else if code < 28 then code - 4 else if code < 42 then code - 6 else code - 7;
      assert AllowKeycode(k) == code;
    }
  }

  /** The keycode of the i-th assignment since the last reset; the index is a 32-bit counter. */
  function CodeAt(i: nat): nat {
    AllowKeycode(i % WORD % COUNT)
  }

  datatype Key = Key(keycode: nat, keysym: Keysym)

  /** The queue after the assignments `hist`: the latest of them, at most as many as there are keycodes. */
  function Queue(hist: seq<Keysym>): seq<Key> {
    var n := if |hist| < COUNT then |hist| else COUNT;
    seq(n, i requires 0 <= i < n => Key(CodeAt(|hist| - n + i), hist[|hist| - n + i]))
  }

  function Last<T>(s: seq<T>): T
    requires s != []
  {
    s[|s| - 1]
  }

  /** The keycodes pushed after typing, and for every typable character the assignment it uses. */
  datatype Collected = Collected(hist: seq<Keysym>, places: seq<nat>)

  function CollectOne(c: Collected, keysym: Keysym): Collected {
    if keysym == NO_SYMBOL then c
    else if c.hist != [] && Last(c.hist) == keysym then Collected(c.hist, c.places + [|c.hist| - 1])
    else Collected(c.hist + [keysym], c.places + [|c.hist|])
  }

  function Collect(hist: seq<Keysym>, syms: seq<Keysym>): Collected {
    if syms == [] then Collected(hist, []) else CollectOne(Collect(hist, syms[..|syms| - 1]), Last(syms))
  }

  function Codes(places: seq<nat>): seq<nat> {
    seq(|places|, i requires 0 <= i < |places| => CodeAt(places[i]))
  }

  /** The keysyms of the action keys: Return, BackSpace, Delete and the arrows. */
  const ACTIONS: seq<Key> := [
    Key(28, 0xFF0D), Key(14, 0xFF08), Key(111, 0xFFFF), Key(105, 0xFF51), Key(106, 0xFF53), Key(103, 0xFF52),
    Key(108, 0xFF54)]

  /** The key lines of generate_keymap. */
  function Keymap(keys: seq<Key>): seq<Key> {
    keys + ACTIONS
  }

  function KeysymsOf(xkb: bv32 -> Keysym, chars: seq<bv32>): seq<Keysym> {
    seq(|chars|, i requires 0 <= i < |chars| => KeysymFromCh(xkb, chars[i]))
  }

  // ----- The input method -----

  class InputMethod {
    var keys: seq<Key>
    var nextKeycodeIndex: nat
    const keyboard: EmulatedKeyboard
    /** The keysyms assigned since the last reset. */
    ghost var hist: seq<Keysym>

    ghost predicate Valid()
      reads this
    {
      keys == Queue(hist) && nextKeycodeIndex == |hist| % WORD
    }

    constructor ()
      ensures Valid() && hist == [] && fresh(keyboard) && keyboard.Valid() && keyboard.log == []
    {
      keyboard := new EmulatedKeyboard();
      keys, nextKeycodeIndex, hist := [], 0, [];
    }

    /** reset_ime_keyboard, after 100 ms without typing. */
    method ResetKeyboard()
      requires keyboard.Valid()
      modifies this, keyboard
      ensures Valid() && hist == [] && keyboard.Valid() && DownKeys(keyboard.log) == {}
    {
      keyboard.ReleaseKeyIfNeeded();
      keys, nextKeycodeIndex, hist := [], 0, [];
    }

    method KeycodeFromCh(xkb: bv32 -> Keysym, ch: bv32, ghost places: seq<nat>)
      returns (r: Option<nat>, ghost places': seq<nat>)
      requires Valid()
      modifies this
      ensures Valid() && Collected(hist, places') == CollectOne(Collected(old(hist), places), KeysymFromCh(xkb, ch))
      ensures r == if KeysymFromCh(xkb, ch) == NO_SYMBOL then None else Some(CodeAt(Last(places')))
      ensures KeysymFromCh(xkb, ch) == NO_SYMBOL ==> places' == places
      ensures KeysymFromCh(xkb, ch) != NO_SYMBOL ==> |places'| == |places| + 1 && places' == places + [Last(places')]
    {
      hide CodeAt, KeysymFromCh, Queue;
      QueueBack(hist);
      var keysym := KeysymFromCh(xkb, ch);
      QueueNext(hist, keysym);
      if keysym == NO_SYMBOL {
        return None, places;
      }
      if keys != [] && Last(keys).keysym == keysym {
        return Some(Last(keys).keycode), places + [|hist| - 1];
      }
      if |keys| >= COUNT {
        keys := keys[1..];
      }
      var keycode := AllowKeycode(nextKeycodeIndex % COUNT);
      nextKeycodeIndex := (nextKeycodeIndex + 1) % WORD;
      keys := keys + [Key(keycode, keysym)];
      CodeAtIs(|hist|);
      r, places' := Some(keycode), places + [|hist|];
      hist := hist + [keysym];
    }

    /** The decoding loop of type_text. */
    method CollectKeycodes(text: seq<Byte>, xkb: bv32 -> Keysym) returns (keycodes: seq<nat>, ghost places: seq<nat>)
      requires Valid() && WholeText(text)
      modifies this
      ensures Valid() && Collected(hist, places) == Collect(old(hist), KeysymsOf(xkb, DecodeAll(text)))
      ensures keycodes == Codes(places)
    {
      var rest := text;
      ghost var done: seq<bv32> := [];
      keycodes, places := [], [];
      hide CollectOne, KeysymFromCh, CodeAt, Valid, Whole, Codes, Collect, KeysymsOf, Advance, Decode;
      StartOfText(old(hist), xkb);
      while rest != []
        invariant WholeText(rest) && done + DecodeAll(rest) == DecodeAll(text) && Valid()
        invariant Collected(hist, places) == Collect(old(hist), KeysymsOf(xkb, done))
        invariant keycodes == Codes(places)
        decreases |rest|
      {
        Regrouped(done, Decode(rest), DecodeAll(Advance(rest)));
        CollectNext(old(hist), xkb, done, Decode(rest));
        ghost var ch' := Decode(rest);
        AdvanceShortens(rest);
        var ch;
        ch, rest := Utf8Decode(rest);
        var keycode;
        keycode, places := KeycodeFromCh(xkb, ch, places);
        done := done + [ch'];
        if keycode.None? {
          continue;
        }
        CodesNext(places);
        keycodes := keycodes + [keycode.value];
      }
      assert done + [] == done;
    }

    /**
      type_text on any bytes in which no character is cut off. `direct` is the key try_type_keysym finds for a single
      ASCII character in the keymap in use, None when it finds none; `seat` are the modifiers the seat holds. The
      keymap is None when none is generated.
    */
    method TypeText(text: seq<Byte>, xkb: bv32 -> Keysym, direct: Option<(nat, Mods)>, seat: Option<Mods>)
      returns (keymap: Option<seq<Key>>, keycodes: seq<nat>)
      requires Valid() && keyboard.Valid() && WholeText(text)
      requires direct.Some? ==> !IsModifierKey(direct.value.0)
      modifies this, keyboard
      ensures Valid() && keyboard.Valid()
      ensures if old(hist) == [] && direct.Some? && |text| == 1 && text[0] < 0x80
                 && KeysymFromCh(xkb, text[0]) != NO_SYMBOL
              then
                && keymap == None && hist == [] && keyboard.held == Some(direct.value.0)
                && keyboard.log == Pressed(
                     Released(Released(old(keyboard.log), old(keyboard.held), old(keyboard.heldModifiers)), None, NONE),
                     direct.value.0, Without(direct.value.1, if seat.Some? then seat.value else NONE))
              else
                var c := Collect(old(hist), KeysymsOf(xkb, DecodeAll(text)));
                && hist == c.hist && keycodes == Codes(c.places) && keymap == Some(Keymap(Queue(hist)))
                && keyboard.log == Released(old(keyboard.log), old(keyboard.held), old(keyboard.heldModifiers))
                                   + Strokes(keycodes)
    {
      hide CodeAt, KeysymFromCh, Strokes, Released, Pressed, Collect, Codes, Keymap, DecodeAll;
      keymap, keycodes := None, [];
      OneByte(text);
      if text != [] && Size(text[0]) == 1 && |text| == 1 && keys == [] {
        var keysym := KeysymFromCh(xkb, text[0]);
        if keysym != NO_SYMBOL && direct.Some? {
          keyboard.ReleaseKeyIfNeeded();
          keyboard.PressKey(direct.value.0, Some(direct.value.1), seat);
          return;
        }
      }
      ghost var places;
      keycodes, places := CollectKeycodes(text, xkb);
      keymap := Some(Keymap(keys));
      keyboard.ReleaseKeyIfNeeded();
      PressAll(keycodes, places);
    }

    /** The presses at the end of type_text. */
    method PressAll(keycodes: seq<nat>, ghost places: seq<nat>)
      requires keyboard.Valid() && keyboard.held == None && keyboard.heldModifiers == NONE
      requires keycodes == Codes(places)
      modifies keyboard
      ensures keyboard.Valid() && keyboard.log == old(keyboard.log) + Strokes(keycodes)
    {
      hide CodeAt;
      assert old(keyboard.log) + [] == old(keyboard.log);
      for i := 0 to |keycodes|
        invariant keyboard.Valid() && keyboard.heldModifiers == NONE
        invariant keyboard.held == if i == 0 then None else Some(keycodes[i - 1])
        invariant keyboard.log == old(keyboard.log) + Strokes(keycodes[..i])
      {
        NoModifierKey(places[i]);
        StrokesNext(old(keyboard.log), keycodes, i);
        keyboard.PressKey(keycodes[i], None, None);
      }
      assert keycodes[..|keycodes|] == keycodes;
    }
  }

  /** One key after the other, each released before the next goes down. */
  function Strokes(keycodes: seq<nat>): seq<KeyEvent> {
    if keycodes == [] then []
    else
      var front := keycodes[..|keycodes| - 1];
      Strokes(front) + (if front == [] then [] else [Up(Last(front))]) + [Down(Last(keycodes))]
  }

  lemma StrokesNext(log: seq<KeyEvent>, keycodes: seq<nat>, i: nat)
    requires i < |keycodes|
    ensures var held := if i == 0 then None else Some(keycodes[i - 1]);
            Pressed(Released(log + Strokes(keycodes[..i]), held, NONE), keycodes[i], NONE)
            == log + Strokes(keycodes[..i + 1])
  {
    assert keycodes[..i + 1][..i] == keycodes[..i];
  }

  lemma NoModifierKey(p: nat)
    ensures !IsModifierKey(CodeAt(p))
  {}

  lemma AdvanceShortens(text: seq<Byte>)
    requires Whole(text)
    ensures |Advance(text)| < |text|
  {}

  lemma Regrouped<T>(done: seq<T>, x: T, rest: seq<T>)
    ensures done + ([x] + rest) == (done + [x]) + rest
  {}

  lemma StartOfText(hist: seq<Keysym>, xkb: bv32 -> Keysym)
    ensures Codes([]) == [] && Collect(hist, KeysymsOf(xkb, [])) == Collected(hist, [])
  {}

  lemma CodesNext(places: seq<nat>)
    requires places != []
    ensures Codes(places) == Codes(places[..|places| - 1]) + [CodeAt(Last(places))]
  {
    hide CodeAt;
  }

  lemma CollectNext(hist: seq<Keysym>, xkb: bv32 -> Keysym, done: seq<bv32>, ch: bv32)
    ensures Collect(hist, KeysymsOf(xkb, done + [ch])) ==
            CollectOne(Collect(hist, KeysymsOf(xkb, done)), KeysymFromCh(xkb, ch))
  {
    hide CollectOne, KeysymFromCh;
    var syms := KeysymsOf(xkb, done + [ch]);
    assert syms[..|done|] == KeysymsOf(xkb, done);
  }

  lemma OneByte(text: seq<Byte>)
    requires WholeText(text)
    ensures text != [] ==> (Size(text[0]) == 1 <==> text[0] < 0x80)
  {}

  lemma QueueBack(hist: seq<Keysym>)
    ensures Queue(hist) == [] <==> hist == []
    ensures hist != [] ==> Last(Queue(hist)) == Key(CodeAt(|hist| - 1), Last(hist))
  {}

  lemma QueueNext(hist: seq<Keysym>, keysym: Keysym)
    ensures var q := Queue(hist);
            Queue(hist + [keysym]) == (if |q| >= COUNT then q[1..] else q) + [Key(CodeAt(|hist|), keysym)]
  {
    hide CodeAt;
  }

  lemma CodeAtIs(n: nat)
    ensures CodeAt(n) == AllowKeycode(n % WORD % COUNT) && (n % WORD + 1) % WORD == (n + 1) % WORD
  {}

  // ----- What type_text collects -----

  /** The keysyms of the characters that can be typed. */
  function Typable(syms: seq<Keysym>): seq<Keysym> {
    if syms == [] then []
    else Typable(syms[..|syms| - 1]) + (if Last(syms) == NO_SYMBOL then [] else [Last(syms)])
  }

  /** How many runs of equal keysyms there are. */
  function RunCount(f: seq<Keysym>): nat {
    if |f| <= 1 then |f| else RunCount(f[..|f| - 1]) + (if Last(f) == f[|f| - 2] then 0 else 1)
  }

  /** Character i goes on with the assignment of the one before it, or starts the next run. */
  ghost predicate StepsAt(f: seq<Keysym>, places: seq<nat>, i: nat)
    requires 0 < i < |f| == |places|
  {
    places[i] == places[i - 1] + (if f[i] == f[i - 1] then 0 else 1)
  }

  ghost predicate Steps(f: seq<Keysym>, places: seq<nat>)
    requires |f| == |places|
  {
    forall i: nat :: 0 < i < |f| ==> StepsAt(f, places, i)
  }

  /** Each typable character uses an assignment of its own keysym. */
  ghost predicate OwnKeysyms(f: seq<Keysym>, c: Collected) {
    && |c.places| == |f|
    && forall i :: 0 <= i < |f| ==> c.places[i] < |c.hist| && c.hist[c.places[i]] == f[i]
  }

  /** The first character may go on with the assignment typed last; the last one uses the latest. */
  ghost predicate Bounds(hist: seq<Keysym>, f: seq<Keysym>, c: Collected) {
    && |c.places| == |f| && hist <= c.hist
    && (f == [] ==> c.hist == hist)
    && (f != [] ==> Last(c.places) == |c.hist| - 1)
    && (f != [] ==> c.places[0] == if hist != [] && Last(hist) == f[0] then |hist| - 1 else |hist|)
  }

  ghost predicate Tracks(hist: seq<Keysym>, f: seq<Keysym>, c: Collected) {
    OwnKeysyms(f, c) && Steps(f, c.places) && Bounds(hist, f, c)
  }

  lemma OwnKeysymsOne(f: seq<Keysym>, c: Collected, keysym: Keysym)
    requires OwnKeysyms(f, c) && keysym != NO_SYMBOL
    ensures OwnKeysyms(f + [keysym], CollectOne(c, keysym))
  {
    var g, d := f + [keysym], CollectOne(c, keysym);
    forall i | 0 <= i < |g|
      ensures d.places[i] < |d.hist| && d.hist[d.places[i]] == g[i]
    {
      if i < |f| {
        assert d.places[i] == c.places[i];
      }
    }
  }

  lemma StepsOne(f: seq<Keysym>, places: seq<nat>, keysym: Keysym, place: nat)
    requires |f| == |places| && Steps(f, places)
    requires f != [] ==> place == Last(places) + (if keysym == Last(f) then 0 else 1)
    ensures Steps(f + [keysym], places + [place])
  {
    forall i: nat | 0 < i < |f| + 1
      ensures StepsAt(f + [keysym], places + [place], i)
    {
      if i < |f| {
        assert StepsAt(f, places, i);
      }
    }
  }

  lemma BoundsOne(hist: seq<Keysym>, f: seq<Keysym>, c: Collected, keysym: Keysym)
    requires Bounds(hist, f, c) && keysym != NO_SYMBOL
    ensures Bounds(hist, f + [keysym], CollectOne(c, keysym))
  {
    var g, d := f + [keysym], CollectOne(c, keysym);
    assert f != [] ==> g[0] == f[0] && d.places[0] == c.places[0];
  }

  lemma TracksOne(hist: seq<Keysym>, f: seq<Keysym>, c: Collected, keysym: Keysym)
    requires Tracks(hist, f, c) && keysym != NO_SYMBOL
    ensures Tracks(hist, f + [keysym], CollectOne(c, keysym))
  {
    OwnKeysymsOne(f, c, keysym);
    BoundsOne(hist, f, c, keysym);
    var d := CollectOne(c, keysym);
    assert f != [] ==> c.hist[Last(c.places)] == Last(f);
    hide OwnKeysyms, Steps;
    StepsOne(f, c.places, keysym, Last(d.places));
  }

  /** So the assignments used are as many as there are runs. */
  lemma {:induction false} PlacesCountRuns(f: seq<Keysym>, places: seq<nat>)
    requires |f| == |places| > 0 && Steps(f, places)
    ensures Last(places) + 1 == places[0] + RunCount(f)
  {
    if |f| > 1 {
      var n := |f| - 1;
      assert StepsAt(f, places, n);
      forall i: nat | 0 < i < n
        ensures StepsAt(f[..n], places[..n], i)
      {
        assert StepsAt(f, places, i);
      }
      PlacesCountRuns(f[..n], places[..n]);
    }
  }

  lemma {:induction false} CollectTracks(hist: seq<Keysym>, syms: seq<Keysym>)
    ensures Tracks(hist, Typable(syms), Collect(hist, syms))
  {
    if syms != [] {
      var rest := syms[..|syms| - 1];
      CollectTracks(hist, rest);
      hide Tracks;
      if Last(syms) == NO_SYMBOL {
        assert Typable(rest) + [] == Typable(rest);
      } else {
        TracksOne(hist, Typable(rest), Collect(hist, rest), Last(syms));
      }
    }
  }

  // ----- What the keymap makes of a keycode -----

  /** The keysym of the last line for the keycode, None when there is no line. */
  function Lookup(lines: seq<Key>, code: nat): Option<Keysym> {
    if lines == [] then None
    else if Last(lines).keycode == code then Some(Last(lines).keysym)
    else Lookup(lines[..|lines| - 1], code)
  }

  /** The latest of n assignments that got the same keycode as assignment p. */
  function Latest(p: nat, n: nat): nat
    requires p < n
  {
    p + COUNT * ((n - 1 - p) / COUNT)
  }

  lemma CodesRepeat(p: nat, q: nat)
    requires p < WORD && q < WORD
    ensures CodeAt(p) == CodeAt(q) <==> p % COUNT == q % COUNT
  {}

  lemma LatestIs(p: nat, n: nat)
    requires p < n
    ensures p <= Latest(p, n) < n <= Latest(p, n) + COUNT && Latest(p, n) % COUNT == p % COUNT
  {
    var k := (n - 1 - p) / COUNT;
    assert (p + COUNT * k) % COUNT == p % COUNT;
  }

  lemma SameResidueNearby(p: nat, q: nat)
    requires p % COUNT == q % COUNT && p < q + COUNT && q < p + COUNT
    ensures p == q
  {}

  /** No two entries of the queue share a keycode. */
  ghost predicate DistinctKeycodes(q: seq<Key>) {
    forall i, j :: 0 <= i < j < |q| ==> q[i].keycode != q[j].keycode
  }

  /** The 32-bit index has not wrapped around between the assignments that are still in the queue. */
  predicate NoWrapInQueue(n: nat) {
    n <= WORD || n % WORD == 0 || n % WORD >= COUNT
  }

  lemma SamePeriod(p: nat, q: nat)
    requires p / WORD == q / WORD && p < q < p + COUNT
    ensures CodeAt(p) != CodeAt(q)
  {
    var i, j := p % WORD, q % WORD;
    assert p == WORD * (p / WORD) + i && q == WORD * (q / WORD) + j;
    if i % COUNT == j % COUNT {
      SameResidueNearby(i, j);
    }
  }

  /** 2^32 is 42 more than a multiple of 47: what lies u before the wrap meets what lies 42 - u behind it. */
  lemma WrapMeets(period: nat, u: nat)
    requires period > 0 && 1 <= u <= 42
    ensures WORD * period - u >= 0 && CodeAt(WORD * period - u) == CodeAt(WORD * period + (42 - u))
  {
    var before := WORD * period - u;
    assert before == WORD * (period - 1) + (WORD - u);
    Remainder(period - 1, WORD - u);
    Remainder(period, 42 - u);
    assert WORD - u == COUNT * 91382282 + (42 - u);
    Remainder(91382282, 42 - u);
  }

  lemma Remainder(k: nat, r: nat)
    ensures r < WORD ==> (WORD * k + r) % WORD == r && (WORD * k + r) / WORD == k
    ensures r < COUNT ==> (COUNT * k + r) % COUNT == r
  {}

  /**
    The queue holds at most 47 entries, and their keycodes are distinct exactly when the index has not wrapped
    around between them.
  */
  lemma QueueIsDistinctIff(hist: seq<Keysym>)
    ensures |Queue(hist)| <= COUNT
    ensures DistinctKeycodes(Queue(hist)) <==> NoWrapInQueue(|hist|)
  {
    var q, n := Queue(hist), |hist|;
    if NoWrapInQueue(n) {
      forall i, j | 0 <= i < j < |q|
        ensures q[i].keycode != q[j].keycode
      {
        WindowInPeriod(n, n - |q| + i, n - |q| + j);
        SamePeriod(n - |q| + i, n - |q| + j);
      }
    } else {
      var period, m := n / WORD, n % WORD;
      var u := if m <= 42 then 43 - m else 1;
      assert n == WORD * period + m && period > 0;
      WrapMeets(period, u);
      hide CodeAt;
      assert q[COUNT - m - u].keycode == CodeAt(WORD * period - u);
      assert q[COUNT - m + (42 - u)].keycode == CodeAt(WORD * period + (42 - u));
    }
  }

  lemma WindowInPeriod(n: nat, p: nat, q: nat)
    requires NoWrapInQueue(n) && p < q < n <= p + COUNT
    ensures p / WORD == q / WORD
  {
    var period, m := n / WORD, n % WORD;
    assert n == WORD * period + m;
    if n > WORD && m == 0 {
      Remainder(period - 1, p - WORD * (period - 1));
      Remainder(period - 1, q - WORD * (period - 1));
    } else if n > WORD {
      Remainder(period, p - WORD * period);
      Remainder(period, q - WORD * period);
    }
  }

  /** So up to 2^32 assignments after a reset no keycode repeats, */
  lemma QueueIsDistinct(hist: seq<Keysym>, i: nat, j: nat)
    requires |hist| <= WORD && i < j < |Queue(hist)|
    ensures |Queue(hist)| <= COUNT && Queue(hist)[i].keycode != Queue(hist)[j].keycode
  {
    hide CodeAt, Queue;
    QueueIsDistinctIff(hist);
  }

  /** and the next one repeats one that is still in the queue. */
  lemma WrapRepeatsAKeycode(hist: seq<Keysym>)
    requires |hist| == WORD + 1
    ensures !DistinctKeycodes(Queue(hist))
    ensures |Queue(hist)| == COUNT && Queue(hist)[4].keycode == Queue(hist)[46].keycode
  {
    QueueIsDistinctIff(hist);
    WrapMeets(1, 42);
    hide CodeAt;
    assert Queue(hist)[4].keycode == CodeAt(WORD - 42) && Queue(hist)[46].keycode == CodeAt(WORD);
  }

  lemma LookupOfUnique(lines: seq<Key>, j: nat)
    requires j < |lines|
    requires forall i :: 0 <= i < |lines| && lines[i].keycode == lines[j].keycode ==> i == j
    ensures Lookup(lines, lines[j].keycode) == Some(lines[j].keysym)
  {
    if j != |lines| - 1 {
      assert Last(lines).keycode != lines[j].keycode;
      LookupOfUnique(lines[..|lines| - 1], j);
    }
  }

  lemma NoActionKey(i: nat, a: nat)
    requires a < |ACTIONS|
    ensures CodeAt(i) != ACTIONS[a].keycode
  {}

  /** A line that is the only one of the queue for its keycode is the one the keymap finds. */
  lemma LookupInQueue(hist: seq<Keysym>, j: nat)
    requires j < |Queue(hist)|
    requires forall i :: 0 <= i < |Queue(hist)| && i != j ==> Queue(hist)[i].keycode != Queue(hist)[j].keycode
    ensures Lookup(Keymap(Queue(hist)), Queue(hist)[j].keycode) == Some(Queue(hist)[j].keysym)
  {
    hide CodeAt, Lookup;
    var q, lines := Queue(hist), Keymap(Queue(hist));
    assert lines[j] == q[j];
    forall i | 0 <= i < |lines| && lines[i].keycode == lines[j].keycode
      ensures i == j
    {
      if i < |q| {
        assert lines[i] == q[i];
      } else {
        assert lines[i] == ACTIONS[i - |q|];
        NoActionKey(|hist| - |q| + j, i - |q|);
      }
    }
    LookupOfUnique(lines, j);
  }

  /** The action keys stand for themselves in every keymap, whatever was typed. */
  lemma ActionsAreFound(hist: seq<Keysym>, a: nat)
    requires a < |ACTIONS|
    ensures Lookup(Keymap(Queue(hist)), ACTIONS[a].keycode) == Some(ACTIONS[a].keysym)
  {
    var lines := Keymap(Queue(hist));
    var n := |lines| - |ACTIONS|;
    forall i | 0 <= i < |lines| && lines[i].keycode == lines[n + a].keycode
      ensures i == n + a
    {
      if i < n {
        NoActionKey(|hist| - n + i, a);
      }
    }
    LookupOfUnique(lines, n + a);
  }

  /** In the keymap of the queue a keycode stands for the latest assignment that got it. */
  lemma LookupIsLatest(hist: seq<Keysym>, p: nat)
    requires p < |hist| <= WORD
    ensures Latest(p, |hist|) < |hist|
    ensures Lookup(Keymap(Queue(hist)), CodeAt(p)) == Some(hist[Latest(p, |hist|)])
  {
    hide CodeAt, Lookup, Latest, Keymap;
    LatestIs(p, |hist|);
    var q := Queue(hist);
    var j := Latest(p, |hist|) - (|hist| - |q|);
    CodesRepeat(p, Latest(p, |hist|));
    assert q[j].keycode == CodeAt(p) && q[j].keysym == hist[Latest(p, |hist|)];
    QueueIsDistinctIff(hist);
    LookupInQueue(hist, j);
  }

  /** What the keymap finds stands on one of its lines. */
  lemma LookupFinds(lines: seq<Key>, code: nat) returns (i: nat)
    requires Lookup(lines, code).Some?
    ensures i < |lines| && lines[i] == Key(code, Lookup(lines, code).value)
  {
    if Last(lines).keycode == code {
      i := |lines| - 1;
    } else {
      i := LookupFinds(lines[..|lines| - 1], code);
    }
  }

  /** So a keycode that was assigned finds nothing but an assignment that is still in the queue. */
  lemma LookupFindsQueued(hist: seq<Keysym>, p: nat) returns (i: nat)
    requires Lookup(Keymap(Queue(hist)), CodeAt(p)).Some?
    ensures |hist| - COUNT <= i < |hist| && hist[i] == Lookup(Keymap(Queue(hist)), CodeAt(p)).value
  {
    hide CodeAt, Lookup;
    var q, lines := Queue(hist), Keymap(Queue(hist));
    var k := LookupFinds(lines, CodeAt(p));
    if k >= |q| {
      assert lines[k] == ACTIONS[k - |q|];
      NoActionKey(p, k - |q|);
      assert false;
    }
    assert lines[k] == q[k];
    i := |hist| - |q| + k;
  }

  // ----- Typing is right -----

  /** Under the keymap generated at the end, every collected keycode gives the keysym of its character. */
  ghost predicate TypedRight(f: seq<Keysym>, c: Collected) {
    && |c.places| == |f|
    && forall i :: 0 <= i < |f| ==> Lookup(Keymap(Queue(c.hist)), CodeAt(c.places[i])) == Some(f[i])
  }

  /** Typing is right exactly when every run that loses its keycode to a later run has that run's keysym. */
  lemma TypedRightIff(hist: seq<Keysym>, syms: seq<Keysym>)
    requires |Collect(hist, syms).hist| <= WORD
    ensures var c := Collect(hist, syms);
            && (forall i :: 0 <= i < |c.places| ==> c.places[i] < |c.hist|)
            && (TypedRight(Typable(syms), c) <==>
                  forall i :: 0 <= i < |c.places| ==> c.hist[Latest(c.places[i], |c.hist|)] == c.hist[c.places[i]])
  {
    var c, f := Collect(hist, syms), Typable(syms);
    CollectTracks(hist, syms);
    hide CodeAt, Queue, Keymap, Lookup, Collect, Typable, Latest;
    forall i | 0 <= i < |f|
      ensures Latest(c.places[i], |c.hist|) < |c.hist|
      ensures Lookup(Keymap(Queue(c.hist)), CodeAt(c.places[i])) == Some(c.hist[Latest(c.places[i], |c.hist|)])
    {
      LookupIsLatest(c.hist, c.places[i]);
    }
  }

  lemma PlacesAreNear(hist: seq<Keysym>, f: seq<Keysym>, c: Collected, i: nat)
    requires Tracks(hist, f, c) && i < |f|
    ensures c.places[0] <= c.places[i]
  {
    if i > 0 {
      PlacesAreNear(hist, f, c, i - 1);
      assert StepsAt(f, c.places, i);
    }
  }

  /** With at most 47 runs of equal keysyms every character comes out as itself. */
  lemma FewRunsAreTypedRight(hist: seq<Keysym>, syms: seq<Keysym>)
    requires NoWrapInQueue(|Collect(hist, syms).hist|) && RunCount(Typable(syms)) <= COUNT
    ensures TypedRight(Typable(syms), Collect(hist, syms))
  {
    var c, f := Collect(hist, syms), Typable(syms);
    CollectTracks(hist, syms);
    QueueIsDistinctIff(c.hist);
    if f != [] {
      PlacesCountRuns(f, c.places);
    }
    hide CodeAt, Collect, Typable, Lookup, Keymap, Queue, Steps, NoWrapInQueue, DistinctKeycodes;
    forall i | 0 <= i < |f|
      ensures Lookup(Keymap(Queue(c.hist)), CodeAt(c.places[i])) == Some(f[i])
    {
      PlacesAreNear(hist, f, c, i);
      RecentIsFound(c.hist, c.places[i]);
    }
  }

  /** The keymap finds each of the latest 47 assignments under its own keycode. */
  lemma RecentIsFound(hist: seq<Keysym>, p: nat)
    requires p < |hist| <= p + COUNT && DistinctKeycodes(Queue(hist))
    ensures Lookup(Keymap(Queue(hist)), CodeAt(p)) == Some(hist[p])
  {
    hide CodeAt, Lookup, Keymap;
    var j := p - (|hist| - |Queue(hist)|);
    assert Queue(hist)[j] == Key(CodeAt(p), hist[p]);
    LookupInQueue(hist, j);
  }

  /** No keysym comes back after its run has ended. */
  ghost predicate RunsDiffer(f: seq<Keysym>) {
    forall i, j :: 0 <= i < j < |f| && f[i] == f[j] ==> f[j - 1] == f[j]
  }

  lemma PlaceOf(hist: seq<Keysym>, f: seq<Keysym>, c: Collected, q: nat, i: nat) returns (j: nat)
    requires Tracks(hist, f, c) && i < |f| && c.places[0] <= q <= c.places[i]
    ensures j <= i && c.places[j] == q && (j > 0 ==> f[j - 1] != f[j])
  {
    assert i > 0 ==> StepsAt(f, c.places, i);
    if c.places[i] == q && (i == 0 || f[i - 1] != f[i]) {
      j := i;
    } else {
      j := PlaceOf(hist, f, c, q, i - 1);
    }
  }

  /** A text whose runs are all different is typed right exactly when it has at most 47 of them. */
  lemma DifferentRunsAreTypedRightIff(hist: seq<Keysym>, syms: seq<Keysym>)
    requires NoWrapInQueue(|Collect(hist, syms).hist|) && RunsDiffer(Typable(syms))
    ensures TypedRight(Typable(syms), Collect(hist, syms)) <==> RunCount(Typable(syms)) <= COUNT
  {
    if RunCount(Typable(syms)) <= COUNT {
      FewRunsAreTypedRight(hist, syms);
    } else {
      ManyRunsAreTypedWrong(hist, syms);
    }
  }

  /** The first of more than 47 different runs has lost its keycode, wherever the index stands. */
  lemma ManyRunsAreTypedWrong(hist: seq<Keysym>, syms: seq<Keysym>)
    requires RunsDiffer(Typable(syms)) && RunCount(Typable(syms)) > COUNT
    ensures !TypedRight(Typable(syms), Collect(hist, syms))
  {
    var c, f := Collect(hist, syms), Typable(syms);
    CollectTracks(hist, syms);
    PlacesCountRuns(f, c.places);
    hide CodeAt, Collect, Typable, Lookup, Keymap, Queue, Steps;
    if Lookup(Keymap(Queue(c.hist)), CodeAt(c.places[0])) == Some(f[0]) {
      var q := LookupFindsQueued(c.hist, c.places[0]);
      var j := PlaceOf(hist, f, c, q, |f| - 1);
    }
  }
}
