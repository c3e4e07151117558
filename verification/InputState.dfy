/** What keys, buttons and look a stream of input events adds up to. */
module InputStates {

  datatype InputKind = Key | Button | Motion | Focus

  /** Keys and buttons are numbers; UNKNOWN is neither a key nor a button. */
  const UNKNOWN: nat := 0xFFFF

  datatype InputEvent = InputEvent(kind: InputKind, key: nat, button: nat, pressed: bool, x: real, y: real,
                                   sequence: nat, capturedAt: int)

  datatype InputState = InputState(keys: set<nat>, buttons: set<nat>, lookX: real, lookY: real, focused: bool,
                                   focusGeneration: nat, sequence: nat, capturedAt: int)
  {
    predicate KeyHeld(key: nat) {
      key != UNKNOWN && key in keys
    }

    predicate ButtonHeld(button: nat) {
      button != UNKNOWN && button in buttons
    }
  }

  const INITIAL := InputState({}, {}, 0.0, 0.0, false, 0, 0, 0)

  function Flipped(held: set<nat>, index: nat, pressed: bool): set<nat> {
    if pressed then held + {index} else held - {index}
  }

  /** Whether the event changes what is held. */
  predicate Takes(s: InputState, e: InputEvent) {
    match e.kind
    case Key => s.focused && e.key != UNKNOWN && (e.key in s.keys) != e.pressed
    case Button => s.focused && e.button != UNKNOWN && (e.button in s.buttons) != e.pressed
    case Motion => s.focused
    case Focus => s.focused != e.pressed
  }

  function Apply(s: InputState, e: InputEvent): InputState {
    var stamped := s.(sequence := e.sequence, capturedAt := e.capturedAt);
    if !Takes(s, e) then stamped else
    match e.kind
    case Key => stamped.(keys := Flipped(s.keys, e.key, e.pressed))
    case Button => stamped.(buttons := Flipped(s.buttons, e.button, e.pressed))
    case Motion => stamped.(lookX := s.lookX + e.x, lookY := s.lookY + e.y)
    case Focus => stamped.(focused := e.pressed, keys := {}, buttons := {}, lookX := 0.0, lookY := 0.0,
                           focusGeneration := s.focusGeneration + 1)
  }

  /** The state a stream of events leads to. */
  function Fold(s: InputState, events: seq<InputEvent>): InputState {
    if events == [] then s else Apply(Fold(s, events[..|events| - 1]), events[|events| - 1])
  }

  lemma {:induction false} FoldConcat(s: InputState, a: seq<InputEvent>, b: seq<InputEvent>)
    ensures Fold(s, a + b) == Fold(Fold(s, a), b)
  {
    if b == [] {
      assert a + b == a;
    } else {
      FoldConcat(s, a, b[..|b| - 1]);
      assert (a + b)[..|a + b| - 1] == a + b[..|b| - 1];
    }
  }

  lemma FoldMore(s: InputState, events: seq<InputEvent>, e: InputEvent)
    ensures Fold(s, events + [e]) == Apply(Fold(s, events), e)
  {
    assert (events + [e])[..|events|] == events;
  }

  /** Equal but for the stamps of the last event. */
  predicate SameHolds(s: InputState, t: InputState) {
    s == t.(sequence := s.sequence, capturedAt := s.capturedAt)
  }

  /** The events of a stream that change what is held, in order. */
  function Kept(s: InputState, events: seq<InputEvent>): seq<InputEvent> {
    if events == [] then [] else
    Kept(s, events[..|events| - 1])
    + if Takes(Fold(s, events[..|events| - 1]), events[|events| - 1]) then [events[|events| - 1]] else []
  }

  lemma ApplySameHolds(s: InputState, t: InputState, e: InputEvent)
    requires SameHolds(s, t)
    ensures Takes(s, e) <==> Takes(t, e)
    ensures SameHolds(Apply(s, e), Apply(t, e))
    ensures !Takes(s, e) ==> SameHolds(Apply(s, e), t)
  {
  }

  /** Replaying only the kept events leads to the same holds, looks and focus. */
  lemma {:induction false} KeptReplay(s: InputState, events: seq<InputEvent>)
    ensures SameHolds(Fold(s, events), Fold(s, Kept(s, events)))
  {
    if events != [] {
      var front, last := events[..|events| - 1], events[|events| - 1];
      KeptReplay(s, front);
      ApplySameHolds(Fold(s, front), Fold(s, Kept(s, front)), last);
      if Takes(Fold(s, front), last) {
        FoldMore(s, Kept(s, front), last);
      } else {
        assert Kept(s, events) == Kept(s, front);
      }
    }
  }

  /** Whatever came before, without focus nothing is held and nothing looks, and the unknown key and button are
      never held. */
  lemma {:induction false} UnfocusedHoldsNothing(events: seq<InputEvent>)
    ensures var s := Fold(INITIAL, events);
            && (!s.focused ==> s.keys == {} && s.buttons == {} && s.lookX == 0.0 && s.lookY == 0.0)
            && UNKNOWN !in s.keys && UNKNOWN !in s.buttons
  {
    if events != [] {
      UnfocusedHoldsNothing(events[..|events| - 1]);
    }
  }

  // ----- What a stream of events adds up to, said of its events alone -----

  predicate GainsFocus(e: InputEvent) {
    e.kind.Focus? && e.pressed
  }

  predicate LosesFocus(e: InputEvent) {
    e.kind.Focus? && !e.pressed
  }

  /** Focus came with event `f` and has not gone since; a gain before it was followed by a loss before it. */
  ghost predicate FocusedSince(events: seq<InputEvent>, f: int) {
    && 0 <= f < |events| && GainsFocus(events[f])
    && (forall j :: f <= j < |events| ==> !LosesFocus(events[j]))
    && (forall j :: 0 <= j < f && GainsFocus(events[j]) ==> LostAfter(events[..f], j))
  }

  ghost predicate LostAfter(events: seq<InputEvent>, j: int) {
    exists l :: j < l < |events| && 0 <= l && LosesFocus(events[l])
  }

  predicate OfKey(e: InputEvent, key: nat) {
    e.kind.Key? && e.key == key
  }

  predicate OfButton(e: InputEvent, button: nat) {
    e.kind.Button? && e.button == button
  }

  /** The last event after `f` about the key is a press. */
  ghost predicate KeyPressedSince(events: seq<InputEvent>, f: int, key: nat) {
    exists i :: f < i < |events| && LastKeyPress(events, i, key)
  }

  ghost predicate LastKeyPress(events: seq<InputEvent>, i: int, key: nat) {
    && 0 <= i < |events| && OfKey(events[i], key) && events[i].pressed
    && forall j :: i < j < |events| && OfKey(events[j], key) ==> events[j].pressed
  }

  ghost predicate ButtonPressedSince(events: seq<InputEvent>, f: int, button: nat) {
    exists i :: f < i < |events| && LastButtonPress(events, i, button)
  }

  ghost predicate LastButtonPress(events: seq<InputEvent>, i: int, button: nat) {
    && 0 <= i < |events| && OfButton(events[i], button) && events[i].pressed
    && forall j :: i < j < |events| && OfButton(events[j], button) ==> events[j].pressed
  }

  function MotionX(events: seq<InputEvent>): real {
    if events == [] then 0.0 else
    MotionX(events[..|events| - 1]) + if events[|events| - 1].kind.Motion? then events[|events| - 1].x else 0.0
  }

  function MotionY(events: seq<InputEvent>): real {
    if events == [] then 0.0 else
    MotionY(events[..|events| - 1]) + if events[|events| - 1].kind.Motion? then events[|events| - 1].y else 0.0
  }

  /** How often focus came or went. */
  ghost function FocusChanges(events: seq<InputEvent>): nat {
    if events == [] then 0 else
    var front, last := events[..|events| - 1], events[|events| - 1];
    var had := exists f :: FocusedSince(front, f);
    FocusChanges(front) + if (GainsFocus(last) && !had) || (LosesFocus(last) && had) then 1 else 0
  }

  /** With focus, the keys and buttons held are those last pressed since focus came, and the look is what the
      motions since then add up to. */
  ghost predicate ShowsSince(s: InputState, events: seq<InputEvent>, f: int)
    requires FocusedSince(events, f)
  {
    && (forall key: nat :: s.KeyHeld(key) <==> key != UNKNOWN && KeyPressedSince(events, f, key))
    && (forall button: nat :: s.ButtonHeld(button) <==> button != UNKNOWN && ButtonPressedSince(events, f, button))
    && s.lookX == MotionX(events[f..]) && s.lookY == MotionY(events[f..])
  }

  /** Without focus nothing is held and nothing looks. */
  ghost predicate ShowsNothing(s: InputState) {
    && (forall key: nat :: !s.KeyHeld(key)) && (forall button: nat :: !s.ButtonHeld(button))
    && s.lookX == 0.0 && s.lookY == 0.0
  }

  /** The state is what the events, from the first one on, add up to. */
  ghost predicate Shows(s: InputState, events: seq<InputEvent>) {
    && (s.focused <==> exists f :: FocusedSince(events, f))
    && (forall f :: FocusedSince(events, f) ==> ShowsSince(s, events, f))
    && (!s.focused ==> ShowsNothing(s))
    && s.focusGeneration == FocusChanges(events)
    && (events != [] ==> s.sequence == events[|events| - 1].sequence && s.capturedAt == events[|events| - 1].capturedAt)
  }

  /** Where focus has been gone since some event, every gain before was followed by a loss. */
  ghost predicate Unfocused(events: seq<InputEvent>) {
    forall j :: 0 <= j < |events| && GainsFocus(events[j]) ==> LostAfter(events, j)
  }

  lemma FocusOnce(events: seq<InputEvent>, f: int)
    requires FocusedSince(events, f)
    ensures forall g :: FocusedSince(events, g) ==> g == f
  {
    forall g | g != f ensures !FocusedSince(events, g) {
      if f < g {
        NotLost(events, f, g);
      } else if FocusedSince(events, g) {
        NotLost(events, g, f);
      }
    }
  }

  lemma NotLost(events: seq<InputEvent>, f: int, g: int)
    requires FocusedSince(events, f) && f < g
    ensures !FocusedSince(events, g)
  {
    if g <= |events| {
      assert forall l :: f < l < g ==> events[..g][l] == events[l];
    }
  }

  lemma UnfocusedMeans(events: seq<InputEvent>, f: int)
    requires Unfocused(events)
    ensures !FocusedSince(events, f)
  {
    if 0 <= f < |events| && GainsFocus(events[f]) {
      assert LostAfter(events, f);
    }
  }

  /** Any event but a loss leaves focus where it was. */
  lemma FocusGoesOn(front: seq<InputEvent>, e: InputEvent, f: int)
    requires f < |front|
    ensures FocusedSince(front + [e], f) <==> FocusedSince(front, f) && !LosesFocus(e)
  {
    var events := front + [e];
    if 0 <= f {
      assert events[..f] == front[..f];
      assert forall j :: 0 <= j < |front| ==> events[j] == front[j];
      assert events[|front|] == e;
    }
  }

  lemma FocusBegins(front: seq<InputEvent>, e: InputEvent)
    ensures FocusedSince(front + [e], |front|) <==> GainsFocus(e) && Unfocused(front)
  {
    var events := front + [e];
    assert events[..|front|] == front && events[|front|] == e;
    assert forall j :: 0 <= j < |front| ==> events[j] == front[j];
  }

  lemma UnfocusedGoesOn(front: seq<InputEvent>, e: InputEvent)
    ensures LosesFocus(e) ==> Unfocused(front + [e])
    ensures !GainsFocus(e) && Unfocused(front) ==> Unfocused(front + [e])
  {
    var events := front + [e];
    assert events[|front|] == e;
    if LosesFocus(e) {
      assert forall j :: 0 <= j < |front| ==> LostAfter(events, j);
    } else if !GainsFocus(e) && Unfocused(front) {
      forall j | 0 <= j < |front| && GainsFocus(front[j]) ensures LostAfter(events, j) {
        assert LostAfter(front, j);
        var l :| j < l < |front| && 0 <= l && LosesFocus(front[l]);
        assert LosesFocus(events[l]);
      }
    }
  }

  lemma KeyGoesOn(front: seq<InputEvent>, e: InputEvent, f: int, key: nat)
    requires 0 <= f < |front|
    ensures KeyPressedSince(front + [e], f, key) <==> if OfKey(e, key) then e.pressed else KeyPressedSince(front, f, key)
  {
    var events, n := front + [e], |front|;
    assert events[n] == e && forall j :: 0 <= j < n ==> events[j] == front[j];
    if OfKey(e, key) {
      assert OfKey(events[n], key) && (e.pressed ==> LastKeyPress(events, n, key));
    } else {
      forall i | f < i < n ensures LastKeyPress(events, i, key) <==> LastKeyPress(front, i, key) {
      }
    }
  }

  lemma ButtonGoesOn(front: seq<InputEvent>, e: InputEvent, f: int, button: nat)
    requires 0 <= f < |front|
    ensures ButtonPressedSince(front + [e], f, button) <==>
            if OfButton(e, button) then e.pressed else ButtonPressedSince(front, f, button)
  {
    var events, n := front + [e], |front|;
    assert events[n] == e && forall j :: 0 <= j < n ==> events[j] == front[j];
    if OfButton(e, button) {
      assert OfButton(events[n], button) && (e.pressed ==> LastButtonPress(events, n, button));
    } else {
      forall i | f < i < n ensures LastButtonPress(events, i, button) <==> LastButtonPress(front, i, button) {
      }
    }
  }

  lemma MotionGoesOn(front: seq<InputEvent>, e: InputEvent, f: int)
    requires 0 <= f < |front|
    ensures MotionX((front + [e])[f..]) == MotionX(front[f..]) + if e.kind.Motion? then e.x else 0.0
    ensures MotionY((front + [e])[f..]) == MotionY(front[f..]) + if e.kind.Motion? then e.y else 0.0
  {
    var tail := (front + [e])[f..];
    assert tail == front[f..] + [e];
    assert tail[..|tail| - 1] == front[f..] && tail[|tail| - 1] == e;
  }

  lemma FocusWithin(events: seq<InputEvent>, f: int)
    requires FocusedSince(events, f)
    ensures 0 <= f < |events|
  {
  }

  /** With focus, one more event that is no loss. */
  lemma ShowsGoesOn(s: InputState, front: seq<InputEvent>, e: InputEvent, f: int)
    requires s.focused && 0 <= f < |front| && FocusedSince(front, f) && ShowsSince(s, front, f) && !LosesFocus(e)
    ensures FocusedSince(front + [e], f) && ShowsSince(Apply(s, e), front + [e], f)
  {
    hide FocusedSince;
    hide KeyPressedSince;
    hide ButtonPressedSince;
    hide MotionX;
    hide MotionY;
    FocusGoesOn(front, e, f);
    MotionGoesOn(front, e, f);
    var s' := Apply(s, e);
    forall key: nat ensures s'.KeyHeld(key) <==> key != UNKNOWN && KeyPressedSince(front + [e], f, key) {
      KeyGoesOn(front, e, f, key);
      assert s.KeyHeld(key) <==> key != UNKNOWN && KeyPressedSince(front, f, key);
    }
    forall button: nat ensures s'.ButtonHeld(button) <==> button != UNKNOWN && ButtonPressedSince(front + [e], f, button) {
      ButtonGoesOn(front, e, f, button);
      assert s.ButtonHeld(button) <==> button != UNKNOWN && ButtonPressedSince(front, f, button);
    }
  }

  /** Focus has just come. */
  lemma ShowsBegins(s: InputState, front: seq<InputEvent>, e: InputEvent)
    requires !s.focused && Unfocused(front) && GainsFocus(e)
    ensures FocusedSince(front + [e], |front|) && ShowsSince(Apply(s, e), front + [e], |front|)
  {
    hide FocusedSince;
    hide Unfocused;
    FocusBegins(front, e);
    var events := front + [e];
    assert events[|front|..] == [e];
    assert MotionX([]) == 0.0 == MotionY([]);
    assert [e][..0] == [];
  }

  ghost predicate ShowsOrNot(s: InputState, events: seq<InputEvent>) {
    && (s.focused ==> exists f :: FocusedSince(events, f) && ShowsSince(s, events, f))
    && (!s.focused ==> Unfocused(events) && ShowsNothing(s))
  }

  lemma ShowsStep(s: InputState, front: seq<InputEvent>, e: InputEvent)
    requires ShowsOrNot(s, front)
    ensures ShowsOrNot(Apply(s, e), front + [e])
  {
    hide FocusedSince;
    hide ShowsSince;
    hide Unfocused;
    if s.focused && !LosesFocus(e) {
      var f :| FocusedSince(front, f) && ShowsSince(s, front, f);
      FocusWithin(front, f);
      ShowsGoesOn(s, front, e, f);
    } else if !s.focused && GainsFocus(e) {
      ShowsBegins(s, front, e);
    } else {
      UnfocusedGoesOn(front, e);
      assert forall key: nat :: Apply(s, e).KeyHeld(key) ==> s.KeyHeld(key);
      assert forall button: nat :: Apply(s, e).ButtonHeld(button) ==> s.ButtonHeld(button);
    }
  }

  lemma ShowsEither(s: InputState, events: seq<InputEvent>)
    requires ShowsOrNot(s, events)
    ensures s.focused <==> exists f :: FocusedSince(events, f)
    ensures forall f :: FocusedSince(events, f) ==> ShowsSince(s, events, f)
    ensures !s.focused ==> ShowsNothing(s)
  {
    hide FocusedSince;
    hide ShowsSince;
    hide Unfocused;
    if s.focused {
      var f :| FocusedSince(events, f) && ShowsSince(s, events, f);
      FocusOnce(events, f);
    } else {
      forall f ensures !FocusedSince(events, f) {
        UnfocusedMeans(events, f);
      }
    }
  }

  lemma NoEvents()
    ensures Unfocused([]) && forall f :: !FocusedSince([], f)
  {
  }

  /** The state a stream leads to, said of the stream alone: what is held is what was last pressed since focus
      came, and the look is the motion since then. */
  lemma {:induction false} FoldShows(events: seq<InputEvent>)
    ensures ShowsOrNot(Fold(INITIAL, events), events)
    ensures Shows(Fold(INITIAL, events), events)
  {
    hide FocusedSince;
    hide ShowsSince;
    hide Unfocused;
    if events == [] {
      NoEvents();
    } else {
      var front, last := events[..|events| - 1], events[|events| - 1];
      FoldShows(front);
      assert events == front + [last];
      ShowsStep(Fold(INITIAL, front), front, last);
      ShowsEither(Fold(INITIAL, front), front);
      ShowsEither(Fold(INITIAL, events), events);
    }
  }

  // ----- Which events are kept -----

  /** Something that can be asked about the state came out differently, or a motion went into the look. */
  ghost predicate Changed(s: InputState, e: InputEvent, t: InputState) {
    || s.focused != t.focused
    || (exists key: nat :: s.KeyHeld(key) != t.KeyHeld(key))
    || (exists button: nat :: s.ButtonHeld(button) != t.ButtonHeld(button))
    || (e.kind.Motion? && s.focused)
  }

  lemma TakesMeans(s: InputState, e: InputEvent)
    ensures Takes(s, e) <==> Changed(s, e, Apply(s, e))
  {
    var t := Apply(s, e);
    assert s.KeyHeld(e.key) <==> e.key != UNKNOWN && e.key in s.keys;
    assert s.ButtonHeld(e.button) <==> e.button != UNKNOWN && e.button in s.buttons;
    if Takes(s, e) {
      assert e.kind.Key? ==> s.KeyHeld(e.key) != t.KeyHeld(e.key);
      assert e.kind.Button? ==> s.ButtonHeld(e.button) != t.ButtonHeld(e.button);
    }
  }

  /** `at` are the places, in order, of the events that changed something, and `kept` are those events. */
  ghost predicate KeptAt(s: InputState, events: seq<InputEvent>, kept: seq<InputEvent>, at: seq<nat>) {
    && |at| == |kept|
    && (forall j, k :: 0 <= j < k < |at| ==> at[j] < at[k])
    && (forall k :: 0 <= k < |at| ==> at[k] < |events| && kept[k] == events[at[k]])
    && (forall i: nat :: i in at <==> i < |events| && ChangedAt(s, events, i))
  }

  ghost predicate ChangedAt(s: InputState, events: seq<InputEvent>, i: nat)
    requires i < |events|
  {
    Changed(Fold(s, events[..i]), events[i], Fold(s, events[..i + 1]))
  }

  lemma ChangedBefore(s: InputState, front: seq<InputEvent>, e: InputEvent, i: nat)
    requires i < |front|
    ensures ChangedAt(s, front + [e], i) <==> ChangedAt(s, front, i)
  {
    hide Changed;
    hide Fold;
    assert (front + [e])[..i] == front[..i] && (front + [e])[..i + 1] == front[..i + 1];
  }

  lemma ChangedLast(s: InputState, front: seq<InputEvent>, e: InputEvent)
    ensures ChangedAt(s, front + [e], |front|) <==> Takes(Fold(s, front), e)
  {
    hide Changed;
    hide Takes;
    FoldMore(s, front, e);
    TakesMeans(Fold(s, front), e);
    assert (front + [e])[..|front|] == front && (front + [e])[..|front| + 1] == front + [e];
  }

  lemma KeptOne(s: InputState, front: seq<InputEvent>, e: InputEvent, kept: seq<InputEvent>, at: seq<nat>)
    requires KeptAt(s, front, kept, at)
    ensures if Takes(Fold(s, front), e) then KeptAt(s, front + [e], kept + [e], at + [|front|])
            else KeptAt(s, front + [e], kept, at)
  {
    hide ChangedAt;
    hide Takes;
    ChangedLast(s, front, e);
    forall i: nat | i < |front| ensures ChangedAt(s, front + [e], i) <==> ChangedAt(s, front, i) {
      ChangedBefore(s, front, e, i);
    }
  }

  /** What is kept of a stream is the events that changed something when they came, in their order. */
  lemma {:induction false} KeptAre(s: InputState, events: seq<InputEvent>) returns (at: seq<nat>)
    ensures KeptAt(s, events, Kept(s, events), at)
  {
    if events == [] {
      at := [];
    } else {
      hide KeptAt;
      hide Takes;
      var front, last := events[..|events| - 1], events[|events| - 1];
      at := KeptAre(s, front);
      assert events == front + [last];
      KeptOne(s, front, last, Kept(s, front), at);
      if Takes(Fold(s, front), last) {
        at := at + [|front|];
      } else {
        assert Kept(s, events) == Kept(s, front);
      }
    }
  }
}
