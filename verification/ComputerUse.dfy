/** Cancellable execution of input actions (src/computer_use/manager.rs:522-672, 740-757) through the HID
    controller's queue (src/hid/mod.rs:261-284, 503-538, 557-595) to the CH9329 backend's shared keyboard and mouse
    state (src/hid/ch9329.rs:1216-1314).

    The executor learns only whether the controller took an event.  A rejected event changes nothing.  An accepted
    one may still be dropped from a full queue, or change the backend's state and then fail to reach the host; both
    are reported as success.  States are those after the queue has drained.  Screen coordinates stand for their
    scaled values, key tables are parameters, and key names arrive in lower case. */
module ComputerUse {
  import opened Common
  import K = Keyboard

  datatype Modifier = Ctrl | Shift | Alt | Meta | RightCtrl | RightShift | RightAlt | RightMeta
  datatype Button = Left | Middle | Right
  datatype Canonical = Plain(usage: K.Key) | Mod(modifier: Modifier)
  datatype Point = Point(x: nat, y: nat)

  datatype Action =
    | Click(at: Point, button: Button)
    | DoubleClick(at: Point, button: Button)
    | Move(at: Point)
    | Drag(path: seq<Point>, button: Button)
    | Scroll(at: Point, dy: int)
    | Type(text: string)
    | Keypress(keys: seq<string>)
    | Wait
    | Screenshot

  datatype Event =
    | MoveAbs(at: Point)
    | ButtonDown(button: Button)
    | ButtonUp(button: Button)
    | Wheel(up: bool)
    | KeyDown(key: Canonical, mods: set<Modifier>)
    | KeyUp(key: Canonical)
  {
    predicate Press() { ButtonDown? || KeyDown? }
    predicate Release() { ButtonUp? || KeyUp? }
  }

  datatype Outcome = Done | Stopped | Unsupported(ch: char) | SendFailed

  /** What becomes of an event: it reaches the host, changes only the backend, is dropped unseen, or is refused. */
  datatype Fate = Delivered | Kept | Dropped | Rejected

  /** The kind of the last rejected event. */
  datatype Failure = NoFailure | PressFailed | ReleaseFailed | OtherFailed

  // ---------------------------------------------------------------- scripts

  /** What must follow a trace so that nothing stays pressed: the release of its last unreleased press. */
  function Closing(s: seq<Event>): seq<Event> {
    if s == [] then []
    else match s[|s| - 1]
      case ButtonDown(b) => [ButtonUp(b)]
      case KeyDown(k, _) => [KeyUp(k)]
      case ButtonUp(_) => []
      case KeyUp(_) => []
      case MoveAbs(_) => Closing(s[..|s| - 1])
      case Wheel(_) => Closing(s[..|s| - 1])
  }

  /** A script stopped after `n` events and closed. */
  function Cut(script: seq<Event>, n: nat): seq<Event>
    requires n <= |script|
  {
    script[..n] + Closing(script[..n])
  }

  predicate StoppedAt(sent: seq<Event>, before: seq<Event>, script: seq<Event>, n: nat) {
    n <= |script| && sent == before + Cut(script, n)
  }

  predicate PressFailedAt(sent: seq<Event>, before: seq<Event>, script: seq<Event>, n: nat) {
    0 < n <= |script| && script[n - 1].Press() && sent == before + script[..n]
  }

  /** How the events sent relate to the script: all of it, a closed prefix, or a prefix up to a rejected
      press. */
  ghost predicate Follows(r: Outcome, f: Failure, sent: seq<Event>, before: seq<Event>, script: seq<Event>) {
    if r == Done then sent == before + script
    else if f == PressFailed then exists n: nat :: PressFailedAt(sent, before, script, n)
    else exists n: nat :: StoppedAt(sent, before, script, n)
  }

  lemma {:induction false} ClosingAppend(a: seq<Event>, b: seq<Event>)
    requires Closing(a) == []
    ensures Closing(a + b) == Closing(b)
  {
    if b == [] {
      assert a + b == a;
    } else {
      assert (a + b)[..|a + b| - 1] == a + b[..|b| - 1];
      ClosingAppend(a, b[..|b| - 1]);
    }
  }

  lemma PrefixAppend(a: seq<Event>, b: seq<Event>, n: nat)
    requires n <= |b|
    ensures (a + b)[..|a| + n] == a + b[..n]
  {
  }

  lemma CutAppend(a: seq<Event>, b: seq<Event>, n: nat)
    requires Closing(a) == [] && n <= |b|
    ensures Cut(a + b, |a| + n) == a + Cut(b, n)
  {
    PrefixAppend(a, b, n);
    ClosingAppend(a, b[..n]);
    Associative(a, b[..n], Closing(b[..n]));
  }

  /** Running a closed script `a` to the end and then `b` is running `a + b`. */
  lemma FollowsThen(r: Outcome, f: Failure, sent: seq<Event>, before: seq<Event>, a: seq<Event>, b: seq<Event>)
    requires Closing(a) == [] && Follows(r, f, sent, before + a, b)
    ensures Follows(r, f, sent, before, a + b)
  {
    if r == Done {
      Associative(before, a, b);
    } else if f == PressFailed {
      var n: nat :| PressFailedAt(sent, before + a, b, n);
      PrefixAppend(a, b, n);
      Associative(before, a, b[..n]);
      assert PressFailedAt(sent, before, a + b, |a| + n);
    } else {
      var n: nat :| StoppedAt(sent, before + a, b, n);
      CutAppend(a, b, n);
      Associative(before, a, Cut(b, n));
      assert StoppedAt(sent, before, a + b, |a| + n);
    }
  }

  /** A script that broke off inside `a` broke off inside `a + b`. */
  lemma FollowsEarly(r: Outcome, f: Failure, sent: seq<Event>, before: seq<Event>, a: seq<Event>, b: seq<Event>)
    requires r != Done && Follows(r, f, sent, before, a)
    ensures Follows(r, f, sent, before, a + b)
  {
    if f == PressFailed {
      var n: nat :| PressFailedAt(sent, before, a, n);
      assert (a + b)[..n] == a[..n];
      assert PressFailedAt(sent, before, a + b, n);
    } else {
      var n: nat :| StoppedAt(sent, before, a, n);
      assert (a + b)[..n] == a[..n];
      assert StoppedAt(sent, before, a + b, n);
    }
  }

  function MoveScript(path: seq<Point>): seq<Event> {
    if path == [] then [] else [MoveAbs(path[0])] + MoveScript(path[1..])
  }

  function WheelScript(up: bool, n: nat): seq<Event> {
    if n == 0 then [] else [Wheel(up)] + WheelScript(up, n - 1)
  }

  function Clamp(x: int, lo: int, hi: int): int {
    if x < lo then lo else if x > hi then hi else x
  }

  /** Rust's integer division truncates toward zero. */
  function TruncDiv(x: int, d: int): int
    requires d > 0
  {
    if x < 0 then -((-x) / d) else x / d
  }

  /** Number and direction of wheel ticks: one per 120 units, at least one for a nonzero delta, at most ten. */
  function ScrollTicks(dy: int): (t: int)
    ensures dy == 0 <==> t == 0
    ensures dy > 0 ==> 1 <= t <= 10 && (t == 1 || 120 * t <= dy) && (t == 10 || dy < 120 * (t + 1))
    ensures dy < 0 ==> t == -ScrollTicks(-dy)
    decreases if dy < 0 then 1 else 0
  {
    var ticks := Clamp(TruncDiv(Clamp(dy, -1200, 1200), 120), -10, 10);
    if ticks == 0 then (if dy > 0 then 1 else if dy < 0 then -1 else 0) else ticks
  }

  function Abs(x: int): nat { if x < 0 then -x else x }

  function KeyScript(key: Canonical, mods: set<Modifier>): seq<Event> {
    [KeyDown(key, mods), KeyUp(key)]
  }

  function ClickScript(at: Point, b: Button): seq<Event> {
    [MoveAbs(at), ButtonDown(b), ButtonUp(b)]
  }

  /** The modifier a chord's word names, if it names one. */
  function ModifierOf(word: string): Option<Modifier> {
    if word in ["ctrl", "control", "controlleft"] then Some(Ctrl)
    else if word in ["shift", "shiftleft"] then Some(Shift)
    else if word in ["alt", "altleft"] then Some(Alt)
    else if word in ["meta", "win", "cmd", "super"] then Some(Meta)
    else None
  }

  /** Every modifier the chord names, wherever it stands. */
  function ChordModifiers(keys: seq<string>): set<Modifier> {
    set w | w in keys && ModifierOf(w).Some? :: ModifierOf(w).value
  }

  /** The last word that names no modifier. */
  function ChordWord(keys: seq<string>): Option<string> {
    if keys == [] then None
    else if ModifierOf(keys[|keys| - 1]).None? then Some(keys[|keys| - 1])
    else ChordWord(keys[..|keys| - 1])
  }

  datatype KeyTables = KeyTables(
    charToKey: char -> Option<(Canonical, set<Modifier>)>,
    named: string -> Option<Canonical>)
  {
    /** The key a chord presses; an unknown last word presses nothing. */
    function ChordKey(keys: seq<string>): Option<Canonical> {
      match ChordWord(keys) case None => None case Some(w) => named(w)
    }

    /** The strokes for a text, up to its first character without a key. */
    function TextScript(text: string): seq<Event> {
      if text == [] then []
      else match charToKey(text[0])
        case None => []
        case Some(km) => KeyScript(km.0, km.1) + TextScript(text[1..])
    }

    predicate Typable(text: string) {
      forall i | 0 <= i < |text| :: charToKey(text[i]).Some?
    }

    /** What an action sends when nothing interrupts it. */
    function Script(a: Action): seq<Event> {
      match a
      case Click(p, b) => ClickScript(p, b)
      case DoubleClick(p, b) => ClickScript(p, b) + ClickScript(p, b)
      case Move(p) => [MoveAbs(p)]
      case Drag(path, b) =>
        if path == [] then [] else [MoveAbs(path[0]), ButtonDown(b)] + (MoveScript(path[1..]) + [ButtonUp(b)])
      case Scroll(p, dy) => [MoveAbs(p)] + WheelScript(dy > 0, Abs(ScrollTicks(dy)))
      case Type(text) => TextScript(text)
      case Keypress(keys) => if ChordKey(keys).Some? then KeyScript(ChordKey(keys).value, ChordModifiers(keys)) else []
      case Wait => []
      case Screenshot => []
    }

    function Scripts(actions: seq<Action>): seq<Event> {
      if actions == [] then [] else Script(actions[0]) + Scripts(actions[1..])
    }

    lemma NextChar(text: string, i: nat)
      requires i < |text|
      ensures TextScript(text[i..]) ==
              match charToKey(text[i])
              case None => []
              case Some(km) => KeyScript(km.0, km.1) + TextScript(text[i + 1..])
      ensures Typable(text[..i + 1]) <==> Typable(text[..i]) && charToKey(text[i]).Some?
    {
      assert text[i..][1..] == text[i + 1..];
      assert text[..i + 1] == text[..i] + [text[i]];
    }

    /** The texts of the first `n` actions have a key for every character. */
    predicate AllTypable(actions: seq<Action>, n: nat)
      requires n <= |actions|
    {
      forall i | 0 <= i < n && actions[i].Type? :: Typable(actions[i].text)
    }

    /** The character occurs in a text and has no key. */
    predicate Untypable(actions: seq<Action>, ch: char) {
      charToKey(ch).None? && exists i | 0 <= i < |actions| :: actions[i].Type? && ch in actions[i].text
    }

    lemma TypableNext(actions: seq<Action>, n: nat)
      requires n < |actions|
      ensures AllTypable(actions, n + 1) <==>
              AllTypable(actions, n) && (actions[n].Type? ==> Typable(actions[n].text))
      ensures actions[n].Type? ==> forall ch | ch in actions[n].text && charToKey(ch).None? :: Untypable(actions, ch)
    {
    }

    lemma NextScript(actions: seq<Action>, i: nat)
      requires i < |actions|
      ensures Scripts(actions[i..]) == Script(actions[i]) + Scripts(actions[i + 1..])
    {
      assert actions[i..][1..] == actions[i + 1..];
    }

    lemma {:induction false} TextIsClosed(text: string)
      ensures Closing(TextScript(text)) == []
    {
      if text != [] && charToKey(text[0]).Some? {
        var km := charToKey(text[0]).value;
        TextIsClosed(text[1..]);
        assert Closing(KeyScript(km.0, km.1)) == [];
        ClosingAppend(KeyScript(km.0, km.1), TextScript(text[1..]));
      }
    }

    /** An action's complete script leaves nothing to release. */
    lemma ScriptIsClosed(a: Action)
      ensures Closing(Script(a)) == []
    {
      match a
      case Click(p, b) =>
      case DoubleClick(p, b) => ClosingAppend(ClickScript(p, b), ClickScript(p, b));
      case Move(p) => ClosingOfMoves([MoveAbs(p)]);
      case Drag(path, b) =>
        if path != [] {
          var s := Script(a);
          assert s[|s| - 1] == ButtonUp(b);
        }
      case Scroll(p, dy) =>
        WheelsAreNeutral(dy > 0, Abs(ScrollTicks(dy)));
        ClosingOfMoves(Script(a));
      case Type(text) => TextIsClosed(text);
      case Keypress(keys) =>
      case Wait =>
      case Screenshot =>
    }
  }

  lemma WheelsAreNeutral(up: bool, n: nat)
    ensures forall e | e in WheelScript(up, n) :: e.Wheel?
  {
  }

  lemma {:induction false} ClosingOfMoves(s: seq<Event>)
    requires forall e | e in s :: e.Wheel? || e.MoveAbs?
    ensures Closing(s) == []
  {
    if s != [] {
      ClosingOfMoves(s[..|s| - 1]);
    }
  }

  lemma {:induction false} ClosingDuringDrag(p: Point, b: Button, s: seq<Event>)
    requires forall e | e in s :: e.MoveAbs?
    ensures Closing([MoveAbs(p), ButtonDown(b)] + s) == [ButtonUp(b)]
  {
    var d := [MoveAbs(p), ButtonDown(b)];
    if s == [] {
      assert d + s == d;
    } else {
      assert (d + s)[..|d + s| - 1] == d + s[..|s| - 1];
      ClosingDuringDrag(p, b, s[..|s| - 1]);
    }
  }

  // ---------------------------------------------------------------- the backend's and the host's state

  /** The backend's shared state. */
  datatype Local = Local(modifiers: set<Modifier>, keys: seq<Byte>, buttons: set<Button>, relativeActive: bool)

  /** What the host last received: one keyboard report and a button mask per mouse endpoint. */
  datatype Host = Host(modifiers: set<Modifier>, keys: seq<Byte>, absolute: set<Button>, relative: set<Button>)

  predicate LocalClear(l: Local) {
    l.modifiers == {} && l.keys == K.Empty() && l.buttons == {}
  }

  predicate HostClear(h: Host) {
    h.modifiers == {} && h.keys == K.Empty() && h.absolute == {} && h.relative == {}
  }

  /** send_keyboard and send_mouse up to the send itself. */
  function LocalAfter(l: Local, e: Event): Local {
    match e
    case MoveAbs(_) => l.(relativeActive := false)
    case ButtonDown(b) => l.(buttons := l.buttons + {b})
    case ButtonUp(b) => l.(buttons := l.buttons - {b})
    case Wheel(_) => l
    case KeyDown(Mod(m), _) => l.(modifiers := l.modifiers + {m})
    case KeyUp(Mod(m)) => l.(modifiers := l.modifiers - {m})
    case KeyDown(Plain(k), mods) => l.(modifiers := mods, keys := K.Add(l.keys, k))
    case KeyUp(Plain(k)) => l.(modifiers := {}, keys := K.Remove(l.keys, k))
  }

  /** The host once the report for `e` arrives: buttons and wheel go to the relative endpoint in hybrid mode or
      after a relative move, and an absolute move in hybrid mode carries no buttons. */
  function HostAfter(h: Host, hybrid: bool, l: Local, e: Event): Host {
    match e
    case MoveAbs(_) => h.(absolute := if hybrid then {} else l.buttons)
    case KeyDown(_, _) => h.(modifiers := l.modifiers, keys := l.keys)
    case KeyUp(_) => h.(modifiers := l.modifiers, keys := l.keys)
    case ButtonDown(_) => if hybrid || l.relativeActive then h.(relative := l.buttons) else h.(absolute := l.buttons)
    case ButtonUp(_) => if hybrid || l.relativeActive then h.(relative := l.buttons) else h.(absolute := l.buttons)
    case Wheel(_) => if hybrid || l.relativeActive then h.(relative := l.buttons) else h.(absolute := l.buttons)
  }

  lemma StrokeSlots(k: K.Key)
    ensures K.Add(K.Empty(), k) != K.Empty()
    ensures K.Remove(K.Add(K.Empty(), k), k) == K.Empty() && K.Remove(K.Empty(), k) == K.Empty()
  {
    K.RemoveOk(K.Empty(), k);
    assert K.Held(K.Remove(K.Empty(), k)) == multiset{};
    NothingHeld(K.Remove(K.Empty(), k));
    var down := K.Add(K.Empty(), k);
    K.AddPacked(K.Empty(), k);
    K.AddOk(K.Empty(), k);
    assert k in K.Held(down);
    K.RemoveOk(down, k);
    assert K.Held(down) == multiset{k};
    assert K.Held(K.Remove(down, k)) == multiset{};
    NothingHeld(K.Remove(down, k));
  }

  lemma NothingHeld(ks: seq<Byte>)
    requires |ks| == K.SLOTS && K.Held(ks) == multiset{}
    ensures ks == K.Empty()
  {
    forall i | 0 <= i < |ks| ensures ks[i] == 0 {
      assert ks[i] in multiset(ks);
      assert multiset(ks)[ks[i]] > 0 && K.Held(ks)[ks[i]] == 0;
    }
  }

  /** The keyboard part of a report is empty. */
  predicate NoKeys(modifiers: set<Modifier>, keys: seq<Byte>) {
    modifiers == {} && keys == K.Empty()
  }

  /** A press shows in the report and the release empties it again. */
  lemma StrokeClears(l: Local, key: Canonical, mods: set<Modifier>)
    requires LocalClear(l)
    ensures var down := LocalAfter(l, KeyDown(key, mods));
            down.buttons == {} && !NoKeys(down.modifiers, down.keys) && LocalClear(LocalAfter(down, KeyUp(key)))
    ensures LocalClear(LocalAfter(l, KeyUp(key)))
  {
    if key.Plain? {
      StrokeSlots(key.usage);
    }
  }

  /** The backend's state after an event with this fate. */
  function LocalNext(l: Local, e: Event, f: Fate): Local {
    if f.Delivered? || f.Kept? then LocalAfter(l, e) else l
  }

  /** The host's view, given the backend's state after the event. */
  function HostNext(h: Host, hybrid: bool, l: Local, e: Event, f: Fate): Host {
    if f.Delivered? then HostAfter(h, hybrid, l, e) else h
  }

  function Reached(f: Fate): bool { f.Delivered? || f.Kept? }

  /** A key stroke whose press was accepted, for every fate of the two events: the backend ends clear exactly when
      the press never reached it or the release did, the host exactly when the press never arrived or the release
      did. */
  lemma StrokeExactly(l: Local, h: Host, hybrid: bool, key: Canonical, mods: set<Modifier>, p: Fate, q: Fate)
    requires LocalClear(l) && HostClear(h)
    ensures var l1 := LocalNext(l, KeyDown(key, mods), p);
            var h1 := HostNext(h, hybrid, l1, KeyDown(key, mods), p);
            var l2 := LocalNext(l1, KeyUp(key), q);
            && (LocalClear(l2) <==> !Reached(p) || Reached(q))
            && (HostClear(HostNext(h1, hybrid, l2, KeyUp(key), q)) <==> !p.Delivered? || q.Delivered?)
  {
    StrokeClears(l, key, mods);
  }

  /** The same for a mouse button. */
  lemma ClickExactly(l: Local, h: Host, hybrid: bool, b: Button, p: Fate, q: Fate)
    requires LocalClear(l) && HostClear(h)
    ensures var l1 := LocalNext(l, ButtonDown(b), p);
            var h1 := HostNext(h, hybrid, l1, ButtonDown(b), p);
            var l2 := LocalNext(l1, ButtonUp(b), q);
            && (LocalClear(l2) <==> !Reached(p) || Reached(q))
            && (HostClear(HostNext(h1, hybrid, l2, ButtonUp(b), q)) <==> !p.Delivered? || q.Delivered?)
  {
  }

  /** Whatever the backend's state, a report that arrives carries it: a keyboard report the keys, a mouse report the
      buttons on its endpoint; only an absolute move in hybrid mode carries none. */
  lemma ReportsCarryTheState(h: Host, hybrid: bool, l: Local, e: Event)
    ensures var h' := HostAfter(h, hybrid, l, e);
            match e
            case KeyDown(_, _) => h' == Host(l.modifiers, l.keys, h.absolute, h.relative)
            case KeyUp(_) => h' == Host(l.modifiers, l.keys, h.absolute, h.relative)
            case MoveAbs(_) => h' == Host(h.modifiers, h.keys, if hybrid then {} else l.buttons, h.relative)
            case _ =>
              h' == (if hybrid || l.relativeActive then Host(h.modifiers, h.keys, h.absolute, l.buttons)
                     else Host(h.modifiers, h.keys, l.buttons, h.relative))
  {
  }

  function PlayLocal(l: Local, fates: seq<Fate>): Local {
    if fates == [] then l
    else LocalNext(PlayLocal(l, fates[..|fates| - 1]), MoveAbs(Point(0, 0)), fates[|fates| - 1])
  }

  /** The host after the moves of a drag with these fates; where they lead does not matter. */
  function PlayHost(h: Host, hybrid: bool, l: Local, fates: seq<Fate>): Host {
    if fates == [] then h
    else HostNext(PlayHost(h, hybrid, l, fates[..|fates| - 1]), hybrid, PlayLocal(l, fates), MoveAbs(Point(0, 0)),
                  fates[|fates| - 1])
  }

  predicate AnyReached(fates: seq<Fate>) {
    exists i | 0 <= i < |fates| :: Reached(fates[i])
  }

  predicate AnyDelivered(fates: seq<Fate>) {
    exists i | 0 <= i < |fates| :: fates[i].Delivered?
  }

  lemma {:induction false} PlayMoves(l: Local, h: Host, hybrid: bool, fates: seq<Fate>)
    ensures PlayLocal(l, fates) == l.(relativeActive := l.relativeActive && !AnyReached(fates))
    ensures PlayHost(h, hybrid, l, fates) ==
            if AnyDelivered(fates) then h.(absolute := if hybrid then {} else l.buttons) else h
  {
    if fates != [] {
      var n := |fates| - 1;
      PlayMoves(l, h, hybrid, fates[..n]);
      SomeSnoc(fates);
    }
  }

  lemma SomeSnoc(fates: seq<Fate>)
    requires fates != []
    ensures var n := |fates| - 1;
            && (AnyReached(fates) <==> AnyReached(fates[..n]) || Reached(fates[n]))
            && (AnyDelivered(fates) <==> AnyDelivered(fates[..n]) || fates[n].Delivered?)
  {
    var n := |fates| - 1;
    assert forall i | 0 <= i < n :: fates[i] == fates[..n][i];
  }

  /** A whole drag with the fates of its first move, its press, its further moves and its release. */
  function DragLocal(l: Local, b: Button, f: Fate, p: Fate, fates: seq<Fate>, q: Fate): Local {
    var down := LocalNext(LocalNext(l, MoveAbs(Point(0, 0)), f), ButtonDown(b), p);
    LocalNext(PlayLocal(down, fates), ButtonUp(b), q)
  }

  function DragHost(l: Local, h: Host, hybrid: bool, b: Button, f: Fate, p: Fate, fates: seq<Fate>, q: Fate): Host {
    var l1 := LocalNext(l, MoveAbs(Point(0, 0)), f);
    var l2 := LocalNext(l1, ButtonDown(b), p);
    var h2 := HostNext(HostNext(h, hybrid, l1, MoveAbs(Point(0, 0)), f), hybrid, l2, ButtonDown(b), p);
    HostNext(PlayHost(h2, hybrid, l2, fates), hybrid, DragLocal(l, b, f, p, fates, q), ButtonUp(b), q)
  }

  /** The press goes to the relative endpoint. */
  predicate PressRelative(l: Local, hybrid: bool, f: Fate) {
    hybrid || (l.relativeActive && !Reached(f))
  }

  /** The release goes to the relative endpoint. */
  predicate ReleaseRelative(l: Local, hybrid: bool, f: Fate, fates: seq<Fate>) {
    hybrid || (PressRelative(l, hybrid, f) && !AnyReached(fates))
  }

  /** A drag, for every fate of every event.  The backend ends clear as after a click.  The relative endpoint holds
      the button exactly when the press arrived there and the release did not; the absolute endpoint exactly when a
      press or a move put the button there and the release did not take it away. */
  lemma DragExactly(l: Local, h: Host, hybrid: bool, b: Button, f: Fate, p: Fate, fates: seq<Fate>, q: Fate)
    requires LocalClear(l) && HostClear(h)
    ensures var h' := DragHost(l, h, hybrid, b, f, p, fates, q);
            var pressed, released := PressRelative(l, hybrid, f), ReleaseRelative(l, hybrid, f, fates);
            && (LocalClear(DragLocal(l, b, f, p, fates, q)) <==> !Reached(p) || Reached(q))
            && h'.relative == (if pressed && p.Delivered? && !(released && q.Delivered?) then {b} else {})
            && h'.absolute == (if !hybrid && ((!pressed && p.Delivered?) || (Reached(p) && AnyDelivered(fates)))
                                  && !(!released && q.Delivered?) then {b} else {})
            && NoKeys(h'.modifiers, h'.keys)
  {
    var l1 := LocalNext(l, MoveAbs(Point(0, 0)), f);
    var l2 := LocalNext(l1, ButtonDown(b), p);
    var h2 := HostNext(HostNext(h, hybrid, l1, MoveAbs(Point(0, 0)), f), hybrid, l2, ButtonDown(b), p);
    DragPressed(l, h, hybrid, b, f, p);
    PlayMoves(l2, h2, hybrid, fates);
    DeliveredReached(fates);
  }

  /** A drag up to its press. */
  lemma DragPressed(l: Local, h: Host, hybrid: bool, b: Button, f: Fate, p: Fate)
    requires LocalClear(l) && HostClear(h)
    ensures var l1 := LocalNext(l, MoveAbs(Point(0, 0)), f);
            var l2 := LocalNext(l1, ButtonDown(b), p);
            var h2 := HostNext(HostNext(h, hybrid, l1, MoveAbs(Point(0, 0)), f), hybrid, l2, ButtonDown(b), p);
            var pressed := PressRelative(l, hybrid, f);
            && l2 == Local({}, K.Empty(), if Reached(p) then {b} else {}, l.relativeActive && !Reached(f))
            && h2 == Host({}, K.Empty(), if p.Delivered? && !pressed then {b} else {},
                          if p.Delivered? && pressed then {b} else {})
  {
  }

  lemma DeliveredReached(fates: seq<Fate>)
    ensures AnyDelivered(fates) ==> AnyReached(fates)
  {
    if i :| 0 <= i < |fates| && fates[i].Delivered? {
      assert Reached(fates[i]);
    }
  }

  /** So a drag can leave its button down although its release arrived: in relative mode, when the first move is
      dropped and a later one ends relative mode between press and release. */
  lemma DroppedMoveLeavesAButton(l: Local, h: Host, b: Button)
    requires LocalClear(l) && HostClear(h) && l.relativeActive
    ensures DragHost(l, h, false, b, Dropped, Delivered, [Delivered], Delivered).relative == {b}
  {
    DragExactly(l, h, false, b, Dropped, Delivered, [Delivered], Delivered);
    assert AnyReached([Delivered]) by {
      assert Reached([Delivered][0]);
    }
  }

  /** What the host must see after an event: a chord's own modifiers and key and nothing else, or an empty report;
      and the buttons of `held`, on whichever endpoint. */
  predicate Shown(e: Event, held: set<Button>, h: Host) {
    && h.absolute + h.relative == held
    && (match e
        case KeyDown(Plain(k), mods) => h.modifiers == mods && K.Held(h.keys) == multiset{k}
        case KeyDown(Mod(m), _) => h.modifiers == {m} && K.Held(h.keys) == multiset{}
        case _ => h.modifiers == {} && K.Held(h.keys) == multiset{})
  }

  /** The buttons held once the event was accepted. */
  function NowHeld(held: set<Button>, e: Event): set<Button> {
    match e
    case ButtonDown(b) => held + {b}
    case ButtonUp(b) => held - {b}
    case _ => held
  }

  /** A press that arrives in a clear state shows the chord. */
  lemma PressReports(l: Local, h: Host, hybrid: bool, key: Canonical, mods: set<Modifier>)
    requires LocalClear(l) && HostClear(h)
    ensures Shown(KeyDown(key, mods), {}, HostAfter(h, hybrid, LocalAfter(l, KeyDown(key, mods)), KeyDown(key, mods)))
  {
    if key.Plain? {
      K.AddOk(K.Empty(), key.usage);
    }
  }

  /** Whatever becomes of a press, its release will clear the report; a press that arrives is held on both sides. */
  lemma PressStates(l: Local, h: Host, hybrid: bool, key: Canonical, mods: set<Modifier>, f: Fate)
    requires LocalClear(l) && HostClear(h)
    ensures var l' := LocalNext(l, KeyDown(key, mods), f);
            var h' := HostNext(h, hybrid, l', KeyDown(key, mods), f);
            && LocalClear(LocalAfter(l', KeyUp(key))) && l'.buttons == {} && h'.absolute == {} && h'.relative == {}
            && (f.Delivered? ==> StillHeld(KeyUp(key), l', h', hybrid))
            && (f.Rejected? ==> LocalClear(l') && HostClear(h'))
            && (f.Delivered? ==> Shown(KeyDown(key, mods), {}, h'))
  {
    StrokeClears(l, key, mods);
    PressReports(l, h, hybrid, key, mods);
    HeldOnBothSides(LocalAfter(l, KeyDown(key, mods)), h, hybrid, key, mods);
  }

  lemma HeldOnBothSides(l: Local, h: Host, hybrid: bool, key: Canonical, mods: set<Modifier>)
    requires HostClear(h) && l.buttons == {} && !NoKeys(l.modifiers, l.keys) && LocalClear(LocalAfter(l, KeyUp(key)))
    ensures StillHeld(KeyUp(key), l, HostAfter(h, hybrid, l, KeyDown(key, mods)), hybrid)
  {
  }

  /** Exactly the press whose release is `e` is held, on both sides. */
  predicate StillHeld(e: Event, l: Local, h: Host, hybrid: bool) {
    match e
    case ButtonUp(b) =>
      && NoKeys(l.modifiers, l.keys) && l.buttons == {b}
      && h == (if hybrid then Host({}, K.Empty(), {}, {b}) else Host({}, K.Empty(), {b}, {}))
    case KeyUp(k) =>
      && l.buttons == {} && !NoKeys(l.modifiers, l.keys) && LocalClear(LocalAfter(l, e))
      && h == Host(l.modifiers, l.keys, {}, {})
    case _ => false
  }

  function FailureOf(e: Event): Failure {
    if e.Press() then PressFailed else if e.Release() then ReleaseFailed else OtherFailed
  }

  // ---------------------------------------------------------------- the executor

  class Executor {
    const tables: KeyTables
    const hybrid: bool
    var local: Local
    var host: Host
    var cancelled: bool      // the stop flag was set
    var closed: bool         // the stop channel's sender is gone
    ghost var sent: seq<Event>
    ghost var failure: Failure
    ghost var late: nat          // events sent after the stop flag was set
    ghost var lossless: bool     // every accepted event arrived
    ghost var intact: bool       // every accepted release arrived, and no move that ends relative mode was dropped
    ghost var held: set<Button>  // by the accepted events
    ghost var faithful: bool     // after every event that arrived, the host saw what the event says

    constructor (tables: KeyTables, hybrid: bool, relativeActive: bool)
      ensures Idle() && Ledger() && late == 0 && sent == [] && lossless && intact && faithful
    {
      this.tables, this.hybrid := tables, hybrid;
      local, host := Local({}, K.Empty(), {}, relativeActive), Host({}, K.Empty(), {}, {});
      cancelled, closed := false, false;
      sent, failure, late, lossless, intact := [], NoFailure, 0, true, true;
      held, faithful := {}, true;
    }

    /** While nothing is lost, the host sees every event as it is meant. */
    ghost predicate Honest(b: set<Button>)
      reads this
    {
      lossless ==> faithful && held == b
    }

    ghost predicate Idle()
      reads this
    {
      failure == NoFailure && Honest({}) && (intact ==> LocalClear(local) && HostClear(host))
    }

    ghost predicate Ledger()
      reads this
    {
      (!cancelled ==> late == 0) && (lossless ==> intact)
    }

    /** While accepted releases arrive and no move that ends relative mode is dropped, nothing stays pressed unless a
        release was rejected.  Then, if nothing was lost, what both sides hold is exactly the press that it should
        have ended. */
    ghost predicate Settled(r: Outcome)
      reads this
    {
      if r != SendFailed then Idle()
      else
        && failure != NoFailure && (lossless ==> faithful)
        && (intact && failure != ReleaseFailed ==> LocalClear(local) && HostClear(host))
        && (lossless && failure == ReleaseFailed ==> sent != [] && StillHeld(sent[|sent| - 1], local, host, hybrid))
    }

    /** At most one button is down, on the endpoint that buttons use; exactly one when nothing was lost. */
    ghost predicate Holding(b: Button)
      reads this
    {
      && (intact ==>
            && NoKeys(local.modifiers, local.keys) && local.buttons <= {b} && (hybrid || !local.relativeActive)
            && NoKeys(host.modifiers, host.keys)
            && (if hybrid then host.absolute == {} && host.relative <= {b}
                else host.relative == {} && host.absolute <= {b}))
      && Honest({b})
      && (lossless ==> StillHeld(ButtonUp(b), local, host, hybrid))
    }

    /** The stop flag and the channel can change while the executor waits. */
    method Interleave()
      modifies this`cancelled, this`closed
      ensures (old(cancelled) ==> cancelled) && (old(closed) ==> closed)
    {
      var stop: bool := *;
      var drop: bool := *;
      cancelled := cancelled || stop;
      closed := closed || drop;
    }

    /** The controller takes or rejects the event; what becomes of an accepted one is not reported. */
    method Send(e: Event) returns (ok: bool, ghost fate: Fate)
      requires Ledger()
      modifies this
      ensures ok <==> !fate.Rejected?
      ensures local == LocalNext(old(local), e, fate) && host == HostNext(old(host), hybrid, local, e, fate)
      ensures sent == old(sent) + [e]
      ensures failure == if ok then old(failure) else FailureOf(e)
      ensures lossless == (old(lossless) && (fate.Delivered? || fate.Rejected?))
      ensures intact == (old(intact) && !Harms(e, old(local), fate))
      ensures held == if ok then NowHeld(old(held), e) else old(held)
      ensures faithful == (old(faithful) && (fate.Delivered? ==> Shown(e, held, host)))
      ensures Ledger() && late <= old(late) + 1
      ensures (old(cancelled) ==> cancelled) && (old(closed) ==> closed)
    {
      ghost var before := local;
      ok, fate := Deliver(e);
      Tally(e, before, fate);
      Watch(e, fate);
      sent := sent + [e];
      late := if cancelled then late + 1 else late;
      Interleave();
    }

    ghost method Tally(e: Event, before: Local, fate: Fate)
      modifies this`failure, this`lossless, this`intact
      ensures failure == if fate.Rejected? then FailureOf(e) else old(failure)
      ensures lossless == (old(lossless) && (fate.Delivered? || fate.Rejected?))
      ensures intact == (old(intact) && !Harms(e, before, fate))
      ensures (old(lossless) ==> old(intact)) ==> (lossless ==> intact)
    {
      HarmIsLoss(e, before, fate);
      failure := if fate.Rejected? then FailureOf(e) else failure;
      lossless := lossless && (fate.Delivered? || fate.Rejected?);
      intact := intact && !Harms(e, before, fate);
    }

    ghost method Watch(e: Event, fate: Fate)
      modifies this`held, this`faithful
      ensures held == if fate.Rejected? then old(held) else NowHeld(old(held), e)
      ensures faithful == (old(faithful) && (fate.Delivered? ==> Shown(e, held, host)))
    {
      held := if fate.Rejected? then held else NowHeld(held, e);
      faithful := faithful && (fate.Delivered? ==> Shown(e, held, host));
    }

    /** The queue, the backend and the wire. */
    method Deliver(e: Event) returns (ok: bool, ghost fate: Fate)
      modifies this`local, this`host
      ensures ok <==> !fate.Rejected?
      ensures local == LocalNext(old(local), e, fate) && host == HostNext(old(host), hybrid, local, e, fate)
    {
      var queued: bool, processed: bool, arrived: bool := *, *, *;
      var f := if !queued then Rejected else if !processed then Dropped else if !arrived then Kept else Delivered;
      ok, fate := queued, f;
      local := LocalNext(local, e, f);
      host := HostNext(host, hybrid, local, e, f);
    }

    lemma HarmIsLoss(e: Event, l: Local, f: Fate)
      ensures Harms(e, l, f) ==> f.Kept? || f.Dropped?
    {
    }

    /** A release that does not arrive, or the absolute move that ends relative mode when it does not even reach the
        backend: the buttons would then change their endpoint while one is down. */
    predicate Harms(e: Event, l: Local, f: Fate) {
      || (e.Release() && (f.Kept? || f.Dropped?))
      || (e.MoveAbs? && !hybrid && l.relativeActive && f.Dropped?)
    }

    method SleepOrCancel() returns (r: Outcome)
      requires Ledger()
      modifies this`cancelled, this`closed
      ensures r == Done || r == Stopped
      ensures r == Done ==> late == 0
      ensures old(cancelled) ==> r == Stopped
      ensures r == Stopped ==> cancelled || closed
      ensures Ledger()
    {
      if cancelled {
        return Stopped;
      }
      Interleave();
      var elapsed: bool := *;
      return if elapsed || !(cancelled || closed) then Done else Stopped;
    }

    /** The release of the key will empty the report; when nothing was lost the key is down on both sides. */
    ghost predicate Stroking(key: Canonical)
      reads this
    {
      && failure == NoFailure && Honest({})
      && (intact ==> LocalClear(LocalAfter(local, KeyUp(key))) && local.buttons == {}
                     && host.absolute == {} && host.relative == {})
      && (lossless ==> StillHeld(KeyUp(key), local, host, hybrid))
    }

    method PressKey(key: Canonical, mods: set<Modifier>) returns (ok: bool)
      requires Idle() && Ledger()
      modifies this
      ensures sent == old(sent) + [KeyDown(key, mods)]
      ensures Ledger() && late <= old(late) + 1
      ensures if ok then Stroking(key) else Settled(SendFailed) && failure == PressFailed
    {
      ghost var l, h, clear, fate := local, host, intact, Rejected;
      ok, fate := Send(KeyDown(key, mods));
      if clear {
        PressStates(l, h, hybrid, key, mods, fate);
      }
    }

    method ReleaseKey(key: Canonical) returns (ok: bool)
      requires Stroking(key) && Ledger()
      modifies this
      ensures sent == old(sent) + [KeyUp(key)]
      ensures Ledger() && late <= old(late) + 1 && (old(cancelled) ==> cancelled) && (old(closed) ==> closed)
      ensures if ok then Idle() else Settled(SendFailed) && failure == ReleaseFailed
    {
      ghost var fate;
      ok, fate := Send(KeyUp(key));
    }

    /** Down, wait, up; the release is sent even when the wait was cut short. */
    method KeyDownUp(key: Canonical, mods: set<Modifier>) returns (r: Outcome)
      requires Idle() && Ledger() && late == 0
      modifies this
      ensures Settled(r) && Ledger() && late <= 2
      ensures !r.Unsupported? && (r == Stopped ==> cancelled || closed)
      ensures Follows(r, failure, sent, old(sent), KeyScript(key, mods))
    {
      StrokeTraces(sent, key, mods);
      var ok := PressKey(key, mods);
      if !ok {
        return SendFailed;
      }
      r := SleepOrCancel();
      ok := ReleaseKey(key);
      if !ok {
        return SendFailed;
      }
    }

    method TypeText(text: string) returns (r: Outcome)
      requires Idle() && Ledger() && late == 0
      modifies this
      ensures Settled(r) && Ledger() && late <= 2
      ensures Follows(r, failure, sent, old(sent), tables.TextScript(text))
      ensures r == Done ==> tables.Typable(text)
      ensures r.Unsupported? ==>
                sent == old(sent) + tables.TextScript(text) && r.ch in text && tables.charToKey(r.ch).None?
      ensures r == Stopped ==> cancelled || closed
    {
      ghost var before := sent;
      ghost var script := tables.TextScript(text);
      ghost var typed: seq<Event> := [];
      for i := 0 to |text|
        invariant Idle() && Ledger() && late <= 2
        invariant sent == before + typed && Closing(typed) == []
        invariant script == typed + tables.TextScript(text[i..])
        invariant tables.Typable(text[..i])
      {
        tables.NextChar(text, i);
        if cancelled {
          BreakOff(Stopped, failure, before, typed, tables.TextScript(text[i..]));
          return Stopped;
        }
        match tables.charToKey(text[i]) {
          case None =>
            BreakOff(Unsupported(text[i]), failure, before, typed, []);
            return Unsupported(text[i]);
          case Some(km) =>
            r := KeyDownUp(km.0, km.1);
            Resume(r, failure, sent, before, typed, KeyScript(km.0, km.1), tables.TextScript(text[i + 1..]));
            if r != Done {
              return;
            }
            typed := typed + KeyScript(km.0, km.1);
        }
      }
      assert text[..|text|] == text;
      return Done;
    }

    method WordModifier(word: string) returns (m: Option<Modifier>)
      ensures m == ModifierOf(word)
    {
      if word == "ctrl" || word == "control" || word == "controlleft" {
        return Some(Ctrl);
      } else if word == "shift" || word == "shiftleft" {
        return Some(Shift);
      } else if word == "alt" || word == "altleft" {
        return Some(Alt);
      } else if word == "meta" || word == "win" || word == "cmd" || word == "super" {
        return Some(Meta);
      }
      return None;
    }

    /** The chord's modifiers and its last other word, in one pass. */
    method ReadChord(keys: seq<string>) returns (mods: set<Modifier>, key: Option<Canonical>)
      ensures mods == ChordModifiers(keys) && key == tables.ChordKey(keys)
    {
      mods, key := {}, None;
      for i := 0 to |keys|
        invariant mods == ChordModifiers(keys[..i]) && key == tables.ChordKey(keys[..i])
      {
        ChordSnoc(keys[..i], keys[i]);
        assert keys[..i + 1] == keys[..i] + [keys[i]];
        var m := WordModifier(keys[i]);
        if m.Some? {
          mods := mods + {m.value};
        } else {
          key := tables.named(keys[i]);
        }
      }
      assert keys[..|keys|] == keys;
    }

    method PressChord(keys: seq<string>) returns (r: Outcome)
      requires Idle() && Ledger() && late == 0
      modifies this
      ensures Settled(r) && Ledger() && late <= 2
      ensures !r.Unsupported? && (r == Stopped ==> cancelled || closed)
      ensures Follows(r, failure, sent, old(sent), tables.Script(Keypress(keys)))
    {
      var mods, key := ReadChord(keys);
      if key.Some? {
        r := KeyDownUp(key.value, mods);
      } else {
        r := Done;
      }
    }

    method MoveTo(p: Point) returns (ok: bool)
      requires Idle() && Ledger()
      modifies this
      ensures sent == old(sent) + [MoveAbs(p)]
      ensures Ledger() && late <= old(late) + 1
      ensures if ok then Idle() && Steady() else Settled(SendFailed) && failure == OtherFailed
    {
      ghost var fate;
      ok, fate := Send(MoveAbs(p));
    }

    /** Buttons and moves use the endpoints that belong to absolute mode. */
    ghost predicate Steady()
      reads this
    {
      intact ==> hybrid || !local.relativeActive
    }

    method PressButton(b: Button) returns (ok: bool)
      requires Idle() && Steady() && Ledger()
      modifies this
      ensures sent == old(sent) + [ButtonDown(b)]
      ensures Ledger() && late <= old(late) + 1
      ensures if ok then Holding(b) && failure == NoFailure else Settled(SendFailed) && failure == PressFailed
    {
      ghost var fate;
      ok, fate := Send(ButtonDown(b));
    }

    /** A move during a drag keeps the button down on both sides, whatever becomes of it. */
    method DragTo(p: Point, b: Button) returns (ok: bool)
      requires Holding(b) && Ledger() && failure == NoFailure
      modifies this
      ensures sent == old(sent) + [MoveAbs(p)]
      ensures Ledger() && late <= old(late) + 1 && (old(cancelled) ==> cancelled) && (old(closed) ==> closed)
      ensures Holding(b) && failure == if ok then NoFailure else OtherFailed
    {
      ghost var fate;
      ok, fate := Send(MoveAbs(p));
    }

    method ReleaseButton(b: Button) returns (ok: bool)
      requires Holding(b) && Ledger() && (failure == NoFailure || failure == OtherFailed)
      modifies this
      ensures sent == old(sent) + [ButtonUp(b)]
      ensures Ledger() && late <= old(late) + 1 && (old(cancelled) ==> cancelled) && (old(closed) ==> closed)
      ensures failure == if ok then old(failure) else ReleaseFailed
      ensures if failure == NoFailure then Idle() else Settled(SendFailed)
    {
      ghost var fate;
      ok, fate := Send(ButtonUp(b));
    }

    /** Move, press, wait, release; the release is sent even when the wait was cut short. */
    method ClickOnce(p: Point, b: Button) returns (r: Outcome)
      requires Idle() && Ledger() && late == 0
      modifies this
      ensures Settled(r) && Ledger() && late <= 3
      ensures !r.Unsupported? && (r == Stopped ==> cancelled || closed)
      ensures Follows(r, failure, sent, old(sent), ClickScript(p, b))
    {
      ClickTraces(sent, p, b);
      var ok := MoveTo(p);
      if !ok {
        return SendFailed;
      }
      ok := PressButton(b);
      if !ok {
        return SendFailed;
      }
      r := SleepOrCancel();
      ok := ReleaseButton(b);
      if !ok {
        return SendFailed;
      }
    }

    method ClickTwice(p: Point, b: Button) returns (r: Outcome)
      requires Idle() && Ledger() && late == 0
      modifies this
      ensures Settled(r) && Ledger() && late <= 3
      ensures !r.Unsupported? && (r == Stopped ==> cancelled || closed)
      ensures Follows(r, failure, sent, old(sent), tables.Script(DoubleClick(p, b)))
    {
      ghost var before := sent;
      ghost var click := ClickScript(p, b);
      r := ClickOnce(p, b);
      if r != Done {
        FollowsEarly(r, failure, sent, before, click, click);
        return;
      }
      r := SleepOrCancel();
      if r != Done {
        BreakOff(r, failure, before, click, click);
        return;
      }
      ghost var halfway := sent;
      r := ClickOnce(p, b);
      FollowsThen(r, failure, sent, before, click, click);
      if r == Done {
        ClosingAppend(click, click);
        ghost var all := sent;
        r := SleepOrCancel();
        if r != Done {
          BreakOff(r, failure, before, click + click, []);
          assert click + click + [] == click + click;
        }
      }
    }

    /** The moves of a drag after the button went down. */
    method DragAlong(path: seq<Point>, b: Button) returns (r: Outcome, ghost moved: seq<Event>, ghost more: seq<Event>)
      requires Holding(b) && Ledger() && failure == NoFailure && late <= 2
      modifies this
      ensures Holding(b) && Ledger() && late <= 2
      ensures r == Done || r == Stopped || r == SendFailed
      ensures (r == SendFailed <==> failure == OtherFailed) && (r != SendFailed <==> failure == NoFailure)
      ensures r == Stopped ==> cancelled || closed
      ensures MoveScript(path) == moved + more && sent == old(sent) + moved && (r == Done ==> more == [])
      ensures forall e | e in moved :: e.MoveAbs?
    {
      ghost var before := sent;
      moved, more := [], MoveScript(path);
      for i := 0 to |path|
        invariant Holding(b) && Ledger() && failure == NoFailure && late <= 2
        invariant MoveScript(path) == moved + more && more == MoveScript(path[i..]) && sent == before + moved
        invariant forall e | e in moved :: e.MoveAbs?
      {
        r := SleepOrCancel();
        if r != Done {
          return;
        }
        var ok := DragTo(path[i], b);
        MoveSnoc(before, moved, path, i);
        moved, more := moved + [MoveAbs(path[i])], MoveScript(path[i + 1..]);
        if !ok {
          return SendFailed, moved, more;
        }
      }
      return Done, moved, more;
    }

    /** The release is sent whether the drag's moves were completed, cut short or failed. */
    method DragPath(path: seq<Point>, b: Button) returns (r: Outcome)
      requires Idle() && Ledger() && late == 0
      modifies this
      ensures Settled(r) && Ledger() && late <= 3
      ensures !r.Unsupported? && (r == Stopped ==> cancelled || closed)
      ensures Follows(r, failure, sent, old(sent), tables.Script(Drag(path, b)))
    {
      if path == [] {
        return Done;
      }
      ghost var before := sent;
      ghost var start := [MoveAbs(path[0]), ButtonDown(b)];
      var ok := MoveTo(path[0]);
      DragStart(before, path[0], b, MoveScript(path[1..]) + [ButtonUp(b)]);
      if !ok {
        return SendFailed;
      }
      ok := PressButton(b);
      if !ok {
        return SendFailed;
      }
      assert sent == before + start;
      ghost var moved, more;
      r, moved, more := DragAlong(path[1..], b);
      ok := ReleaseButton(b);
      DragEnd(before, path[0], b, moved, more);
      assert sent == before + start + moved + [ButtonUp(b)];
      if !ok {
        return SendFailed;
      }
    }

    method TurnWheel(up: bool) returns (ok: bool)
      requires Idle() && Ledger()
      modifies this
      ensures sent == old(sent) + [Wheel(up)]
      ensures Ledger() && late <= old(late) + 1
      ensures if ok then Idle() else Settled(SendFailed) && failure == OtherFailed
    {
      ghost var fate;
      ok, fate := Send(Wheel(up));
    }

    /** `n` ticks after the closed trace `start`, with the stop flag checked before each. */
    method TurnWheels(up: bool, n: nat, ghost before: seq<Event>, ghost start: seq<Event>) returns (r: Outcome)
      requires Idle() && Ledger() && late <= 1
      requires sent == before + start && Closing(start) == []
      modifies this
      ensures Settled(r) && Ledger() && late <= 1
      ensures !r.Unsupported? && (r == Stopped ==> cancelled || closed)
      ensures Follows(r, failure, sent, before, start + WheelScript(up, n))
    {
      ghost var done := start;
      for i := 0 to n
        invariant Idle() && Ledger() && late <= 1
        invariant sent == before + done && Closing(done) == []
        invariant start + WheelScript(up, n) == done + WheelScript(up, n - i)
      {
        if cancelled {
          BreakOff(Stopped, failure, before, done, WheelScript(up, n - i));
          return Stopped;
        }
        WheelSnoc(before, done, up, n - i);
        done := done + [Wheel(up)];
        var ok := TurnWheel(up);
        if !ok {
          BreakOff(SendFailed, failure, before, done, WheelScript(up, n - i - 1));
          return SendFailed;
        }
      }
      return Done;
    }

    method ScrollBy(p: Point, dy: int) returns (r: Outcome)
      requires Idle() && Ledger() && late == 0
      modifies this
      ensures Settled(r) && Ledger() && late <= 1
      ensures !r.Unsupported? && (r == Stopped ==> cancelled || closed)
      ensures Follows(r, failure, sent, old(sent), tables.Script(Scroll(p, dy)))
    {
      ghost var before := sent;
      var ticks := ScrollTicks(dy);
      var ok := MoveTo(p);
      ClosingOfMoves([MoveAbs(p)]);
      if !ok {
        BreakOff(SendFailed, failure, before, [MoveAbs(p)], WheelScript(dy > 0, Abs(ticks)));
        return SendFailed;
      }
      r := TurnWheels(ticks > 0, Abs(ticks), before, [MoveAbs(p)]);
      assert ticks > 0 <==> dy > 0;
    }

    method MoveOnly(p: Point) returns (r: Outcome)
      requires Idle() && Ledger() && late == 0
      modifies this
      ensures Settled(r) && Ledger() && late <= 1
      ensures r == Done || r == SendFailed
      ensures Follows(r, failure, sent, old(sent), [MoveAbs(p)])
    {
      ghost var before := sent;
      var ok := MoveTo(p);
      ClosingOfMoves([MoveAbs(p)]);
      BreakOff(SendFailed, OtherFailed, before, [MoveAbs(p)], []);
      assert [MoveAbs(p)] + [] == [MoveAbs(p)];
      r := if ok then Done else SendFailed;
    }

    /** Actions that only wait or do nothing. */
    method Pause(wait: bool) returns (r: Outcome)
      requires Idle() && Ledger() && late == 0
      modifies this
      ensures Settled(r) && Ledger() && late == 0
      ensures (r == Done || r == Stopped) && (r == Stopped ==> cancelled || closed)
      ensures Follows(r, failure, sent, old(sent), [])
    {
      r := Done;
      if wait {
        r := SleepOrCancel();
      }
      NothingToDo(r, failure, sent);
    }

    method ExecutePointer(a: Action) returns (r: Outcome)
      requires a.Click? || a.DoubleClick? || a.Move? || a.Drag? || a.Scroll?
      requires Idle() && Ledger() && late == 0
      modifies this
      ensures Settled(r) && Ledger() && late <= 3
      ensures Follows(r, failure, sent, old(sent), tables.Script(a))
      ensures !r.Unsupported? && (r == Stopped ==> cancelled || closed)
    {
      match a {
        case Click(p, b) => r := ClickOnce(p, b);
        case DoubleClick(p, b) => r := ClickTwice(p, b);
        case Move(p) => r := MoveOnly(p);
        case Drag(path, b) => r := DragPath(path, b);
        case Scroll(p, dy) => r := ScrollBy(p, dy);
      }
    }

    method Execute(a: Action) returns (r: Outcome)
      requires Idle() && Ledger() && late == 0
      modifies this
      ensures Settled(r) && Ledger() && late <= 3
      ensures Follows(r, failure, sent, old(sent), tables.Script(a))
      ensures r == Stopped ==> cancelled || closed
      ensures r.Unsupported? ==> a.Type? && r.ch in a.text && tables.charToKey(r.ch).None?
      ensures r == Done && a.Type? ==> tables.Typable(a.text)
    {
      match a {
        case Type(text) => r := TypeText(text);
        case Keypress(keys) => r := PressChord(keys);
        case Wait => r := Pause(true);
        case Screenshot => r := Pause(false);
        case _ => r := ExecutePointer(a);
      }
    }

    /** One round of execute_actions: the action and the pause after it, as a piece of the whole script. */
    method ExecuteNext(a: Action, ghost before: seq<Event>, ghost done: seq<Event>, ghost rest: seq<Event>)
      returns (r: Outcome)
      requires Idle() && Ledger() && late == 0 && sent == before + done && Closing(done) == []
      modifies this
      ensures Settled(r) && Ledger() && late <= 3 && (r == Done ==> late == 0)
      ensures r == Stopped ==> cancelled || closed
      ensures r.Unsupported? ==> a.Type? && r.ch in a.text && tables.charToKey(r.ch).None?
      ensures r == Done && a.Type? ==> tables.Typable(a.text)
      ensures r == Done ==> sent == before + (done + tables.Script(a)) && Closing(done + tables.Script(a)) == []
      ensures r != Done ==> Follows(r, failure, sent, before, done + (tables.Script(a) + rest))
      ensures done + (tables.Script(a) + rest) == (done + tables.Script(a)) + rest
    {
      r := Execute(a);
      tables.ScriptIsClosed(a);
      Resume(r, failure, sent, before, done, tables.Script(a), rest);
      if r == Done {
        r := SleepOrCancel();
        if r != Done {
          BreakOff(r, failure, before, done + tables.Script(a), rest);
        }
      }
    }

    /** While nothing is lost, the host sees after every event exactly what it says (`Idle` and `Settled` include this).
        Every run, completed or stopped anywhere, ends with nothing pressed while its accepted releases arrive and no
        move that ends relative mode is dropped, whatever becomes of the other events; it sends exactly the actions'
        script, or a prefix of it closed by one release; and once the stop flag is set, at most three more events are
        sent. */
    method ExecuteActions(actions: seq<Action>) returns (r: Outcome)
      requires Idle() && Ledger() && late == 0
      modifies this
      ensures Settled(r)
      ensures Follows(r, failure, sent, old(sent), tables.Scripts(actions))
      ensures r == Stopped ==> cancelled || closed
      ensures r.Unsupported? ==> tables.Untypable(actions, r.ch)
      ensures r == Done ==> tables.AllTypable(actions, |actions|)
      ensures late <= 3 && (lossless ==> faithful)
      ensures old(cancelled) && actions != [] ==> r == Stopped && sent == old(sent)
    {
      ghost var before := sent;
      ghost var done: seq<Event> := [];
      for i := 0 to |actions|
        invariant Idle() && Ledger() && late == 0
        invariant sent == before + done && Closing(done) == []
        invariant tables.Scripts(actions) == done + tables.Scripts(actions[i..])
        invariant tables.AllTypable(actions, i)
        invariant i == 0 ==> cancelled == old(cancelled) && sent == before
        invariant i > 0 ==> !old(cancelled)
      {
        tables.NextScript(actions, i);
        if cancelled {
          BreakOff(Stopped, failure, before, done, tables.Scripts(actions[i..]));
          return Stopped;
        }
        r := ExecuteNext(actions[i], before, done, tables.Scripts(actions[i + 1..]));
        tables.TypableNext(actions, i);
        if r != Done {
          return;
        }
        done := done + tables.Script(actions[i]);
      }
      return Done;
    }
  }

  lemma ChordSnoc(keys: seq<string>, w: string)
    ensures ChordModifiers(keys + [w]) ==
            ChordModifiers(keys) + (if ModifierOf(w).Some? then {ModifierOf(w).value} else {})
    ensures ChordWord(keys + [w]) == if ModifierOf(w).None? then Some(w) else ChordWord(keys)
  {
    assert (keys + [w])[..|keys|] == keys;
  }

  lemma MoveSnoc(before: seq<Event>, moved: seq<Event>, path: seq<Point>, i: nat)
    requires i < |path|
    ensures moved + MoveScript(path[i..]) == (moved + [MoveAbs(path[i])]) + MoveScript(path[i + 1..])
    ensures (before + moved) + [MoveAbs(path[i])] == before + (moved + [MoveAbs(path[i])])
  {
    assert path[i..][1..] == path[i + 1..];
  }

  lemma WheelSnoc(before: seq<Event>, done: seq<Event>, up: bool, n: nat)
    requires n > 0
    ensures done + WheelScript(up, n) == (done + [Wheel(up)]) + WheelScript(up, n - 1)
    ensures (before + done) + [Wheel(up)] == before + (done + [Wheel(up)])
    ensures Closing(done + [Wheel(up)]) == Closing(done)
  {
    assert (done + [Wheel(up)])[..|done|] == done;
  }

  lemma ClickTraces(before: seq<Event>, p: Point, b: Button)
    ensures var script := ClickScript(p, b);
            && (forall r, f | r != Done && f != PressFailed :: Follows(r, f, before + [MoveAbs(p)], before, script))
            && (forall r | r != Done ::
                 Follows(r, PressFailed, before + [MoveAbs(p)] + [ButtonDown(b)], before, script))
            && (forall r, f | r == Done || f != PressFailed ::
                 Follows(r, f, before + [MoveAbs(p)] + [ButtonDown(b)] + [ButtonUp(b)], before, script))
  {
    var script := ClickScript(p, b);
    DragStart(before, p, b, [ButtonUp(b)]);
    DragEnd(before, p, b, [], []);
    assert [MoveAbs(p), ButtonDown(b)] + [ButtonUp(b)] == script;
    assert before + [MoveAbs(p)] + [ButtonDown(b)] + [ButtonUp(b)] == before + script;
    assert before + [MoveAbs(p), ButtonDown(b)] + [] + [ButtonUp(b)] == before + script;
    assert [MoveAbs(p), ButtonDown(b)] + (([] + []) + [ButtonUp(b)]) == script;
  }

  lemma DragStart(before: seq<Event>, p: Point, b: Button, rest: seq<Event>)
    ensures var script := [MoveAbs(p), ButtonDown(b)] + rest;
            && (forall r, f | r != Done && f != PressFailed :: Follows(r, f, before + [MoveAbs(p)], before, script))
            && (forall r | r != Done ::
                 Follows(r, PressFailed, before + [MoveAbs(p)] + [ButtonDown(b)], before, script))
  {
    var script := [MoveAbs(p), ButtonDown(b)] + rest;
    assert script[..1] == [MoveAbs(p)] && script[..2] == [MoveAbs(p), ButtonDown(b)];
    ClosingOfMoves([MoveAbs(p)]);
    assert StoppedAt(before + [MoveAbs(p)], before, script, 1);
    assert before + [MoveAbs(p)] + [ButtonDown(b)] == before + script[..2];
    assert PressFailedAt(before + [MoveAbs(p)] + [ButtonDown(b)], before, script, 2);
  }

  /** A drag released after part of its moves is a closed prefix of its script. */
  lemma DragEnd(before: seq<Event>, p: Point, b: Button, moved: seq<Event>, more: seq<Event>)
    requires forall e | e in moved :: e.MoveAbs?
    ensures var start := [MoveAbs(p), ButtonDown(b)];
            var script := start + ((moved + more) + [ButtonUp(b)]);
            var sent := before + start + moved + [ButtonUp(b)];
            && (forall r, f | r != Done && f != PressFailed :: Follows(r, f, sent, before, script))
            && (more == [] ==> sent == before + script)
  {
    var start := [MoveAbs(p), ButtonDown(b)];
    var script := start + ((moved + more) + [ButtonUp(b)]);
    var n := |start| + |moved|;
    assert script[..n] == start + moved;
    ClosingDuringDrag(p, b, moved);
    assert before + start + moved + [ButtonUp(b)] == before + ((start + moved) + [ButtonUp(b)]);
    assert StoppedAt(before + start + moved + [ButtonUp(b)], before, script, n);
  }

  lemma StrokeTraces(before: seq<Event>, key: Canonical, mods: set<Modifier>)
    ensures forall r, f | r == Done || f != PressFailed ::
              Follows(r, f, before + [KeyDown(key, mods)] + [KeyUp(key)], before, KeyScript(key, mods))
    ensures forall r | r != Done :: Follows(r, PressFailed, before + [KeyDown(key, mods)], before, KeyScript(key, mods))
  {
    var script := KeyScript(key, mods);
    assert before + [KeyDown(key, mods)] + [KeyUp(key)] == before + script;
    assert script[..2] == script && script[..1] == [KeyDown(key, mods)];
    assert StoppedAt(before + script, before, script, 2);
    assert PressFailedAt(before + [KeyDown(key, mods)], before, script, 1);
  }

  /** A stopped script leaves nothing to release, wherever it was cut. */
  lemma CutIsClosed(script: seq<Event>, n: nat)
    requires n <= |script|
    ensures Closing(Cut(script, n)) == []
  {
    var s := script[..n];
    ClosingIsARelease(s);
    if Closing(s) == [] {
      assert Cut(script, n) == s;
    } else {
      assert Cut(script, n)[|s|] == Closing(s)[0];
    }
  }

  lemma {:induction false} ClosingIsARelease(s: seq<Event>)
    ensures Closing(s) == [] || (|Closing(s)| == 1 && Closing(s)[0].Release())
  {
    if s != [] {
      ClosingIsARelease(s[..|s| - 1]);
    }
  }

  lemma NothingToDo(r: Outcome, f: Failure, before: seq<Event>)
    requires f != PressFailed
    ensures Follows(r, f, before, before, [])
  {
    assert before + [] == before;
    if r != Done {
      BreakOff(r, f, before, [], []);
    }
  }

  /** Breaking off between two closed pieces of a script. */
  lemma BreakOff(r: Outcome, f: Failure, before: seq<Event>, done: seq<Event>, rest: seq<Event>)
    requires r != Done && f != PressFailed && Closing(done) == []
    ensures Follows(r, f, before + done, before, done + rest)
  {
    assert (done + rest)[..|done|] == done;
    assert StoppedAt(before + done, before, done + rest, |done|);
  }

  /** After the closed script `done`, the outcome of the piece `next` is an outcome of the whole script. */
  lemma Resume(r: Outcome, f: Failure, sent: seq<Event>, before: seq<Event>, done: seq<Event>, next: seq<Event>,
               rest: seq<Event>)
    requires Closing(done) == [] && Follows(r, f, sent, before + done, next)
    ensures r != Done ==> Follows(r, f, sent, before, done + (next + rest))
    ensures r == Done ==> sent == before + (done + next)
    ensures Closing(next) == [] ==> Closing(done + next) == []
    ensures done + (next + rest) == (done + next) + rest
  {
    FollowsThen(r, f, sent, before, done, next);
    Associative(done, next, rest);
    ClosingAppend(done, next);
    if r != Done {
      FollowsEarly(r, f, sent, before, done + next, rest);
    }
  }
}
