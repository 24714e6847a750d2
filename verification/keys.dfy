/** Synthetic keyboard input. The bot's actions are modelled as the sequence of key events they
    inject (pyautogui `keyDown`, `keyUp` and `press`); the hold durations between them are timing
    only and are not part of the model. */
module Keys {
  import opened Wrappers

  datatype Key = Left | Right | Up | Down | Space | Letter(c: char)

  datatype KeyEvent = KeyDown(key: Key) | KeyUp(key: Key) | Press(key: Key)

  /** The attack skill key of the bot (`attack_keys = ['x']`). */
  const AttackKey: Key := Letter('x')

  /** Holding a key for a while: key down, then key up. */
  function Hold(k: Key): seq<KeyEvent> {
    [KeyDown(k), KeyUp(k)]
  }

  /** Holding key `k` while tapping a different key `t` (a jump while a direction is held). */
  function HoldWhileTapping(k: Key, t: Key): seq<KeyEvent> {
    [KeyDown(k), Press(t), KeyUp(k)]
  }

  /** Replays `events` starting with the keys in `held` logically down. None when an event
      misuses the keyboard: a key pressed down twice, a key released that is not down, or a key
      tapped while it is held. */
  function Replay(events: seq<KeyEvent>, held: set<Key>): Option<set<Key>> {
    if events == [] then Some(held)
    else match events[0]
      case KeyDown(k) => if k in held then None else Replay(events[1..], held + {k})
      case KeyUp(k) => if k !in held then None else Replay(events[1..], held - {k})
      case Press(k) => if k in held then None else Replay(events[1..], held)
  }

  /** A script that uses the keyboard correctly and leaves no key down when it ends. */
  predicate Balanced(events: seq<KeyEvent>) {
    Replay(events, {}) == Some({})
  }

  lemma {:induction false} ReplayConcat(a: seq<KeyEvent>, b: seq<KeyEvent>, held: set<Key>)
    ensures Replay(a + b, held) == (match Replay(a, held)
                                      case None => None
                                      case Some(h) => Replay(b, h))
  {
    if a == [] {
      assert a + b == b;
    } else {
      assert (a + b)[0] == a[0];
      assert (a + b)[1..] == a[1..] + b;
      match a[0]
      case KeyDown(k) => if k !in held { ReplayConcat(a[1..], b, held + {k}); }
      case KeyUp(k) => if k in held { ReplayConcat(a[1..], b, held - {k}); }
      case Press(k) => if k !in held { ReplayConcat(a[1..], b, held); }
    }
  }

  /** Running one balanced script after another is balanced. */
  lemma BalancedConcat(a: seq<KeyEvent>, b: seq<KeyEvent>)
    requires Balanced(a) && Balanced(b)
    ensures Balanced(a + b)
  {
    ReplayConcat(a, b, {});
  }

  lemma TapBalanced(k: Key)
    ensures Balanced([Press(k)])
  {
    assert [Press(k)][1..] == [];
  }

  lemma HoldBalanced(k: Key)
    ensures Balanced(Hold(k))
  {
    var e := Hold(k);
    assert e[1..] == [KeyUp(k)];
    assert e[1..][1..] == [];
    assert {k} - {k} == {};
    assert Replay(e[1..][1..], {}) == Some({});
    assert Replay(e[1..], {k}) == Some({});
    assert Replay(e, {}) == Replay(e[1..], {} + {k});
  }

  lemma HoldWhileTappingBalanced(k: Key, t: Key)
    requires k != t
    ensures Balanced(HoldWhileTapping(k, t))
  {
    var e := HoldWhileTapping(k, t);
    var e1: seq<KeyEvent> := [Press(t), KeyUp(k)];
    var e2: seq<KeyEvent> := [KeyUp(k)];
    assert e[0] == KeyDown(k) && e[1..] == e1;
    assert e1[0] == Press(t) && e1[1..] == e2;
    assert e2[0] == KeyUp(k) && e2[1..] == [];
    var h: set<Key> := {k};
    assert {} + {k} == h && h - {k} == {} && t !in h && k in h;
    assert Replay(e2, h) == Replay([], {});
    assert Replay(e1, h) == Replay(e2, h);
    assert Replay(e, {}) == Replay(e1, h);
  }

  /** Number of taps of key `k`. */
  function CountPress(events: seq<KeyEvent>, k: Key): nat {
    if events == [] then 0
    else (if events[0] == Press(k) then 1 else 0) + CountPress(events[1..], k)
  }

  /** The keys that are held down, in the order they go down. */
  function HeldKeys(events: seq<KeyEvent>): seq<Key> {
    if events == [] then []
    else (if events[0].KeyDown? then [events[0].key] else []) + HeldKeys(events[1..])
  }

  lemma {:induction false} CountPressConcat(a: seq<KeyEvent>, b: seq<KeyEvent>, k: Key)
    ensures CountPress(a + b, k) == CountPress(a, k) + CountPress(b, k)
  {
    if a == [] {
      assert a + b == b;
    } else {
      assert (a + b)[0] == a[0];
      assert (a + b)[1..] == a[1..] + b;
      CountPressConcat(a[1..], b, k);
    }
  }

  lemma {:induction false} HeldKeysConcat(a: seq<KeyEvent>, b: seq<KeyEvent>)
    ensures HeldKeys(a + b) == HeldKeys(a) + HeldKeys(b)
  {
    if a == [] {
      assert a + b == b;
    } else {
      assert (a + b)[0] == a[0];
      assert (a + b)[1..] == a[1..] + b;
      HeldKeysConcat(a[1..], b);
    }
  }
}
