/** The keyboard state map (class `KeyboardControls`). */
module Controls {

  /** The `keys` dictionary: key name to "currently held". */
  type KeyMap = map<string, bool>

  /** `keys[key] || false`: a key never seen reads as released. */
  function Pressed(keys: KeyMap, key: string): (r: bool)
    ensures key in keys ==> r == keys[key]
    ensures key !in keys ==> !r
  {
    if key in keys then keys[key] else false
  }

  /** A window keyboard event, reduced to its `event.key`. */
  datatype KeyEvent = KeyDown(key: string) | KeyUp(key: string)

  /** The effect of one event on the map (`onKeyDown` / `onKeyUp`). */
  function Apply(keys: KeyMap, e: KeyEvent): (r: KeyMap)
    ensures r.Keys == keys.Keys + {e.key}
    ensures Pressed(r, e.key) == e.KeyDown?
    ensures forall k :: k != e.key ==> Pressed(r, k) == Pressed(keys, k)
    ensures forall k :: k in keys && k != e.key ==> k in r && r[k] == keys[k]
  {
    match e
    case KeyDown(k) => keys[k := true]
    case KeyUp(k) => keys[k := false]
  }

  /** The map after a sequence of events, delivered in order. */
  function Replay(keys: KeyMap, events: seq<KeyEvent>): KeyMap
    decreases |events|
  {
    if events == [] then keys else Replay(Apply(keys, events[0]), events[1..])
  }

  /** Whether no event of `events` is about `key`. */
  ghost predicate Untouched(events: seq<KeyEvent>, key: string) {
    forall i :: 0 <= i < |events| ==> events[i].key != key
  }

  /** Pressing a key twice leaves the same map as pressing it once. */
  lemma KeyDownIdempotent(keys: KeyMap, key: string)
    ensures Apply(Apply(keys, KeyDown(key)), KeyDown(key)) == Apply(keys, KeyDown(key))
  {
  }

  /** Replaying a concatenation replays its parts one after the other. */
  lemma {:induction false} ReplayAppend(keys: KeyMap, a: seq<KeyEvent>, b: seq<KeyEvent>)
    ensures Replay(keys, a + b) == Replay(Replay(keys, a), b)
    decreases |a|
  {
    if a == [] {
      assert a + b == b;
    } else {
      assert (a + b)[0] == a[0];
      assert (a + b)[1..] == a[1..] + b;
      ReplayAppend(Apply(keys, a[0]), a[1..], b);
    }
  }

  /** Events about other keys do not change whether `key` is held. */
  lemma {:induction false} ReplayKeepsUntouched(keys: KeyMap, events: seq<KeyEvent>, key: string)
    requires Untouched(events, key)
    ensures Pressed(Replay(keys, events), key) == Pressed(keys, key)
    decreases |events|
  {
    if events != [] {
      assert events[0].key != key;
      assert Untouched(events[1..], key) by {
        forall i | 0 <= i < |events[1..]| ensures events[1..][i].key != key {
          assert events[1..][i] == events[i + 1];
        }
      }
      ReplayKeepsUntouched(Apply(keys, events[0]), events[1..], key);
    }
  }

  /** A key no event has touched reads as released, starting from the initial, empty map. */
  lemma NeverSeenIsReleased(events: seq<KeyEvent>, key: string)
    requires Untouched(events, key)
    ensures !Pressed(Replay(map[], events), key)
  {
    ReplayKeepsUntouched(map[], events, key);
  }

  /** The last event about a key decides its state, whatever came before it. */
  lemma LastEventDecides(keys: KeyMap, before: seq<KeyEvent>, e: KeyEvent, after: seq<KeyEvent>)
    requires Untouched(after, e.key)
    ensures Pressed(Replay(keys, before + [e] + after), e.key) == e.KeyDown?
  {
    ReplayAppend(keys, before + [e], after);
    ReplayAppend(keys, before, [e]);
    var mid := Replay(keys, before);
    assert Replay(mid, [e]) == Replay(Apply(mid, e), []);
    ReplayKeepsUntouched(Apply(mid, e), after, e.key);
  }

  class KeyboardControls {
    var keys: KeyMap

    /** Starts with no key seen (the `window` listener registration is not modelled). */
    constructor ()
      ensures keys == map[]
    {
      keys := map[];
    }

    /** `onKeyDown`: the key is recorded as held; every other key keeps its state. */
    method OnKeyDown(key: string)
      modifies this
      ensures keys == Apply(old(keys), KeyDown(key))
      ensures IsKeyPressed(key)
      ensures forall k :: k != key ==> IsKeyPressed(k) == Pressed(old(keys), k)
    {
      keys := keys[key := true];
    }

    /** `onKeyUp`: the key is recorded as released; every other key keeps its state. */
    method OnKeyUp(key: string)
      modifies this
      ensures keys == Apply(old(keys), KeyUp(key))
      ensures !IsKeyPressed(key)
      ensures forall k :: k != key ==> IsKeyPressed(k) == Pressed(old(keys), k)
    {
      keys := keys[key := false];
    }

    /** `isKeyPressed`: lookup with default false. */
    function IsKeyPressed(key: string): (r: bool)
      reads this
      ensures key in keys ==> r == keys[key]
      ensures key !in keys ==> !r
    {
      Pressed(keys, key)
    }
  }
}
