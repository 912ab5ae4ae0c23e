/** Key-state plumbing of the test harness (actions/game.py): the PressedKeys
    value, the Keys dictionary, the per-frame snapshot the oracle reads, the
    KEYDOWN/KEYUP diff posted by `press_keys`, and the way the non-manual event
    loop applies those events to the held-key dictionary. */
module Game {
  import opened Wrappers
  import opened Vision

  /** The six fields of PressedKeys, in declaration order. */
  datatype Field = Right | Left | Jump | Action | Down | Enter

  const Fields: seq<Field> := [Right, Left, Jump, Action, Down, Enter]

  /** Position of a field in declaration order. */
  function Rank(f: Field): (r: nat)
    ensures r < |Fields| && Fields[r] == f
  {
    match f
    case Right => 0
    case Left => 1
    case Jump => 2
    case Action => 3
    case Down => 4
    case Enter => 5
  }

  /** Controller state for one tick; every field defaults to 0 and any non-zero
      value counts as pressed (Python truthiness). */
  datatype PressedKeys = PressedKeys(right: int, left: int, jump: int, action: int, down: int, enter: int)

  /** `PressedKeys()` with every field left at its default. */
  const NoKeys: PressedKeys := PressedKeys(0, 0, 0, 0, 0, 0)

  function Get(k: PressedKeys, f: Field): int
  {
    match f
    case Right => k.right
    case Left => k.left
    case Jump => k.jump
    case Action => k.action
    case Down => k.down
    case Enter => k.enter
  }

  /** A struct built field by field, as `PressedKeys(**{k: ...})` does. */
  function Make(value: Field -> int): (k: PressedKeys)
    ensures forall f :: Get(k, f) == value(f)
  {
    PressedKeys(value(Right), value(Left), value(Jump), value(Action), value(Down), value(Enter))
  }

  /** The tuple `__hash__` hashes: the six fields in declaration order. */
  function FieldTuple(k: PressedKeys): (int, int, int, int, int, int)
  {
    (k.right, k.left, k.jump, k.action, k.down, k.enter)
  }

  /** `PressedKeys.__hash__`, with Python's tuple hash as a parameter. */
  function HashKeys(k: PressedKeys, tupleHash: ((int, int, int, int, int, int)) -> int): int
  {
    tupleHash(FieldTuple(k))
  }

  /** The hashed tuple determines the struct, so hashing agrees with struct
      equality: equal structs hash equally under any tuple hash. */
  lemma HashAgreesWithEquality(a: PressedKeys, b: PressedKeys, tupleHash: ((int, int, int, int, int, int)) -> int)
    ensures FieldTuple(a) == FieldTuple(b) <==> a == b
    ensures a == b ==> HashKeys(a, tupleHash) == HashKeys(b, tupleHash)
  {
  }

  /** pygame 2 key codes of the keys the harness binds. */
  const K_RETURN: int := 13
  const K_a: int := 97
  const K_s: int := 115
  const K_RIGHT: int := 1073741903
  const K_LEFT: int := 1073741904
  const K_DOWN: int := 1073741905

  /** The key binding of each field (the module-level `keys` dictionary; `jump`
      is key "a" and `action` is key "s"). */
  function KeyCode(f: Field): int
  {
    match f
    case Right => K_RIGHT
    case Left => K_LEFT
    case Jump => K_a
    case Action => K_s
    case Down => K_DOWN
    case Enter => K_RETURN
  }

  /** pygame 2's code of the keypad Enter key. */
  const K_KP_ENTER: int := 1073741912

  /** The code `pg.key.key_code` gives for the name `get_pressed_keys` asks
      about each field: "right", "left", "a", "s", "down" and "enter".
      pygame's key-name table gives "enter" to the keypad Enter key (the main
      Enter key, K_RETURN, is "return"), so only the enter field is read from
      a code other than its binding. */
  function NameCode(f: Field): int
  {
    if f == Enter then K_KP_ENTER else KeyCode(f)
  }

  /** The name lookup agrees with the key bindings on every field but enter,
      and the code it reads for enter is bound to no field. */
  lemma NameCodeAgrees(f: Field, g: Field)
    ensures NameCode(f) == KeyCode(f) <==> f != Enter
    ensures NameCode(Enter) != KeyCode(g)
  {
  }

  /** Distinct fields are bound to distinct keys. */
  lemma KeyCodeInjective(f: Field, g: Field)
    ensures KeyCode(f) == KeyCode(g) <==> f == g
  {
  }

  /** A held key code: present in the key dictionary, whatever its value. */
  predicate Held(keys: map<int, bool>, f: Field)
  {
    KeyCode(f) in keys
  }

  /** The `Keys` dictionary of held key codes. */
  class Keys {
    var keys: map<int, bool>

    constructor ()
      ensures keys == map[]
    {
      keys := map[];
    }

    /** `__contains__`. */
    predicate Contains(key: int)
      reads this
    {
      key in keys
    }

    /** `__getitem__`: the stored value, or False for an absent code. */
    function Item(key: int): (v: bool)
      reads this
      ensures key !in keys ==> !v
      ensures key in keys ==> v == keys[key]
    {
      if key in keys then keys[key] else false
    }

    /** `__setitem__`. */
    method SetItem(key: int, value: bool)
      modifies this
      ensures keys == old(keys)[key := value]
    {
      keys := keys[key := value];
    }

    /** `__delitem__`; like a dict, it needs the code to be present. */
    method DelItem(key: int)
      requires key in keys
      modifies this
      ensures keys == old(keys) - {key}
      ensures key !in keys && |keys| == |old(keys)| - 1
    {
      keys := keys - {key};
    }
  }

  /** `is_key_pressed`: 1 when the field's key code is held, else 0. */
  function IsKeyPressed(keys: map<int, bool>, f: Field): (r: int)
    ensures r == 1 <==> Held(keys, f)
    ensures r == 0 <==> !Held(keys, f)
  {
    if KeyCode(f) in keys then 1 else 0
  }

  /** `get_pressed_keys` with every field read through its binding in
      `keys` (enter as K_RETURN, the key `press_keys` posts for it): the held
      keys as a PressedKeys of zeros and ones. The rest of the model reads
      pressed keys this way; the read as written is below. */
  function GetPressedKeys(keys: map<int, bool>): (k: PressedKeys)
    ensures forall f :: Get(k, f) == IsKeyPressed(keys, f)
  {
    Make(f => IsKeyPressed(keys, f))
  }

  /** `get_pressed_keys` as written: each field is read through the code of
      its key name, so enter reads whether keypad Enter is held. */
  function GetPressedKeysAsWritten(keys: map<int, bool>): (k: PressedKeys)
    ensures forall f :: Get(k, f) == (if NameCode(f) in keys then 1 else 0)
    ensures forall f :: f != Enter ==> Get(k, f) == Get(GetPressedKeys(keys), f)
  {
    Make(f => if NameCode(f) in keys then 1 else 0)
  }

  /** The 0/1 form of a struct: 1 exactly for its truthy fields. */
  function Normalize(k: PressedKeys): (n: PressedKeys)
    ensures forall f :: Get(n, f) == (if Get(k, f) != 0 then 1 else 0)
  {
    Make(f => if Get(k, f) != 0 then 1 else 0)
  }

  /** A key dictionary holds exactly the truthy fields of `k`. */
  predicate Matches(keys: map<int, bool>, k: PressedKeys)
  {
    forall f :: Held(keys, f) <==> Get(k, f) != 0
  }

  /** Reading the held keys back gives the 0/1 form of the struct they match. */
  lemma MatchesReadsBack(keys: map<int, bool>, k: PressedKeys)
    ensures Matches(keys, k) <==> GetPressedKeys(keys) == Normalize(k)
  {
    if GetPressedKeys(keys) == Normalize(k) {
      forall f ensures Held(keys, f) <==> Get(k, f) != 0 {
        assert Get(GetPressedKeys(keys), f) == Get(Normalize(k), f);
      }
    }
  }

  /** pygame events, as far as the harness uses them. */
  datatype Event = Quit | KeyDown(key: int) | KeyUp(key: int)

  /** The event `press_keys` posts for one field, if any. */
  function FieldEvent(press: PressedKeys, current: PressedKeys, f: Field): seq<Event>
  {
    if Get(press, f) != 0 && Get(current, f) == 0 then [KeyDown(KeyCode(f))]
    else if Get(press, f) == 0 && Get(current, f) != 0 then [KeyUp(KeyCode(f))]
    else []
  }

  /** The events posted for the fields `fs`, in that order. */
  function DiffOver(press: PressedKeys, current: PressedKeys, fs: seq<Field>): seq<Event>
  {
    if fs == [] then []
    else DiffOver(press, current, fs[..|fs| - 1]) + FieldEvent(press, current, fs[|fs| - 1])
  }

  /** `press_keys`: walk the fields in declaration order and post KEYDOWN for a
      field wanted but not held, KEYUP for one held but not wanted. With no
      current state given it is read from the game's key dictionary. */
  method PressKeys(keys: map<int, bool>, press: PressedKeys, pressedKeys: Option<PressedKeys>)
    returns (events: seq<Event>)
    ensures events == DiffOver(press, if pressedKeys.Some? then pressedKeys.value else GetPressedKeys(keys), Fields)
  {
    var current := if pressedKeys.Some? then pressedKeys.value else GetPressedKeys(keys);
    events := [];
    for i := 0 to |Fields|
      invariant events == DiffOver(press, current, Fields[..i])
    {
      var f := Fields[i];
      var pressed := Get(press, f);
      var cur := Get(current, f);
      if pressed != 0 && cur == 0 {
        events := events + [KeyDown(KeyCode(f))];
      } else if pressed == 0 && cur != 0 {
        events := events + [KeyUp(KeyCode(f))];
      }
      assert Fields[..i + 1][..i] == Fields[..i];
    }
    assert Fields[..|Fields|] == Fields;
  }

  /** The field whose key code is `key`, for the six bound codes. */
  function FieldOf(e: Event): Option<Field>
  {
    if e.Quit? then None
    else if e.key == K_RIGHT then Some(Right)
    else if e.key == K_LEFT then Some(Left)
    else if e.key == K_a then Some(Jump)
    else if e.key == K_s then Some(Action)
    else if e.key == K_DOWN then Some(Down)
    else if e.key == K_RETURN then Some(Enter)
    else None
  }

  /** Rank of the field an event is about; 6 for QUIT and unbound codes. */
  function EventRank(e: Event): nat
  {
    match FieldOf(e)
    case None => 6
    case Some(f) => Rank(f)
  }

  lemma FieldOfKeyCode(f: Field)
    ensures FieldOf(KeyDown(KeyCode(f))) == Some(f) && FieldOf(KeyUp(KeyCode(f))) == Some(f)
    ensures EventRank(KeyDown(KeyCode(f))) == Rank(f) && EventRank(KeyUp(KeyCode(f))) == Rank(f)
  {
  }

  /** The diff over the first n fields has at most n events, each about one of
      those fields, in strictly increasing field order. */
  lemma {:induction false} DiffOverRanks(press: PressedKeys, current: PressedKeys, n: nat)
    requires n <= |Fields|
    ensures RanksBelow(DiffOver(press, current, Fields[..n]), n)
  {
    if n > 0 {
      DiffOverRanks(press, current, n - 1);
      DiffOverSnoc(press, current, n);
      var g := Fields[n - 1];
      assert Rank(g) == n - 1;
      FieldOfKeyCode(g);
      var fe := FieldEvent(press, current, g);
      assert forall e :: e in fe ==> EventRank(e) == n - 1;
      RanksStep(DiffOver(press, current, Fields[..n - 1]), fe, DiffOver(press, current, Fields[..n]), n);
    }
  }

  /** At most n events, each about one of the first n fields, in strictly
      increasing field order. */
  predicate RanksBelow(evs: seq<Event>, n: nat)
  {
    && |evs| <= n
    && (forall e :: e in evs ==> EventRank(e) < n)
    && (forall i, j :: 0 <= i < j < |evs| ==> EventRank(evs[i]) < EventRank(evs[j]))
  }

  /** Appending at most one event about field n - 1 to events about the
      earlier fields keeps them ordered. */
  lemma RanksStep(prev: seq<Event>, fe: seq<Event>, evs: seq<Event>, n: nat)
    requires n > 0 && RanksBelow(prev, n - 1) && evs == prev + fe
    requires |fe| <= 1 && forall e :: e in fe ==> EventRank(e) == n - 1
    ensures RanksBelow(evs, n)
  {
    forall i, j | 0 <= i < j < |evs| ensures EventRank(evs[i]) < EventRank(evs[j]) {
      if j >= |prev| {
        assert evs[i] in prev && evs[j] in fe;
      }
    }
  }

  /** Among the first n fields, KEYDOWN is in evs exactly for the fields
      wanted but not held, KEYUP exactly for those held but not wanted. */
  predicate DiffCovers(evs: seq<Event>, press: PressedKeys, current: PressedKeys, n: nat)
  {
    forall f :: Rank(f) < n ==>
      && (KeyDown(KeyCode(f)) in evs <==> Get(press, f) != 0 && Get(current, f) == 0)
      && (KeyUp(KeyCode(f)) in evs <==> Get(press, f) == 0 && Get(current, f) != 0)
  }

  /** Appending the event of field n - 1 to a diff about the earlier fields
      extends what it covers to the first n fields. */
  lemma DiffCoversStep(prev: seq<Event>, evs: seq<Event>, press: PressedKeys, current: PressedKeys, n: nat)
    requires 0 < n <= |Fields|
    requires DiffCovers(prev, press, current, n - 1)
    requires forall e :: e in prev ==> EventRank(e) < n - 1
    requires evs == prev + FieldEvent(press, current, Fields[n - 1])
    ensures DiffCovers(evs, press, current, n)
  {
    var g := Fields[n - 1];
    assert Rank(g) == n - 1;
    forall f | Rank(f) < n
      ensures KeyDown(KeyCode(f)) in evs <==> Get(press, f) != 0 && Get(current, f) == 0
      ensures KeyUp(KeyCode(f)) in evs <==> Get(press, f) == 0 && Get(current, f) != 0
    {
      FieldOfKeyCode(f);
      if f != g {
        KeyCodeInjective(f, g);
        assert Rank(f) < n - 1;
      } else {
        assert KeyDown(KeyCode(f)) !in prev && KeyUp(KeyCode(f)) !in prev;
      }
    }
  }

  /** In the diff over the first n fields, a field among them gets KEYDOWN
      exactly when wanted and not held, and KEYUP exactly when held and not
      wanted. */
  lemma {:induction false} DiffOverMembership(press: PressedKeys, current: PressedKeys, n: nat)
    requires n <= |Fields|
    ensures DiffCovers(DiffOver(press, current, Fields[..n]), press, current, n)
  {
    if n > 0 {
      DiffOverMembership(press, current, n - 1);
      DiffOverRanks(press, current, n - 1);
      DiffOverSnoc(press, current, n);
      DiffCoversStep(DiffOver(press, current, Fields[..n - 1]), DiffOver(press, current, Fields[..n]), press, current, n);
    }
  }

  /** The diff over the first n fields extends the diff over the first
      n - 1 by the event of field n - 1. */
  lemma DiffOverSnoc(press: PressedKeys, current: PressedKeys, n: nat)
    requires 0 < n <= |Fields|
    ensures DiffOver(press, current, Fields[..n])
      == DiffOver(press, current, Fields[..n - 1]) + FieldEvent(press, current, Fields[n - 1])
  {
    assert Fields[..n][..n - 1] == Fields[..n - 1];
  }

  /** What `press_keys` posts: KEYDOWN exactly for the fields wanted but not
      held, KEYUP exactly for the fields held but not wanted, nothing for fields
      that agree, at most one event per field and in declaration order. */
  lemma PressKeysEvents(press: PressedKeys, current: PressedKeys)
    ensures var evs := DiffOver(press, current, Fields);
      && |evs| <= 6
      && (forall i, j :: 0 <= i < j < |evs| ==> EventRank(evs[i]) < EventRank(evs[j]))
      && (forall f ::
            (KeyDown(KeyCode(f)) in evs <==> Get(press, f) != 0 && Get(current, f) == 0)
            && (KeyUp(KeyCode(f)) in evs <==> Get(press, f) == 0 && Get(current, f) != 0))
  {
    DiffOverRanks(press, current, |Fields|);
    DiffOverMembership(press, current, |Fields|);
    assert Fields[..|Fields|] == Fields;
    forall f ensures Rank(f) < |Fields| { }
  }

  /** The non-manual event-loop rule for one event: KEYDOWN holds the key,
      KEYUP releases it only if it is held, QUIT leaves the keys alone. */
  function ApplyEvent(keys: map<int, bool>, e: Event): map<int, bool>
  {
    match e
    case Quit => keys
    case KeyDown(k) => keys[k := true]
    case KeyUp(k) => if k in keys then keys - {k} else keys
  }

  /** The events applied in queue order. */
  function ApplyEvents(keys: map<int, bool>, events: seq<Event>): map<int, bool>
  {
    if events == [] then keys
    else ApplyEvent(ApplyEvents(keys, events[..|events| - 1]), events[|events| - 1])
  }

  lemma {:induction false} ApplyEventsAppend(keys: map<int, bool>, a: seq<Event>, b: seq<Event>)
    ensures ApplyEvents(keys, a + b) == ApplyEvents(ApplyEvents(keys, a), b)
  {
    if b != [] {
      assert (a + b)[..|a + b| - 1] == a + b[..|b| - 1];
      ApplyEventsAppend(keys, a, b[..|b| - 1]);
    } else {
      assert a + b == a;
    }
  }

  /** `Control.event_loop` outside manual mode: drain the queue into the key
      dictionary; the result says whether a QUIT event was seen. */
  method EventLoop(k: Keys, events: seq<Event>) returns (quit: bool)
    modifies k
    ensures k.keys == ApplyEvents(old(k.keys), events)
    ensures quit <==> Quit in events
  {
    quit := false;
    for i := 0 to |events|
      invariant k.keys == ApplyEvents(old(k.keys), events[..i])
      invariant quit <==> Quit in events[..i]
    {
      var e := events[i];
      match e {
        case Quit =>
          quit := true;
        case KeyDown(key) =>
          k.SetItem(key, true);
        case KeyUp(key) =>
          if k.Contains(key) {
            k.DelItem(key);
          }
      }
      assert events[..i + 1] == events[..i] + [e];
    }
    assert events[..|events|] == events;
  }

  /** The event posted for one field, applied to a dictionary that holds the
      field as `current` has it, leaves the field held exactly when `press`
      sets it and keeps every other key code. */
  lemma FieldEventEffect(m: map<int, bool>, press: PressedKeys, current: PressedKeys, g: Field)
    requires Held(m, g) <==> Get(current, g) != 0
    ensures var r := ApplyEvents(m, FieldEvent(press, current, g));
      && (Held(r, g) <==> Get(press, g) != 0)
      && (forall c :: c != KeyCode(g) ==> (c in r <==> c in m) && (c in m ==> r[c] == m[c]))
  {
    var fe := FieldEvent(press, current, g);
    if fe != [] {
      assert fe[..|fe| - 1] == [];
    }
  }

  /** The diff over the first n fields keeps exactly the fields it covers
      at their wanted state. */
  ghost predicate PrefixApplied(keys: map<int, bool>, r: map<int, bool>, press: PressedKeys, n: nat)
  {
    && (forall f :: Rank(f) < n ==> (Held(r, f) <==> Get(press, f) != 0))
    && (forall f :: Rank(f) >= n ==> (Held(r, f) <==> Held(keys, f)))
    && (forall c :: (forall f :: c != KeyCode(f)) ==> (c in r <==> c in keys) && (c in keys ==> r[c] == keys[c]))
  }

  /** One more field: if `mid` is the first n - 1 fields applied and `r`
      applies field n - 1 on top of `mid`, then `r` is the first n applied. */
  lemma PrefixAppliedStep(keys: map<int, bool>, mid: map<int, bool>, r: map<int, bool>, press: PressedKeys, n: nat)
    requires 0 < n <= |Fields|
    requires PrefixApplied(keys, mid, press, n - 1)
    requires Held(r, Fields[n - 1]) <==> Get(press, Fields[n - 1]) != 0
    requires forall c :: c != KeyCode(Fields[n - 1]) ==> (c in r <==> c in mid) && (c in mid ==> r[c] == mid[c])
    ensures PrefixApplied(keys, r, press, n)
  {
    var g := Fields[n - 1];
    assert Rank(g) == n - 1;
    forall f | Rank(f) < n ensures Held(r, f) <==> Get(press, f) != 0 {
      if f != g {
        KeyCodeInjective(f, g);
        assert Held(r, f) <==> Held(mid, f);
      }
    }
    forall f | Rank(f) >= n ensures Held(r, f) <==> Held(keys, f) {
      KeyCodeInjective(f, g);
      assert Held(r, f) <==> Held(mid, f);
    }
    forall c | (forall f :: c != KeyCode(f)) ensures (c in r <==> c in keys) && (c in keys ==> r[c] == keys[c]) {
      assert c != KeyCode(g);
    }
  }

  /** Applying the diff over a prefix of the fields updates exactly the key
      codes of those fields, to the wanted state, and keeps every other code. */
  lemma {:induction false} ApplyDiffPrefix(keys: map<int, bool>, press: PressedKeys, current: PressedKeys, n: nat)
    requires n <= |Fields|
    requires Matches(keys, current)
    ensures PrefixApplied(keys, ApplyEvents(keys, DiffOver(press, current, Fields[..n])), press, n)
  {
    if n > 0 {
      ApplyDiffPrefix(keys, press, current, n - 1);
      assert Fields[..n][..n - 1] == Fields[..n - 1];
      var g := Fields[n - 1];
      assert Rank(g) == n - 1;
      var prev := DiffOver(press, current, Fields[..n - 1]);
      var mid := ApplyEvents(keys, prev);
      var fe := FieldEvent(press, current, g);
      assert DiffOver(press, current, Fields[..n]) == prev + fe;
      ApplyEventsAppend(keys, prev, fe);
      assert Held(mid, g) <==> Held(keys, g);
      FieldEventEffect(mid, press, current, g);
      PrefixAppliedStep(keys, mid, ApplyEvents(mid, fe), press, n);
    }
  }

  /** Posting the `press_keys` diff and applying it with the non-manual event
      loop turns a key dictionary matching the current keys into one matching
      the wanted keys; key codes of no field are untouched. */
  lemma PressKeysRoundTrip(keys: map<int, bool>, press: PressedKeys, current: PressedKeys)
    requires Matches(keys, current)
    ensures var r := ApplyEvents(keys, DiffOver(press, current, Fields));
      && Matches(r, press)
      && GetPressedKeys(r) == Normalize(press)
      && (forall c :: (forall f :: c != KeyCode(f)) ==> (c in r <==> c in keys) && (c in keys ==> r[c] == keys[c]))
  {
    ApplyDiffPrefix(keys, press, current, |Fields|);
    assert Fields[..|Fields|] == Fields;
    var r := ApplyEvents(keys, DiffOver(press, current, Fields));
    MatchesReadsBack(r, press);
  }

  /** Applying events that never hold `c` keeps `c` released. */
  lemma {:induction false} ApplyEventsKeepsReleased(keys: map<int, bool>, events: seq<Event>, c: int)
    requires c !in keys && KeyDown(c) !in events
    ensures c !in ApplyEvents(keys, events)
  {
    if events != [] {
      var init := events[..|events| - 1];
      assert forall e :: e in init ==> e in events;
      ApplyEventsKeepsReleased(keys, init, c);
    }
  }

  /** Witness of the enter mismatch of `get_pressed_keys` as written, for
      any keys without keypad Enter held (in particular none at all): a wanted
      enter posts KEYDOWN K_RETURN, yet after the event loop applies the
      diff enter still reads 0, and no diff ever posts KEYUP K_RETURN, so a
      held K_RETURN is never released. */
  lemma EnterNeverReadsBack(keys: map<int, bool>, press: PressedKeys)
    requires K_KP_ENTER !in keys
    ensures var evs := DiffOver(press, GetPressedKeysAsWritten(keys), Fields);
      && (KeyDown(K_RETURN) in evs <==> press.enter != 0)
      && KeyUp(K_RETURN) !in evs
      && GetPressedKeysAsWritten(ApplyEvents(keys, evs)).enter == 0
  {
    var current := GetPressedKeysAsWritten(keys);
    var evs := DiffOver(press, current, Fields);
    assert Get(current, Enter) == 0;
    PressKeysEvents(press, current);
    DiffOverRanks(press, current, |Fields|);
    assert Fields[..|Fields|] == Fields;
    assert EventRank(KeyDown(K_KP_ENTER)) == 6;
    ApplyEventsKeepsReleased(keys, evs, K_KP_ENTER);
  }

  /** Player attributes the harness copies from the game's player sprite. */
  datatype Player = Player(xPos: int, yPos: int, state: string, big: bool, fire: bool, dead: bool)

  /** `BehaviorState`: one frame as the oracle sees it. The harness never
      stores a viewport in it, so `viewport` is None in every recorded frame. */
  datatype BehaviorState = BehaviorState(
    keys: map<int, bool>,
    boxes: map<string, seq<Element>>,
    viewport: Option<Rect>,
    player: Option<Player>,
    levelNum: Option<int>,
    startX: int,
    endX: int)
}
