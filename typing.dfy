/**
 * The hero section: the `TypingText` typewriter, a state machine driven by
 * one timer at a time, and the orbit panel's `measure` arithmetic.
 */
module Typewriter {
  import opened Wrappers

  // ---------------------------------------------------------------------------
  // Typewriter: the pure transition system
  // ---------------------------------------------------------------------------

  /** The component's props. */
  datatype Config = Config(text: string, typeSpeed: nat, deleteSpeed: nat, pause: nat)

  /** The default props. */
  const DefaultConfig := Config("Web developer", 80, 40, 1100)

  /** The fixed delay before typing starts again after everything is deleted. */
  const RestartDelay: nat := 250

  /** The four timers the effect can set; at most one is pending at a time. */
  datatype Timer = TypeTick | PauseAtEnd | DeleteTick | PauseAtStart

  /** The state the effect depends on: `display`, `pos` and `isDeleting`. */
  datatype Typing = Typing(display: string, pos: int, isDeleting: bool)

  /** The state on mount. */
  const Start := Typing("", 0, false)

  /** `text.slice(0, end)`: a negative end counts from the back. */
  function SlicePrefix(text: string, end: int): (r: string)
    ensures r <= text
    ensures 0 <= end <= |text| ==> r == text[..end]
  {
    if end < 0 then (if |text| + end < 0 then [] else text[..|text| + end])
    else if end > |text| then text
    else text[..end]
  }

  /**
   * The timer the effect sets in state `st` for a text of length `len`;
   * `None` when it sets none. Typing at the end of the text and deleting at
   * the start replace the tick by a pause: the tick's timeout is cleared
   * before it can fire.
   */
  function Scheduled(st: Typing, len: nat): (t: Option<Timer>)
    ensures t == None <==> !st.isDeleting && st.pos > len
    ensures t == Some(TypeTick) <==> !st.isDeleting && st.pos < len
    ensures t == Some(PauseAtEnd) <==> !st.isDeleting && st.pos == len
    ensures t == Some(DeleteTick) <==> st.isDeleting && st.pos > 0
    ensures t == Some(PauseAtStart) <==> st.isDeleting && st.pos <= 0
  {
    if !st.isDeleting && st.pos <= len then
      if st.pos == len then Some(PauseAtEnd) else Some(TypeTick)
    else if st.isDeleting then
      if st.pos <= 0 then Some(PauseAtStart) else Some(DeleteTick)
    else
      None
  }

  /** How long timer `t` waits before its callback runs. */
  function Delay(t: Timer, c: Config): nat {
    match t
    case TypeTick => c.typeSpeed
    case PauseAtEnd => c.pause
    case DeleteTick => c.deleteSpeed
    case PauseAtStart => RestartDelay
  }

  /**
   * What the callback of timer `t` does to the state: a tick shows the first
   * `pos` characters of the text (a prefix of it even when `pos` is out of
   * range) and moves `pos` one step in the current direction; the pause
   * at the end turns to deleting one position back; the pause at the start
   * turns to typing at position 1. Pauses leave `display` alone.
   */
  function Apply(t: Timer, st: Typing, text: string): (r: Typing)
    ensures t.TypeTick? || t.DeleteTick? ==> r.display <= text && r.isDeleting == st.isDeleting
    ensures (t.TypeTick? || t.DeleteTick?) && 0 <= st.pos <= |text| ==> r.display == text[..st.pos]
    ensures t.TypeTick? ==> r.pos == st.pos + 1
    ensures t.DeleteTick? || t.PauseAtEnd? ==> r.pos == st.pos - 1
    ensures t.PauseAtEnd? || t.PauseAtStart? ==> r.display == st.display && r.isDeleting == t.PauseAtEnd?
    ensures t.PauseAtStart? ==> r.pos == 1
  {
    match t
    case TypeTick => st.(display := SlicePrefix(text, st.pos), pos := st.pos + 1)
    case PauseAtEnd => st.(isDeleting := true, pos := st.pos - 1)
    case DeleteTick => st.(display := SlicePrefix(text, st.pos), pos := st.pos - 1)
    case PauseAtStart => st.(isDeleting := false, pos := 1)
  }

  /**
   * One timer firing: the pending timer's callback runs, giving the next
   * state and the delay that elapsed; `None` when no timer is pending.
   */
  function Step(st: Typing, c: Config): (r: Option<(Typing, nat)>)
    ensures r.None? <==> Scheduled(st, |c.text|).None?
  {
    match Scheduled(st, |c.text|)
    case None => None
    case Some(t) => Some((Apply(t, st, c.text), Delay(t, c)))
  }

  /** The state after `n` timer firings (or fewer, if the timers stop). */
  function Run(st: Typing, c: Config, n: nat): Typing
    decreases n
  {
    if n == 0 then st
    else match Step(st, c)
      case None => st
      case Some((next, _)) => Run(next, c, n - 1)
  }

  /** The time those `n` firings take. */
  function Elapsed(st: Typing, c: Config, n: nat): nat
    decreases n
  {
    if n == 0 then 0
    else match Step(st, c)
      case None => 0
      case Some((next, d)) => d + Elapsed(next, c, n - 1)
  }

  /**
   * The states the typewriter can be in: `display` is a prefix of the text.
   * For a non-empty text `pos` stays within `[0, |text|]`, is below the end
   * while deleting, and `display` is strictly shorter than the text; for the
   * empty text `pos` is -1 while deleting and 0 or 1 otherwise.
   */
  ghost predicate Inv(st: Typing, text: string) {
    && st.display <= text
    && (text != [] ==>
          && 0 <= st.pos <= |text|
          && (st.isDeleting ==> st.pos < |text|)
          && |st.display| < |text|)
    && (text == [] ==>
          && (st.isDeleting ==> st.pos == -1)
          && (!st.isDeleting ==> st.pos == 0 || st.pos == 1))
  }

  /** Every timer firing keeps the invariant. */
  lemma StepPreservesInv(st: Typing, c: Config)
    requires Inv(st, c.text)
    ensures Step(st, c).Some? ==> Inv(Step(st, c).value.0, c.text)
  {
  }

  /** Any number of firings keeps the invariant. */
  lemma {:induction false} RunPreservesInv(st: Typing, c: Config, n: nat)
    requires Inv(st, c.text)
    ensures Inv(Run(st, c, n), c.text)
    decreases n
  {
    if n > 0 && Step(st, c).Some? {
      StepPreservesInv(st, c);
      RunPreservesInv(Step(st, c).value.0, c, n - 1);
    }
  }

  /**
   * Whatever the number of firings since mount, `display` is a prefix of the
   * text and, for a non-empty text, `pos` is within `[0, |text|]` and
   * `display` never shows the whole text.
   */
  lemma TypingBounds(c: Config, n: nat)
    ensures Run(Start, c, n).display <= c.text
    ensures c.text != [] ==> 0 <= Run(Start, c, n).pos <= |c.text|
    ensures c.text != [] ==> Run(Start, c, n).display != c.text
  {
    RunPreservesInv(Start, c, 0);
    RunPreservesInv(Start, c, n);
  }

  /** For a non-empty text some timer is always pending: the animation never stops. */
  lemma NeverHalts(st: Typing, c: Config)
    requires c.text != [] && Inv(st, c.text)
    ensures Step(st, c).Some?
  {
  }

  /** The state the empty text ends in: no timer is ever set again. */
  const Halted := Typing("", 1, false)

  /**
   * For the empty text the typewriter pauses, steps `pos` to -1, pauses
   * again, sets `pos` to 1 and then stops for good.
   */
  lemma {:induction false} EmptyTextHalts(c: Config, n: nat)
    requires c.text == []
    ensures Step(Halted, c) == None
    ensures n >= 2 ==> Run(Start, c, n) == Halted
  {
    if n >= 2 {
      var back := Typing("", -1, true);
      assert Step(Start, c) == Some((back, c.pause));
      assert Step(back, c) == Some((Halted, RestartDelay));
      assert Run(Halted, c, n - 2) == Halted;
      assert Run(back, c, n - 1) == Run(Halted, c, n - 2);
    }
  }

  /** Running `a` firings and then `b` more is running `a + b`. */
  lemma {:induction false} RunAdd(st: Typing, c: Config, a: nat, b: nat)
    ensures Run(st, c, a + b) == Run(Run(st, c, a), c, b)
    ensures Elapsed(st, c, a + b) == Elapsed(st, c, a) + Elapsed(Run(st, c, a), c, b)
    decreases a
  {
    if a > 0 && Step(st, c).Some? {
      RunAdd(Step(st, c).value.0, c, a - 1, b);
    } else if a > 0 {
      assert Run(st, c, a) == st;
      if b > 0 {
        assert Run(st, c, b) == st;
      }
    }
  }

  /** Typing from `pos` up to the end of the text: one tick per character. */
  lemma {:induction false} TypePhase(st: Typing, c: Config)
    requires !st.isDeleting && 0 <= st.pos < |c.text|
    ensures Run(st, c, |c.text| - st.pos) == Typing(c.text[..|c.text| - 1], |c.text|, false)
    ensures Elapsed(st, c, |c.text| - st.pos) == (|c.text| - st.pos) * c.typeSpeed
    decreases |c.text| - st.pos
  {
    var next := Typing(c.text[..st.pos], st.pos + 1, false);
    assert Step(st, c) == Some((next, c.typeSpeed));
    if st.pos + 1 < |c.text| {
      TypePhase(next, c);
    }
  }

  /** Deleting from `pos` down to zero: one tick per position, the first character stays. */
  lemma {:induction false} DeletePhase(st: Typing, c: Config)
    requires st.isDeleting && 1 <= st.pos < |c.text|
    ensures Run(st, c, st.pos) == Typing(c.text[..1], 0, true)
    ensures Elapsed(st, c, st.pos) == st.pos * c.deleteSpeed
    decreases st.pos
  {
    var next := Typing(c.text[..st.pos], st.pos - 1, true);
    assert Step(st, c) == Some((next, c.deleteSpeed));
    if st.pos > 1 {
      DeletePhase(next, c);
    }
  }

  /** The state the animation returns to once per cycle: one character shown. */
  function Loop(text: string): Typing
    requires text != []
  {
    Typing(text[..1], 1, false)
  }

  /**
   * For a text of at least two characters the animation comes back to `Loop`
   * every `2 * |text|` firings: `|text| - 1` typing ticks, the pause at the
   * end, `|text| - 1` deleting ticks and the 250 ms restart delay. The whole
   * text is never shown and the first character is never deleted.
   */
  lemma {:induction false} CyclePeriod(c: Config)
    requires |c.text| >= 2
    ensures Run(Loop(c.text), c, 2 * |c.text|) == Loop(c.text)
    ensures Elapsed(Loop(c.text), c, 2 * |c.text|) ==
              (|c.text| - 1) * (c.typeSpeed + c.deleteSpeed) + c.pause + RestartDelay
  {
    var len := |c.text|;
    var loop := Loop(c.text);
    var back := Typing(c.text[..len - 1], len - 1, true);
    var typed := Elapsed(loop, c, len);
    var deleted := Elapsed(back, c, len);
    assert Run(loop, c, len) == back && typed == (len - 1) * c.typeSpeed + c.pause by {
      TypeToBack(loop, c);
    }
    assert Run(back, c, len) == loop && deleted == (len - 1) * c.deleteSpeed + RestartDelay by {
      DeleteToLoop(back, c);
    }
    assert Run(loop, c, 2 * len) == loop && Elapsed(loop, c, 2 * len) == typed + deleted by {
      RunAdd(loop, c, len, len);
      assert 2 * len == len + len;
    }
    CycleTime(len - 1, c.typeSpeed, c.deleteSpeed, c.pause);
  }

  /** The time of one cycle, regrouped: `k` ticks of each kind plus the two pauses. */
  lemma CycleTime(k: int, typeSpeed: int, deleteSpeed: int, pause: int)
    ensures (k * typeSpeed + pause) + (k * deleteSpeed + RestartDelay) ==
              k * (typeSpeed + deleteSpeed) + pause + RestartDelay
  {
    assert k * typeSpeed + k * deleteSpeed == k * (typeSpeed + deleteSpeed);
  }

  /** Typing from `pos` to the end, then the pause that starts deleting. */
  lemma {:induction false} TypeToBack(st: Typing, c: Config)
    requires !st.isDeleting && 0 <= st.pos < |c.text|
    ensures Run(st, c, |c.text| - st.pos + 1) == Typing(c.text[..|c.text| - 1], |c.text| - 1, true)
    ensures Elapsed(st, c, |c.text| - st.pos + 1) == (|c.text| - st.pos) * c.typeSpeed + c.pause
  {
    var len := |c.text|;
    var top := Typing(c.text[..len - 1], len, false);
    var back := Typing(c.text[..len - 1], len - 1, true);
    TypePhase(st, c);
    assert Step(top, c) == Some((back, c.pause));
    assert Run(top, c, 1) == back;
    assert Elapsed(top, c, 1) == c.pause;
    RunAdd(st, c, len - st.pos, 1);
  }

  /** Deleting from `pos` down to zero, then the restart delay back to `Loop`. */
  lemma {:induction false} DeleteToLoop(st: Typing, c: Config)
    requires st.isDeleting && 1 <= st.pos < |c.text|
    ensures Run(st, c, st.pos + 1) == Loop(c.text)
    ensures Elapsed(st, c, st.pos + 1) == st.pos * c.deleteSpeed + RestartDelay
  {
    var bottom := Typing(c.text[..1], 0, true);
    DeletePhase(st, c);
    assert Step(bottom, c) == Some((Loop(c.text), RestartDelay));
    assert Run(bottom, c, 1) == Loop(c.text);
    assert Elapsed(bottom, c, 1) == RestartDelay;
    RunAdd(st, c, st.pos, 1);
  }

  /**
   * From mount, a text of at least two characters reaches `Loop` after
   * `2 * |text| + 1` firings: the first tick writes the empty prefix, so the
   * first cycle is one firing longer.
   */
  lemma {:induction false} ReachesLoop(c: Config)
    requires |c.text| >= 2
    ensures Run(Start, c, 2 * |c.text| + 1) == Loop(c.text)
  {
    var len := |c.text|;
    var first := Typing("", 1, false);
    var back := Typing(c.text[..len - 1], len - 1, true);
    assert Step(Start, c) == Some((first, c.typeSpeed));
    assert Run(Start, c, 1) == first;
    TypeToBack(first, c);
    DeleteToLoop(back, c);
    RunAdd(Start, c, 1, len);
    RunAdd(Start, c, len + 1, len);
  }

  // ---------------------------------------------------------------------------
  // Typewriter: the component
  // ---------------------------------------------------------------------------

  /**
   * One mounted `TypingText`: its state, the `mounted` ref, and the timer
   * the effect has set and not yet cleared.
   */
  class TypingText {
    const config: Config
    var display: string
    var pos: int
    var isDeleting: bool
    var mounted: bool
    var pending: Option<Timer>

    function State(): Typing
      reads this
    {
      Typing(display, pos, isDeleting)
    }

    /**
     * The state is reachable, and while mounted the pending timer is the one
     * the effect sets for the current state; after unmount none is pending.
     */
    ghost predicate Valid()
      reads this
    {
      && Inv(State(), config.text)
      && pending == (if mounted then Scheduled(State(), |config.text|) else None)
    }

    /** Mounting: the initial state and the effect's first timer. */
    constructor (c: Config)
      ensures config == c && State() == Start && mounted
      ensures Valid()
    {
      config := c;
      display := "";
      pos := 0;
      isDeleting := false;
      mounted := true;
      pending := Scheduled(Start, |c.text|);
    }

    /**
     * The pending timer fires: its callback updates the state and the effect
     * runs again for the new state, setting the next timer. `elapsed` is the
     * delay of the timer that fired, `None` when none did.
     */
    method Fire() returns (elapsed: Option<nat>)
      requires Valid()
      modifies this
      ensures Valid()
      ensures mounted == old(mounted)
      ensures !old(mounted) ==> State() == old(State()) && elapsed == None
      ensures old(mounted) && Step(old(State()), config).None? ==>
                State() == old(State()) && elapsed == None
      ensures old(mounted) && Step(old(State()), config).Some? ==>
                && State() == Step(old(State()), config).value.0
                && elapsed == Some(Step(old(State()), config).value.1)
    {
      if !mounted {
        elapsed := None;
        return;
      }
      match pending {
        case None =>
          elapsed := None;
        case Some(t) =>
          match t {
            case TypeTick =>
              display := SlicePrefix(config.text, pos);
              pos := pos + 1;
            case PauseAtEnd =>
              isDeleting := true;
              pos := pos - 1;
            case DeleteTick =>
              display := SlicePrefix(config.text, pos);
              pos := pos - 1;
            case PauseAtStart =>
              isDeleting := false;
              pos := 1;
          }
          elapsed := Some(Delay(t, config));
          StepPreservesInv(old(State()), config);
          // `pos` or `isDeleting` changed, so the effect runs again.
          pending := Scheduled(State(), |config.text|);
      }
    }

    /** Unmounting: the ref is cleared and the effect's cleanup clears the timer. */
    method Unmount()
      requires Valid()
      modifies this
      ensures Valid()
      ensures !mounted && pending == None && State() == old(State())
    {
      mounted := false;
      pending := None;
    }
  }

  // ---------------------------------------------------------------------------
  // The orbit panel's `measure`
  // ---------------------------------------------------------------------------

  /** The measured wrapper element: its client and offset widths in pixels. */
  datatype Box = Box(clientWidth: nat, offsetWidth: nat)

  /** The orbit's size, radius and rotation period. */
  datatype Orbit = Orbit(size: int, radius: int, speed: nat)

  /** The values before the first measurement. */
  const InitialOrbit := Orbit(260, 96, 16)

  function Clamp(lo: int, hi: int, x: int): int {
    if x < lo then lo else if x > hi then hi else x
  }

  /** `el.clientWidth || el.offsetWidth || 0`: the first non-zero width, else 0. */
  function Width(el: Box): (w: nat)
    ensures el.clientWidth != 0 ==> w == el.clientWidth
    ensures el.clientWidth == 0 ==> w == el.offsetWidth
    ensures w == 0 <==> el.clientWidth == 0 && el.offsetWidth == 0
  {
    if el.clientWidth != 0 then el.clientWidth else el.offsetWidth
  }

  /** `Math.round(w * 0.9)`, done on integers: the nearest integer, a half rounded up. */
  function NinetyPercent(w: nat): (r: nat)
    ensures 9 * w - 5 < 10 * r <= 9 * w + 5
  {
    (9 * w + 5) / 10
  }

  /**
   * `measure`: nothing changes when the element is missing; otherwise the
   * size is 90% of the width clamped to [140, 520], the radius is 36% of the
   * size clamped to [44, 260] and rounded, and the period is 12 below a
   * width of 420 and 16 from there on.
   */
  function Measure(prev: Orbit, el: Option<Box>): (o: Orbit)
    ensures el.None? ==> o == prev
    ensures el.Some? ==> 140 <= o.size <= 520 && 44 <= o.radius <= 260
    ensures el.Some? ==> (o.speed == 12 <==> Width(el.value) < 420) && (o.speed == 12 || o.speed == 16)
  {
    match el
    case None => prev
    case Some(box) =>
      var w := Width(box);
      var size := Clamp(140, 520, NinetyPercent(w));
      // the radius in hundredths of a pixel, clamped, then rounded
      var radius := (Clamp(4400, 26000, 36 * size) + 50) / 100;
      Orbit(size, radius, if w < 420 then 12 else 16)
  }

  /**
   * The radius clamp never takes effect: every size in range gives a radius
   * of 36% of it, between 50 and 187.
   */
  lemma RadiusClampNeverBinds(prev: Orbit, box: Box)
    ensures Measure(prev, Some(box)).radius == (36 * Measure(prev, Some(box)).size + 50) / 100
    ensures 50 <= Measure(prev, Some(box)).radius <= 187
  {
  }

  /** A wider element never gives a smaller orbit. */
  lemma MeasureMonotone(prev: Orbit, a: Box, b: Box)
    requires Width(a) <= Width(b)
    ensures Measure(prev, Some(a)).size <= Measure(prev, Some(b)).size
    ensures Measure(prev, Some(a)).radius <= Measure(prev, Some(b)).radius
    ensures Measure(prev, Some(a)).speed <= Measure(prev, Some(b)).speed
  {
  }
}
