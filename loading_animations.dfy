/**
 * Loading animations: the typing effect on the hero subtitle and the
 * experience counters that count up once they come into view. Each interval
 * callback is one tick of a small state; the methods run the interval until
 * it clears itself.
 */
module LoadingAnimations {
  import opened Dom
  import opened NumberText
  import opened Wrappers

  // ----- typing effect -----

  /** `text.charAt(i)`: the character at `i` as a string, empty past the end. */
  function CharAt(text: string, i: nat): string
  {
    if i < |text| then [text[i]] else ""
  }

  /** The typing interval's state: the element's text, the counter `i`, and whether the interval runs. */
  datatype Typing = Typing(shown: string, i: nat, running: bool)

  /** One interval callback: append `text.charAt(i)`, advance `i`, clear the interval once `i >= text.length`. */
  function TypingTick(text: string, s: Typing): (r: Typing)
    ensures r.i == s.i + 1 && |s.shown| <= |r.shown| <= |s.shown| + 1 && r.shown[..|s.shown|] == s.shown
    ensures s.i < |text| ==> r.shown == s.shown + [text[s.i]]
    ensures r.running <==> r.i < |text|
  {
    var i := s.i + 1;
    Typing(s.shown + CharAt(text, s.i), i, !(i >= |text|))
  }

  /** The state after `k` ticks, starting from an element showing `start`. */
  function TypingAfter(text: string, start: string, k: nat): Typing
  {
    if k == 0 then Typing(start, 0, true) else TypingTick(text, TypingAfter(text, start, k - 1))
  }

  /** How many times the interval fires: once per character, and once for an empty text. */
  function TypingTicks(text: string): nat
  {
    if |text| == 0 then 1 else |text|
  }

  function Min(a: nat, b: nat): nat
  {
    if a <= b then a else b
  }

  /** After `k` ticks the element shows the first min(k, |text|) characters, and the interval runs until the last tick. */
  lemma {:induction false} TypingProgress(text: string, start: string, k: nat)
    requires k <= TypingTicks(text)
    ensures TypingAfter(text, start, k) == Typing(start + text[..Min(k, |text|)], k, k < TypingTicks(text))
  {
    if k > 0 {
      TypingProgress(text, start, k - 1);
      if k - 1 < |text| {
        assert text[..k] == text[..k - 1] + [text[k - 1]];
      }
    }
  }

  /** `typeText`: run the interval to its end. */
  method TypeText(element: TextElement, text: string) returns (ticks: nat)
    modifies element
    ensures ticks == TypingTicks(text)
    ensures element.textContent == old(element.textContent) + text
  {
    ghost var start := element.textContent;
    var i := 0;
    var running := true;
    ticks := 0;
    while running
      invariant ticks <= TypingTicks(text)
      invariant TypingAfter(text, start, ticks) == Typing(element.textContent, i, running)
      decreases TypingTicks(text) - ticks
    {
      TypingProgress(text, start, ticks);
      element.textContent := element.textContent + CharAt(text, i);
      i := i + 1;
      ticks := ticks + 1;
      if i >= |text| {
        running := false;
      }
    }
    TypingProgress(text, start, ticks);
    assert text[..|text|] == text;
  }

  /** `setupTypingEffect`: clear the subtitle, then type its own text back into it. */
  method SetupTypingEffect(subtitle: TextElement?)
    modifies subtitle
    ensures subtitle != null ==> subtitle.textContent == old(subtitle.textContent)
  {
    if subtitle != null {
      var text := subtitle.textContent;
      subtitle.textContent := "";
      var _ := TypeText(subtitle, text);
    }
  }

  // ----- experience counters -----

  /** Ticks a positive counter takes: each adds a fiftieth of the target. */
  const CounterSteps: nat := 50

  /** A counter's animation state: `current`, and whether its interval runs. */
  datatype Counter = Counter(current: real, running: bool)

  /** One interval callback: add target/50, and on reaching the target clamp to it and clear the interval. */
  function CounterTick(target: int, c: Counter): (r: Counter)
    ensures r.running ==> r.current < target as real
    ensures !r.running <==> c.current + Increment(target) >= target as real
    ensures !r.running ==> r.current == target as real
  {
    var current := c.current + Increment(target);
    if current >= target as real then Counter(target as real, false) else Counter(current, true)
  }

  function CounterAfter(target: int, k: nat): Counter
  {
    if k == 0 then Counter(0.0, true) else CounterTick(target, CounterAfter(target, k - 1))
  }

  /** How many times the interval fires: 50 for a positive target, once otherwise. */
  function CounterTicks(target: int): nat
  {
    if target > 0 then CounterSteps else 1
  }

  /** What the counter element displays for a value: its floor followed by `+`. */
  function CounterText(current: real): string
  {
    IntText(current.Floor) + "+"
  }

  /** The amount each tick adds. */
  function Increment(target: int): real
  {
    target as real / CounterSteps as real
  }

  lemma ScaleStep(k: nat, inc: real)
    ensures (k + 1) as real * inc == k as real * inc + inc
  {
  }

  lemma ScaleMonotone(p: nat, q: nat, inc: real)
    requires p <= q && inc >= 0.0
    ensures p as real * inc <= q as real * inc
  {
    assert q as real * inc - p as real * inc == (q - p) as real * inc;
  }

  /** Before the 50th tick a positive target is not yet reached. */
  lemma ScaleBelow(k: nat, target: int)
    requires k < CounterSteps && target > 0
    ensures k as real * Increment(target) < target as real
  {
    var inc := Increment(target);
    assert inc > 0.0;
    assert CounterSteps as real * inc - k as real * inc == (CounterSteps - k) as real * inc;
    assert (CounterSteps - k) as real * inc > 0.0;
    assert CounterSteps as real * inc == target as real;
  }

  /** One tick from a running value `v`: clamp to the target when `v` plus the increment reaches it. */
  lemma TickFrom(target: int, k: nat, v: real)
    requires CounterAfter(target, k) == Counter(v, true)
    ensures CounterAfter(target, k + 1) ==
            if v + Increment(target) >= target as real then Counter(target as real, false) else Counter(v + Increment(target), true)
  {
  }

  /** The tick that follows `k - 1` running ticks of a positive counter. */
  lemma PositiveStep(target: int, k: nat)
    requires target > 0 && 0 < k <= CounterSteps
    requires CounterAfter(target, k - 1) == Counter((k - 1) as real * Increment(target), true)
    ensures CounterAfter(target, k) ==
            if k < CounterSteps then Counter(k as real * Increment(target), true) else Counter(target as real, false)
  {
    var inc := Increment(target);
    var before := (k - 1) as real * inc;
    TickFrom(target, k - 1, before);
    ScaleStep(k - 1, inc);
    if k < CounterSteps {
      ScaleBelow(k, target);
    } else {
      assert CounterSteps as real * inc == target as real;
    }
  }

  /** For a positive target the counter climbs by target/50 for 49 ticks and lands on the target at the 50th; otherwise it lands at once. */
  lemma {:induction false} CounterProgress(target: int, k: nat)
    requires k <= CounterTicks(target)
    ensures CounterAfter(target, k) ==
            if k < CounterTicks(target) then Counter(k as real * Increment(target), true)
            else Counter(target as real, false)
  {
    if k > 0 {
      CounterProgress(target, k - 1);
      if target > 0 {
        PositiveStep(target, k);
      } else {
        TickFrom(target, 0, 0.0);
        assert 0.0 + Increment(target) >= target as real;
      }
    }
  }

  /** From the first tick on, the displayed value never goes past the target and never goes down. */
  lemma CounterBounded(target: int, p: nat, q: nat)
    requires 0 < p <= q <= CounterTicks(target)
    ensures CounterAfter(target, q).current <= target as real
    ensures CounterAfter(target, p).current.Floor <= CounterAfter(target, q).current.Floor <= target
  {
    CounterProgress(target, p);
    CounterProgress(target, q);
    var inc := Increment(target);
    if target > 0 {
      assert CounterSteps as real * inc == target as real;
      ScaleMonotone(p, q, inc);
      ScaleMonotone(q, CounterSteps, inc);
    }
  }

  /** The counter's interval, run to its end; `shown` is every value it displayed. */
  method AnimateCounter(counter: TextElement, target: int) returns (ticks: nat, shown: seq<int>)
    modifies counter
    ensures ticks == CounterTicks(target) && |shown| == ticks
    ensures forall p, q :: 0 <= p <= q < |shown| ==> shown[p] <= shown[q] <= target
    ensures shown[ticks - 1] == target
    ensures counter.textContent == IntText(target) + "+"
  {
    var current: real := 0.0;
    var running := true;
    ticks := 0;
    shown := [];
    while running
      invariant ticks <= CounterTicks(target)
      invariant CounterAfter(target, ticks) == Counter(current, running)
      invariant |shown| == ticks
      invariant forall p :: 0 <= p < ticks ==> shown[p] == CounterAfter(target, p + 1).current.Floor
      invariant ticks > 0 ==> counter.textContent == CounterText(current)
      decreases CounterTicks(target) - ticks
    {
      CounterProgress(target, ticks);
      current := current + Increment(target);
      if current >= target as real {
        current := target as real;
        running := false;
      }
      counter.textContent := CounterText(current);
      shown := shown + [current.Floor];
      ticks := ticks + 1;
    }
    CounterProgress(target, ticks);
    forall p, q | 0 <= p <= q < |shown|
      ensures shown[p] <= shown[q] <= target
    {
      CounterBounded(target, p + 1, q + 1);
    }
  }

  /**
   * `setupCounterAnimations` for one counter that comes into view: read the
   * target from its text, then count up to it. The number it shows in the
   * end reads back as the number it showed at first.
   */
  method RunCounter(counter: TextElement) returns (target: int)
    requires ParseInt(counter.textContent).Some?
    modifies counter
    ensures Some(target) == old(ParseInt(counter.textContent))
    ensures counter.textContent == IntText(target) + "+"
    ensures ParseInt(counter.textContent) == Some(target)
  {
    target := ParseInt(counter.textContent).value;
    var _, _ := AnimateCounter(counter, target);
    ParseIntText(target, "+");
  }
}
