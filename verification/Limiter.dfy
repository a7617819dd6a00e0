/** The fixed-window rate limiter: its windows, the bound that holds in every interval, and the independence of keys. */
module Limiter {
  import opened Octets

  const WINDOW := 60_000

  datatype Window = Window(count: int, resetAt: int)

  /** What one request does to the window of its key. */
  function Charge(w: Option<Window>, now: int, max: int): (Option<Window>, bool) {
    if max <= 0 then (w, true)
    else if w.None? || now >= w.value.resetAt then (Some(Window(1, now + WINDOW)), true)
    else if w.value.count >= max then (w, false)
    else (Some(w.value.(count := w.value.count + 1)), true)
  }

  function Find(buckets: map<string, Window>, key: string): Option<Window> {
    if key in buckets then Some(buckets[key]) else None
  }

  class RateLimiter {
    var buckets: map<string, Window>

    constructor ()
      ensures buckets == map[]
    {
      buckets := map[];
    }

    /** The window of the key is charged; every other key keeps its window. */
    method Allow(key: string, now: int, max: int) returns (ok: bool)
      modifies this
      ensures (Find(buckets, key), ok) == Charge(Find(old(buckets), key), now, max)
      ensures forall k :: k != key ==> Find(buckets, k) == Find(old(buckets), k)
    {
      if max <= 0 {
        return true;
      }
      if key !in buckets || now >= buckets[key].resetAt {
        buckets := buckets[key := Window(1, now + WINDOW)];
        return true;
      }
      var w := buckets[key];
      if w.count >= max {
        return false;
      }
      buckets := buckets[key := w.(count := w.count + 1)];
      return true;
    }
  }

  // ---- runs ----

  datatype Hit = Hit(key: string, now: int, max: int)

  function Apply(before: map<string, Window>, h: Hit): map<string, Window> {
    var w := Charge(Find(before, h.key), h.now, h.max).0;
    if w.Some? then before[h.key := w.value] else before
  }

  /** A hit changes the window of its key by that window alone, and no other. */
  lemma ApplyLocal(a: map<string, Window>, b: map<string, Window>, h: Hit, key: string)
    ensures h.key != key ==> Find(Apply(a, h), key) == Find(a, key)
    ensures h.key == key && Find(a, key) == Find(b, key) ==> Find(Apply(a, h), key) == Find(Apply(b, h), key)
  {
  }

  /** The limiter as a whole: windows after a run, and the verdicts along it. */
  function Windows(hits: seq<Hit>): map<string, Window> {
    if hits == [] then map[]
    else
      var n := |hits| - 1;
      Apply(Windows(hits[..n]), hits[n])
  }

  function Verdict(hits: seq<Hit>, i: nat): bool
    requires i < |hits|
  {
    Charge(Find(Windows(hits[..i]), hits[i].key), hits[i].now, hits[i].max).1
  }

  /** The hits of one key. */
  function Of(hits: seq<Hit>, key: string): seq<Hit> {
    if hits == [] then []
    else
      var n := |hits| - 1;
      if hits[n].key == key then Of(hits[..n], key) + [hits[n]] else Of(hits[..n], key)
  }

  lemma WindowsSnoc(hits: seq<Hit>, h: Hit)
    ensures Windows(hits + [h]) == Apply(Windows(hits), h)
  {
    assert (hits + [h])[..|hits|] == hits;
  }

  /** The windows of different keys never touch: a key sees only its own hits. */
  lemma {:induction false} KeysIndependent(hits: seq<Hit>, key: string)
    ensures Find(Windows(hits), key) == Find(Windows(Of(hits, key)), key)
  {
    if hits != [] {
      var n := |hits| - 1;
      KeysIndependent(hits[..n], key);
      ApplyLocal(Windows(hits[..n]), Windows(Of(hits[..n], key)), hits[n], key);
      if hits[n].key == key {
        WindowsSnoc(Of(hits[..n], key), hits[n]);
      }
    }
  }

  lemma VerdictIndependent(hits: seq<Hit>, i: nat)
    requires i < |hits|
    ensures var own := Of(hits[..i], hits[i].key) + [hits[i]];
            Verdict(hits, i) == Verdict(own, |own| - 1)
  {
    var own := Of(hits[..i], hits[i].key) + [hits[i]];
    KeysIndependent(hits[..i], hits[i].key);
    assert own[..|own| - 1] == Of(hits[..i], hits[i].key);
  }

  // ---- one key with a fixed positive limit ----

  /** The times at which a key is let through, given the times at which it knocks. */
  function State(times: seq<int>, max: int): (Option<Window>, seq<int>) {
    if times == [] then (None, [])
    else
      var n := |times| - 1;
      var (w, allowed) := State(times[..n], max);
      var (w', ok) := Charge(w, times[n], max);
      (w', if ok then allowed + [times[n]] else allowed)
  }

  predicate Nondecreasing(times: seq<int>) { forall i, j :: 0 <= i <= j < |times| ==> times[i] <= times[j] }

  /** How many of `times` lie in [from, to). */
  function CountIn(times: seq<int>, from: int, to: int): nat {
    if times == [] then 0
    else CountIn(times[..|times| - 1], from, to) + if from <= times[|times| - 1] < to then 1 else 0
  }

  lemma CountSnoc(times: seq<int>, t: int, from: int, to: int)
    ensures CountIn(times + [t], from, to) == CountIn(times, from, to) + if from <= t < to then 1 else 0
  {
    assert (times + [t])[..|times|] == times;
  }

  lemma {:induction false} CountSplit(times: seq<int>, from: int, mid: int, to: int)
    requires from <= mid <= to
    ensures CountIn(times, from, to) == CountIn(times, from, mid) + CountIn(times, mid, to)
  {
    if times != [] {
      CountSplit(times[..|times| - 1], from, mid, to);
    }
  }

  lemma {:induction false} CountNarrow(times: seq<int>, from: int, to: int, from': int, to': int)
    requires from' <= from && to <= to'
    ensures CountIn(times, from, to) <= CountIn(times, from', to')
  {
    if times != [] {
      CountNarrow(times[..|times| - 1], from, to, from', to');
    }
  }

  predicate AllBelow(times: seq<int>, cap: int) { forall i :: 0 <= i < |times| ==> times[i] < cap }

  /** Nothing is counted beyond a bound of all elements. */
  lemma {:induction false} CountCap(times: seq<int>, from: int, to: int, cap: int)
    requires AllBelow(times, cap)
    ensures CountIn(times, from, to) <= CountIn(times, from, cap)
    ensures cap <= from ==> CountIn(times, from, to) == 0
  {
    if times != [] {
      CountCap(times[..|times| - 1], from, to, cap);
    }
  }

  /** How many were let through in the window's length from `a` on. */
  function InInterval(allowed: seq<int>, a: int): nat { CountIn(allowed, a, a + WINDOW) }

  /** The current window starts with a request let through, its count is the number let through since, the length before
      it saw at most `max - 1`, and no interval of that length anywhere more than `2 * max - 1`. */
  ghost predicate Bounded(w: Option<Window>, allowed: seq<int>, max: int, clock: int) {
    && (w.None? ==> allowed == [])
    && (w.Some? ==>
          var start := w.value.resetAt - WINDOW;
          && start <= clock && AllBelow(allowed, w.value.resetAt)
          && CountIn(allowed, start, start + 1) >= 1
          && w.value.count == CountIn(allowed, start, w.value.resetAt) <= max
          && (forall a :: start - WINDOW < a ==> CountIn(allowed, a, start) <= max - 1))
    && (forall a :: InInterval(allowed, a) <= 2 * max - 1)
  }

  lemma NewWindow(w: Option<Window>, allowed: seq<int>, max: int, clock: int, now: int)
    requires Bounded(w, allowed, max, clock) && clock <= now && max > 0
    requires w.Some? ==> w.value.resetAt <= now
    ensures Bounded(Some(Window(1, now + WINDOW)), allowed + [now], max, now)
  {
    var more := allowed + [now];
    assert AllBelow(allowed, now);
    forall a | now - WINDOW < a
      ensures CountIn(allowed, a, now) <= max - 1
    {
      if w.Some? {
        var start := w.value.resetAt - WINDOW;
        CountCap(allowed, a, now, w.value.resetAt);
        CountNarrow(allowed, a, w.value.resetAt, start + 1, w.value.resetAt);
        CountSplit(allowed, start, start + 1, w.value.resetAt);
      }
    }
    forall from, to
      ensures CountIn(more, from, to) == CountIn(allowed, from, to) + if from <= now < to then 1 else 0
    {
      CountSnoc(allowed, now, from, to);
    }
    CountCap(allowed, now, now + 1, now);
    CountCap(allowed, now, now + WINDOW, now);
    forall a
      ensures InInterval(more, a) <= 2 * max - 1
    {
      assert InInterval(allowed, a) <= 2 * max - 1;
      if a <= now < a + WINDOW {
        CountCap(allowed, a, a + WINDOW, now);
      }
    }
  }

  lemma SameWindow(w: Window, allowed: seq<int>, max: int, clock: int, now: int)
    requires Bounded(Some(w), allowed, max, clock) && clock <= now < w.resetAt && w.count < max
    ensures Bounded(Some(w.(count := w.count + 1)), allowed + [now], max, now)
  {
    var more, start := allowed + [now], w.resetAt - WINDOW;
    forall from, to
      ensures CountIn(more, from, to) == CountIn(allowed, from, to) + if from <= now < to then 1 else 0
    {
      CountSnoc(allowed, now, from, to);
    }
    assert AllBelow(more, w.resetAt);
    forall a
      ensures InInterval(more, a) <= 2 * max - 1
    {
      assert InInterval(allowed, a) <= 2 * max - 1;
      if start <= a {
        CountCap(more, a, a + WINDOW, w.resetAt);
        CountNarrow(more, a, w.resetAt, start, w.resetAt);
      } else if now < a + WINDOW {
        CountSplit(more, a, start, a + WINDOW);
        CountCap(more, start, a + WINDOW, w.resetAt);
        assert CountIn(allowed, a, start) <= max - 1;
      }
    }
  }

  lemma {:induction false} StateBounded(times: seq<int>, max: int)
    requires Nondecreasing(times) && max > 0
    ensures times != [] ==> Bounded(State(times, max).0, State(times, max).1, max, times[|times| - 1])
    ensures times == [] ==> State(times, max) == (None, [])
  {
    if times != [] {
      var n, now := |times| - 1, times[|times| - 1];
      var clock := if n == 0 then now else times[n - 1];
      StateBounded(times[..n], max);
      var (w, allowed) := State(times[..n], max);
      assert n == 0 ==> times[..n] == [];
      assert Bounded(w, allowed, max, clock);
      KnockBounded(w, allowed, max, clock, now);
    }
  }

  lemma KnockBounded(w: Option<Window>, allowed: seq<int>, max: int, clock: int, now: int)
    requires Bounded(w, allowed, max, clock) && clock <= now && max > 0
    ensures var (w', ok) := Charge(w, now, max); Bounded(w', if ok then allowed + [now] else allowed, max, now)
  {
    if w.None? || now >= w.value.resetAt {
      NewWindow(w, allowed, max, clock, now);
    } else if w.value.count < max {
      SameWindow(w.value, allowed, max, clock, now);
    }
  }

  /** In every interval of 60 seconds, wherever it starts, at most `2 * max - 1` requests of a key are let through. */
  lemma RateBound(times: seq<int>, max: int, a: int)
    requires Nondecreasing(times) && max > 0
    ensures CountIn(State(times, max).1, a, a + WINDOW) <= 2 * max - 1
  {
    StateBounded(times, max);
    if times != [] {
      assert InInterval(State(times, max).1, a) <= 2 * max - 1;
    }
  }

  /** A refusal means that the current window, which contains the present, has let exactly `max` through. */
  lemma RefusalMeansFull(times: seq<int>, now: int, max: int)
    requires Nondecreasing(times + [now]) && max > 0
    requires !Charge(State(times, max).0, now, max).1
    ensures var (w, allowed) := State(times, max);
            && w.Some? && w.value.resetAt - WINDOW <= now < w.value.resetAt
            && CountIn(allowed, w.value.resetAt - WINDOW, w.value.resetAt) == max
  {
    assert Nondecreasing(times) by {
      forall i, j | 0 <= i <= j < |times|
        ensures times[i] <= times[j]
      {
        assert (times + [now])[i] == times[i] && (times + [now])[j] == times[j];
      }
    }
    StateBounded(times, max);
    if times != [] {
      assert (times + [now])[|times| - 1] <= (times + [now])[|times|];
    }
  }

  // ---- the same for a run with many keys ----

  function TimesOf(hits: seq<Hit>, key: string): seq<int> {
    if hits == [] then []
    else
      var n := |hits| - 1;
      if hits[n].key == key then TimesOf(hits[..n], key) + [hits[n].now] else TimesOf(hits[..n], key)
  }

  /** When the limiter let a key through. */
  function LetThrough(hits: seq<Hit>, key: string): seq<int> {
    if hits == [] then []
    else
      var n := |hits| - 1;
      if hits[n].key == key && Verdict(hits, n) then LetThrough(hits[..n], key) + [hits[n].now]
      else LetThrough(hits[..n], key)
  }

  predicate FixedLimit(hits: seq<Hit>, key: string, max: int) { forall h <- hits :: h.key == key ==> h.max == max }

  lemma {:induction false} KeyState(hits: seq<Hit>, key: string, max: int)
    requires FixedLimit(hits, key, max)
    ensures State(TimesOf(hits, key), max) == (Find(Windows(hits), key), LetThrough(hits, key))
  {
    if hits != [] {
      var n := |hits| - 1;
      KeyState(hits[..n], key, max);
      if hits[n].key == key {
        assert hits[n] in hits;
        assert TimesOf(hits, key)[..|TimesOf(hits, key)| - 1] == TimesOf(hits[..n], key);
      }
    }
  }

  predicate Clocked(hits: seq<Hit>) { forall i, j :: 0 <= i <= j < |hits| ==> hits[i].now <= hits[j].now }

  lemma {:induction false} TimesNondecreasing(hits: seq<Hit>, key: string)
    requires Clocked(hits)
    ensures Nondecreasing(TimesOf(hits, key))
    ensures hits != [] ==> forall i :: 0 <= i < |TimesOf(hits, key)| ==> TimesOf(hits, key)[i] <= hits[|hits| - 1].now
  {
    if hits != [] {
      TimesNondecreasing(hits[..|hits| - 1], key);
    }
  }

  /** Over any run of any keys: a key with a fixed positive limit is let through at most `2 * max - 1` times in every
      interval of 60 seconds, and at most `max` times in its current window. */
  lemma LimiterHolds(hits: seq<Hit>, key: string, max: int, a: int)
    requires Clocked(hits) && FixedLimit(hits, key, max) && max > 0
    ensures CountIn(LetThrough(hits, key), a, a + WINDOW) <= 2 * max - 1
    ensures key in Windows(hits) ==>
              var w := Windows(hits)[key];
              w.count == CountIn(LetThrough(hits, key), w.resetAt - WINDOW, w.resetAt) <= max
  {
    TimesNondecreasing(hits, key);
    KeyState(hits, key, max);
    OneKeyHolds(TimesOf(hits, key), max, a, Find(Windows(hits), key), LetThrough(hits, key));
  }

  lemma OneKeyHolds(times: seq<int>, max: int, a: int, w: Option<Window>, allowed: seq<int>)
    requires Nondecreasing(times) && max > 0 && State(times, max) == (w, allowed)
    ensures CountIn(allowed, a, a + WINDOW) <= 2 * max - 1
    ensures w.Some? ==> w.value.count == CountIn(allowed, w.value.resetAt - WINDOW, w.value.resetAt) <= max
  {
    WindowCounts(times, max, w, allowed);
    RateBound(times, max, a);
  }

  /** In a run of many keys, what a key is let through is what it would be let through alone. */
  lemma {:induction false} LetThroughAlone(hits: seq<Hit>, key: string)
    ensures LetThrough(hits, key) == LetThrough(Of(hits, key), key)
  {
    if hits != [] {
      var n := |hits| - 1;
      LetThroughAlone(hits[..n], key);
      if hits[n].key == key {
        VerdictIndependent(hits, n);
        assert Of(hits, key)[..|Of(hits, key)| - 1] == Of(hits[..n], key);
      }
    }
  }

  /** One key: refused exactly when the window contains the present and has let `max` through. */
  lemma RefusedExactly(times: seq<int>, now: int, max: int, w: Option<Window>, allowed: seq<int>)
    requires Nondecreasing(times) && Nondecreasing(times + [now]) && max > 0 && State(times, max) == (w, allowed)
    ensures !Charge(w, now, max).1 <==>
              && w.Some? && w.value.resetAt - WINDOW <= now < w.value.resetAt
              && CountIn(allowed, w.value.resetAt - WINDOW, w.value.resetAt) == max
  {
    WindowCounts(times, max, w, allowed);
    if !Charge(w, now, max).1 {
      RefusalMeansFull(times, now, max);
    }
  }

  /** In a run of many keys a request is refused exactly when the window of its key contains it and has let `max`
      through. */
  lemma RefusalExact(hits: seq<Hit>, i: nat, max: int)
    requires i < |hits| && Clocked(hits) && max > 0 && hits[i].max == max && FixedLimit(hits[..i], hits[i].key, max)
    ensures var key, now := hits[i].key, hits[i].now;
            var w, allowed := Find(Windows(hits[..i]), key), LetThrough(hits[..i], key);
            !Verdict(hits, i) <==>
              && w.Some? && w.value.resetAt - WINDOW <= now < w.value.resetAt
              && CountIn(allowed, w.value.resetAt - WINDOW, w.value.resetAt) == max
  {
    var before, key := hits[..i], hits[i].key;
    TimesNondecreasing(before, key);
    TimesBefore(before, key, hits[i].now);
    KeyState(before, key, max);
    RefusedExactly(TimesOf(before, key), hits[i].now, max, Find(Windows(before), key), LetThrough(before, key));
  }

  lemma TimesBefore(hits: seq<Hit>, key: string, now: int)
    requires Clocked(hits) && forall h <- hits :: h.now <= now
    ensures Nondecreasing(TimesOf(hits, key) + [now])
  {
    TimesNondecreasing(hits, key);
    if hits != [] {
      assert hits[|hits| - 1] in hits;
    }
  }

  lemma WindowCounts(times: seq<int>, max: int, w: Option<Window>, allowed: seq<int>)
    requires Nondecreasing(times) && max > 0 && State(times, max) == (w, allowed)
    ensures w.Some? ==> w.value.count == CountIn(allowed, w.value.resetAt - WINDOW, w.value.resetAt) <= max
  {
    StateBounded(times, max);
  }

  // ---- the bound is reached ----

  lemma StateSnoc(times: seq<int>, t: int, max: int)
    ensures var (w, allowed) := State(times, max);
            var (w', ok) := Charge(w, t, max);
            State(times + [t], max) == (w', if ok then allowed + [t] else allowed)
  {
    assert (times + [t])[..|times|] == times;
  }

  function Repeat(t: int, n: nat): (r: seq<int>)
    ensures |r| == n
  {
    if n == 0 then [] else Repeat(t, n - 1) + [t]
  }

  lemma FillOne(times: seq<int>, more: seq<int>, max: int, w: Window, allowed: seq<int>, t: int)
    requires State(times, max) == (Some(w), allowed) && t < w.resetAt && w.count < max && 0 < max && more == times + [t]
    ensures State(more, max) == (Some(w.(count := w.count + 1)), allowed + [t])
  {
    StateSnoc(times, t, max);
  }

  /** `more` extends `times` by `n` copies of `t`. */
  predicate Extended(times: seq<int>, more: seq<int>, t: int, n: nat) { more == times + Repeat(t, n) }

  lemma ExtendedOnce(times: seq<int>, more: seq<int>, t: int, n: nat)
    requires Extended(times, more, t, n)
    ensures Extended(times, more + [t], t, n + 1)
  {
  }

  /** Hits inside a window that has room for them are all let through. */
  lemma {:induction false} FillWindow(times: seq<int>, max: int, w: Window, allowed: seq<int>, t: int, n: nat)
      returns (more: seq<int>, passed: seq<int>)
    requires 0 < max && State(times, max) == (Some(w), allowed) && t < w.resetAt && w.count + n <= max
    ensures Extended(times, more, t, n) && Extended(allowed, passed, t, n)
    ensures State(more, max) == (Some(w.(count := w.count + n)), passed)
  {
    if n == 0 {
      more, passed := times, allowed;
    } else {
      more, passed := FillWindow(times, max, w, allowed, t, n - 1);
      FillOne(more, more + [t], max, w.(count := w.count + n - 1), passed, t);
      ExtendedOnce(times, more, t, n - 1);
      ExtendedOnce(allowed, passed, t, n - 1);
      more, passed := more + [t], passed + [t];
    }
  }

  lemma {:induction false} CountConcat(a: seq<int>, b: seq<int>, from: int, to: int)
    ensures CountIn(a + b, from, to) == CountIn(a, from, to) + CountIn(b, from, to)
    decreases |b|
  {
    if b == [] {
      assert a + b == a;
    } else {
      var n := |b| - 1;
      assert (a + b)[..|a + b| - 1] == a + b[..n];
      CountConcat(a, b[..n], from, to);
    }
  }

  lemma {:induction false} CountRepeat(t: int, n: nat, from: int, to: int)
    requires from <= t < to
    ensures CountIn(Repeat(t, n), from, to) == n
  {
    if n > 0 {
      CountRepeat(t, n - 1, from, to);
      CountSnoc(Repeat(t, n - 1), t, from, to);
    }
  }

  /** One request at time 0, the rest of its window at its very end, and a full window right after: `2 * max - 1` pass
      within the interval that starts at time 1. */
  lemma RateBoundReached(max: int)
    requires max > 0
    ensures var times := [0] + Repeat(WINDOW - 1, max - 1) + [WINDOW] + Repeat(WINDOW, max - 1);
            CountIn(State(times, max).1, 1, 1 + WINDOW) == 2 * max - 1
  {
    var one := [0];
    StateSnoc([], 0, max);
    assert [] + [0] == one && State(one, max) == (Some(Window(1, WINDOW)), [0]);
    var first, passed := FillWindow(one, max, Window(1, WINDOW), [0], WINDOW - 1, max - 1);
    var second := first + [WINDOW];
    StateSnoc(first, WINDOW, max);
    assert State(second, max) == (Some(Window(1, 2 * WINDOW)), first + [WINDOW]);
    var all, allPassed := FillWindow(second, max, Window(1, 2 * WINDOW), first + [WINDOW], WINDOW, max - 1);
    var lo, hi := 1, 1 + WINDOW;
    CountConcat(second, Repeat(WINDOW, max - 1), lo, hi);
    CountConcat(first, [WINDOW], lo, hi);
    CountConcat(one, Repeat(WINDOW - 1, max - 1), lo, hi);
    CountRepeat(WINDOW, max - 1, lo, hi);
    CountRepeat(WINDOW - 1, max - 1, lo, hi);
    CountSnoc([], 0, lo, hi);
    CountSnoc([], WINDOW, lo, hi);
    assert [] + [0] == one && [] + [WINDOW] == [WINDOW];
  }
}
