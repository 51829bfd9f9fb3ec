/** The animated background: an ordered list of bubbles, filled with a
    batch of 30 at mount and grown by one on every interval tick, with a
    prune step meant to keep only the 40 most recent bubbles. */
module Background {
  import opened Js

  const InitialCount := 30
  const PruneThreshold := 50
  const KeepCount := 40

  const BlueColor := "rgba(0, 128, 255, 0.2)"
  const BlueGlow := "rgba(0, 128, 255, 0.4)"
  const WhiteColor := "rgba(255, 255, 255, 0.2)"
  const WhiteGlow := "rgba(255, 255, 255, 0.3)"

  /** A uniform draw in [0, 1), the range of `Math.random()`. */
  type Unit = u: real | 0.0 <= u < 1.0

  /** The random draws one `createBubble()` call consumes, in the order it
      makes them, and the base-36 id it derives from one of them. */
  datatype Draw = Draw(size: Unit, blue: Unit, id: string, left: Unit, opacity: Unit,
                       duration: Unit, delay: Unit)

  datatype Bubble = Bubble(id: string, size: real, left: real, opacity: real,
                           duration: real, delay: real, color: string, glow: string)

  /** `random(min, max)`. */
  function Scale(u: Unit, min: real, max: real): real {
    u * (max - min) + min
  }

  /** `createBubble()`: every attribute lies in its range, and colour and
      glow come from the same coin, so they are both blue or both white. */
  function CreateBubble(d: Draw): (b: Bubble)
    ensures b.id == d.id
    ensures 5.0 <= b.size < 40.0 && 0.0 <= b.left < 100.0 && 0.1 <= b.opacity < 0.3
    ensures 10.0 <= b.duration < 25.0 && 0.0 <= b.delay < 15.0
    ensures d.blue > 0.6 ==> b.color == BlueColor && b.glow == BlueGlow
    ensures d.blue <= 0.6 ==> b.color == WhiteColor && b.glow == WhiteGlow
  {
    var isBlue := d.blue > 0.6;
    Bubble(d.id, Scale(d.size, 5.0, 40.0), Scale(d.left, 0.0, 100.0), Scale(d.opacity, 0.1, 0.3),
           Scale(d.duration, 10.0, 25.0), Scale(d.delay, 0.0, 15.0),
           if isBlue then BlueColor else WhiteColor,
           if isBlue then BlueGlow else WhiteGlow)
  }

  /** Colour and glow are never mixed. */
  lemma ColourMatchesGlow(d: Draw)
    ensures var b := CreateBubble(d);
      (b.color == BlueColor && b.glow == BlueGlow) || (b.color == WhiteColor && b.glow == WhiteGlow)
  {
  }

  /** `Array(30).fill().map(() => createBubble())`. */
  function InitialBatch(draws: seq<Draw>): (batch: seq<Bubble>)
    requires |draws| == InitialCount
    ensures |batch| == InitialCount
    ensures forall i :: 0 <= i < |batch| ==> batch[i] == CreateBubble(draws[i])
  {
    seq(InitialCount, i requires 0 <= i < InitialCount => CreateBubble(draws[i]))
  }

  /** `prev.slice(prev.length - 40)`. */
  function Prune(prev: seq<Bubble>): (kept: seq<Bubble>)
    ensures |kept| <= |prev| && kept == prev[|prev| - |kept|..]
    ensures KeepCount <= |prev| ==> |kept| == KeepCount
  {
    SliceFrom(prev, |prev| - KeepCount)
  }

  /** One tick of the interval: the appended bubble, then the prune step
      if the length the guard reads (`guardLength`) exceeds 50. Whatever the
      guard reads, the tick keeps the most recent bubbles in order, ending
      with the new one; without a prune nothing is lost, and a prune of 40
      or more bubbles keeps exactly 40. */
  function TickStep(prev: seq<Bubble>, b: Bubble, guardLength: nat): (next: seq<Bubble>)
    ensures 0 < |next| && IsSuffix(next, prev + [b]) && next[|next| - 1] == b
    ensures guardLength <= PruneThreshold ==> |next| == |prev| + 1
    ensures PruneThreshold < guardLength && KeepCount <= |prev| + 1 ==> |next| == KeepCount
  {
    var appended := prev + [b];
    if guardLength > PruneThreshold then Prune(appended) else appended
  }

  /** The contents a tick leaves: without a prune, the old list followed by
      the new bubble; with a prune of at least 40 bubbles, the 40 most
      recent of them. */
  lemma TickKeepsMostRecent(prev: seq<Bubble>, b: Bubble, guardLength: nat)
    ensures guardLength <= PruneThreshold ==> TickStep(prev, b, guardLength) == prev + [b]
    ensures PruneThreshold < guardLength && KeepCount <= |prev| + 1 ==>
      TickStep(prev, b, guardLength) == (prev + [b])[|prev| + 1 - KeepCount..]
  {
  }

  predicate IsSuffix<T(==)>(s: seq<T>, t: seq<T>) {
    |s| <= |t| && s == t[|t| - |s|..]
  }

  lemma SuffixAppend<T>(s: seq<T>, t: seq<T>, u: seq<T>)
    requires IsSuffix(s, t)
    ensures IsSuffix(s + u, t + u)
  {
    assert (t + u)[|t + u| - |s + u|..] == t[|t| - |s|..] + u;
  }

  lemma SuffixTrans<T>(s: seq<T>, t: seq<T>, u: seq<T>)
    requires IsSuffix(s, t) && IsSuffix(t, u)
    ensures IsSuffix(s, u)
  {
    assert u[|u| - |s|..] == u[|u| - |t|..][|t| - |s|..];
  }

  /** N ticks as written: the guard reads `bubbles` of the mount-time
      closure, the empty initial state, so its length is always 0. */
  function RunAsWritten(start: seq<Bubble>, spawned: seq<Bubble>): seq<Bubble>
    decreases |spawned|
  {
    if spawned == [] then start
    else RunAsWritten(TickStep(start, spawned[0], 0), spawned[1..])
  }

  /** As written the prune never runs: after N ticks every bubble ever
      created is still there, in creation order. */
  lemma {:induction false} AsWrittenKeepsEverything(start: seq<Bubble>, spawned: seq<Bubble>)
    ensures RunAsWritten(start, spawned) == start + spawned
    ensures |RunAsWritten(start, spawned)| == |start| + |spawned|
    decreases |spawned|
  {
    if spawned != [] {
      TickKeepsMostRecent(start, spawned[0], 0);
      AsWrittenKeepsEverything(start + [spawned[0]], spawned[1..]);
      SplitFirst(start, spawned);
    }
  }

  /** The count the prune is meant to bound (at most 51 bubbles) is
      exceeded after 22 ticks from the initial batch. */
  lemma AsWrittenGrowsWithoutBound(start: seq<Bubble>, spawned: seq<Bubble>)
    requires |start| == InitialCount && |spawned| == 22
    ensures |RunAsWritten(start, spawned)| == 52
    ensures PruneThreshold + 1 < |RunAsWritten(start, spawned)|
  {
    AsWrittenKeepsEverything(start, spawned);
  }

  /** N ticks with the guard reading the current (pre-append) length. */
  function RunIntended(start: seq<Bubble>, spawned: seq<Bubble>): seq<Bubble>
    decreases |spawned|
  {
    if spawned == [] then start
    else RunIntended(TickStep(start, spawned[0], |start|), spawned[1..])
  }

  /** With the guard fed the current length, the list never holds more than
      51 bubbles, and it is always the most recent bubbles in creation
      order: a suffix of everything ever created. */
  lemma {:induction false} IntendedStaysBounded(start: seq<Bubble>, spawned: seq<Bubble>)
    requires |start| <= PruneThreshold + 1
    ensures |RunIntended(start, spawned)| <= PruneThreshold + 1
    ensures IsSuffix(RunIntended(start, spawned), start + spawned)
    decreases |spawned|
  {
    IntendedKeepsMostRecent(start, spawned);
    if spawned != [] {
      var next := TickStep(start, spawned[0], |start|);
      assert RunIntended(start, spawned) == RunIntended(next, spawned[1..]);
      IntendedTickBounded(start, spawned[0]);
      IntendedStaysBounded(next, spawned[1..]);
    }
  }

  /** From any starting list, the intended ticks keep a suffix of
      everything created. */
  lemma {:induction false} IntendedKeepsMostRecent(start: seq<Bubble>, spawned: seq<Bubble>)
    ensures IsSuffix(RunIntended(start, spawned), start + spawned)
    decreases |spawned|
  {
    if spawned != [] {
      var b, rest := spawned[0], spawned[1..];
      var next := TickStep(start, b, |start|);
      assert RunIntended(start, spawned) == RunIntended(next, rest);
      IntendedKeepsMostRecent(next, rest);
      SuffixThenAppend(RunIntended(next, rest), next, start + [b], rest);
      SplitFirst(start, spawned);
    }
  }

  /** Moving the first spawned bubble onto the list keeps the whole. */
  lemma SplitFirst<T>(start: seq<T>, spawned: seq<T>)
    requires spawned != []
    ensures start + [spawned[0]] + spawned[1..] == start + spawned
  {
    assert spawned == [spawned[0]] + spawned[1..];
  }

  /** A suffix of `next + rest`, where `next` is a suffix of `t`, is a
      suffix of `t + rest`. */
  lemma SuffixThenAppend<T>(final: seq<T>, next: seq<T>, t: seq<T>, rest: seq<T>)
    requires IsSuffix(next, t) && IsSuffix(final, next + rest)
    ensures IsSuffix(final, t + rest)
  {
    SuffixAppend(next, t, rest);
    SuffixTrans(final, next + rest, t + rest);
  }

  /** One intended tick keeps the 51-bubble bound. */
  lemma IntendedTickBounded(start: seq<Bubble>, b: Bubble)
    requires |start| <= PruneThreshold + 1
    ensures |TickStep(start, b, |start|)| <= PruneThreshold + 1
  {
  }

  /** Running the ticks in two stretches is running them all. */
  lemma {:induction false} RunIntendedSplit(start: seq<Bubble>, a: seq<Bubble>, b: seq<Bubble>)
    ensures RunIntended(start, a + b) == RunIntended(RunIntended(start, a), b)
    decreases |a|
  {
    if a != [] {
      var next := TickStep(start, a[0], |start|);
      assert (a + b)[0] == a[0] && (a + b)[1..] == a[1..] + b;
      assert RunIntended(start, a + b) == RunIntended(next, a[1..] + b);
      assert RunIntended(start, a) == RunIntended(next, a[1..]);
      RunIntendedSplit(next, a[1..], b);
    } else {
      assert a + b == b;
    }
  }

  /** While the pre-append length stays at most 50, nothing is pruned. */
  lemma {:induction false} RunIntendedBelowThreshold(start: seq<Bubble>, spawned: seq<Bubble>)
    requires |start| + |spawned| <= PruneThreshold + 1
    ensures RunIntended(start, spawned) == start + spawned
    decreases |spawned|
  {
    if spawned != [] {
      var b, rest := spawned[0], spawned[1..];
      var next := start + [b];
      TickKeepsMostRecent(start, b, |start|);
      assert RunIntended(start, spawned) == RunIntended(next, rest);
      RunIntendedBelowThreshold(next, rest);
      SplitFirst(start, spawned);
    }
  }

  /** From the initial batch, 21 ticks reach 51 bubbles with nothing pruned
      (the guard still reads 50), and the 22nd tick prunes to the 40 most
      recent bubbles. */
  lemma IntendedScenario(start: seq<Bubble>, spawned: seq<Bubble>)
    requires |start| == InitialCount && |spawned| == 22
    ensures RunIntended(start, spawned[..21]) == start + spawned[..21]
    ensures RunIntended(start, spawned) == (start + spawned)[12..]
    ensures |RunIntended(start, spawned)| == KeepCount
  {
    RunIntendedBelowThreshold(start, spawned[..21]);
    assert spawned == spawned[..21] + spawned[21..];
    RunIntendedSplit(start, spawned[..21], spawned[21..]);
    var mid := start + spawned[..21];
    assert RunIntended(mid, spawned[21..]) == TickStep(mid, spawned[21], 51);
    TickKeepsMostRecent(mid, spawned[21], 51);
    assert mid + [spawned[21]] == start + spawned;
  }

  /** The mounted Background component. `closureBubbles` is the value of
      `bubbles` that the interval callback captured when the mount effect
      ran; `intervalActive` says whether the interval is still scheduled. */
  class BackgroundComponent {
    var bubbles: seq<Bubble>
    var closureBubbles: seq<Bubble>
    var mounted: bool
    var intervalActive: bool

    /** The first render: no bubbles, no interval yet. */
    constructor ()
      ensures bubbles == [] && closureBubbles == []
      ensures !mounted && !intervalActive
    {
      bubbles, closureBubbles := [], [];
      mounted, intervalActive := false, false;
    }

    /** The mount effect (empty dependency list, so it runs once): sets the
        initial batch and starts the interval, whose callback closes over
        the first render's `bubbles`. */
    method Mount(draws: seq<Draw>)
      requires !mounted && |draws| == InitialCount
      modifies this
      ensures bubbles == InitialBatch(draws) && |bubbles| == InitialCount
      ensures closureBubbles == old(bubbles)
      ensures mounted && intervalActive
    {
      closureBubbles := bubbles;
      bubbles := InitialBatch(draws);
      mounted, intervalActive := true, true;
    }

    /** One interval callback as written: append a spawned bubble, then prune
        only if the captured `bubbles` is longer than 50. */
    method Tick(d: Draw)
      requires intervalActive
      modifies this`bubbles
      ensures bubbles == TickStep(old(bubbles), CreateBubble(d), |closureBubbles|)
    {
      var newBubble := CreateBubble(d);
      bubbles := bubbles + [newBubble];
      if |closureBubbles| > PruneThreshold {
        bubbles := Prune(bubbles);
      }
    }

    /** The interval callback with the guard reading the current list, as
        the prune step intends. */
    method TickIntended(d: Draw)
      requires intervalActive
      modifies this`bubbles
      ensures bubbles == TickStep(old(bubbles), CreateBubble(d), |old(bubbles)|)
      ensures |old(bubbles)| <= PruneThreshold + 1 ==> |bubbles| <= PruneThreshold + 1
    {
      var guardLength := |bubbles|;
      var newBubble := CreateBubble(d);
      bubbles := bubbles + [newBubble];
      if guardLength > PruneThreshold {
        bubbles := Prune(bubbles);
      }
      assert [newBubble][1..] == [];
    }

    /** The effect's cleanup, `clearInterval`. */
    method Unmount()
      modifies this`intervalActive
      ensures !intervalActive
    {
      intervalActive := false;
    }
  }
}
