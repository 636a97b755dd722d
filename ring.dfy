/**
 * The circular sample buffer of the plotter, on sequences: `MaxPoints`
 * slots, sample number k written to slot k % MaxPoints, and the
 * chronological read-out that `update_plots` builds from the slots (the
 * prefix before the buffer wraps, the rotation at the write position
 * after).
 */
module Ring {

  /** Capacity of the buffer: 20 seconds of samples at one per 100 ms. */
  const MaxPoints: nat := 200

  /** The samples a buffer of `MaxPoints` slots can still hold after all of `h` was written: the newest ones. */
  function LastN<T>(h: seq<T>): seq<T> {
    if |h| <= MaxPoints then h else h[|h| - MaxPoints..]
  }

  /**
   * The buffer invariant: every one of the last `MaxPoints` samples of the
   * history `h` still sits in its slot.
   */
  ghost predicate Holds<T>(slots: seq<T>, h: seq<T>) {
    && |slots| == MaxPoints
    && forall k :: 0 <= k < |h| && |h| - MaxPoints <= k ==> slots[k % MaxPoints] == h[k]
  }

  /** The chronological read-out of the slots after `written` writes. */
  function Chrono<T>(slots: seq<T>, written: nat): (r: seq<T>)
    requires |slots| == MaxPoints
    ensures |r| == if written < MaxPoints then written else MaxPoints
  {
    if written < MaxPoints then slots[..written]
    else slots[written % MaxPoints..] + slots[..written % MaxPoints]
  }

  /** Writing the next sample into slot `|h| % MaxPoints` keeps the invariant. */
  lemma {:induction false} HoldsAfterWrite<T>(slots: seq<T>, h: seq<T>, x: T)
    requires Holds(slots, h)
    ensures Holds(slots[|h| % MaxPoints := x], h + [x])
  {
    var slots', h' := slots[|h| % MaxPoints := x], h + [x];
    forall k | 0 <= k < |h'| && |h'| - MaxPoints <= k
      ensures slots'[k % MaxPoints] == h'[k]
    {
      if k < |h| {
        assert k % MaxPoints != |h| % MaxPoints;
        assert slots[k % MaxPoints] == h[k];
      }
    }
  }

  /** A number `q * MaxPoints + r` with `r` a slot index lies in slot `r`. */
  lemma SlotOf(a: int, q: int, r: int)
    requires 0 <= r < MaxPoints && a == q * MaxPoints + r
    ensures a % MaxPoints == r
  {
  }

  /** Before the buffer wraps, the read-out is the history itself. */
  lemma {:induction false} ChronoBeforeWrap<T>(slots: seq<T>, h: seq<T>)
    requires Holds(slots, h) && |h| < MaxPoints
    ensures Chrono(slots, |h|) == h
  {
    var r := Chrono(slots, |h|);
    forall i | 0 <= i < |h|
      ensures r[i] == h[i]
    {
      SlotOf(i, 0, i);
    }
  }

  /** After the buffer wraps, the read-out is the newest `MaxPoints` samples, oldest first. */
  lemma {:induction false} ChronoAfterWrap<T>(slots: seq<T>, h: seq<T>)
    requires Holds(slots, h) && MaxPoints <= |h|
    ensures Chrono(slots, |h|) == h[|h| - MaxPoints..]
  {
    var r, l := Chrono(slots, |h|), h[|h| - MaxPoints..];
    var q, s := |h| / MaxPoints, |h| % MaxPoints;
    assert r == slots[s..] + slots[..s];
    forall i | 0 <= i < MaxPoints
      ensures r[i] == l[i]
    {
      var k := |h| - MaxPoints + i;
      assert l[i] == h[k];
      if i < MaxPoints - s {
        SlotOf(k, q - 1, s + i);
        assert r[i] == slots[s + i];
      } else {
        SlotOf(k, q, s + i - MaxPoints);
        assert r[i] == slots[i - (MaxPoints - s)];
      }
    }
  }

  /**
   * The read-out is exactly the newest `min(|h|, MaxPoints)` samples, in the
   * order they were written.
   */
  lemma ChronoIsNewest<T>(slots: seq<T>, h: seq<T>)
    requires Holds(slots, h)
    ensures Chrono(slots, |h|) == LastN(h)
  {
    if |h| < MaxPoints {
      ChronoBeforeWrap(slots, h);
    } else {
      ChronoAfterWrap(slots, h);
    }
  }
}
