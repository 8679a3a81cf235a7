/** The stamps of a sample: both clocks refer to the midpoint of its acquisition, so a slow one is not skew. */
module ClockSkew {
  import opened Common
  import Energy

  /**
   One acquisition in nanoseconds: it ended at end on the monotonic clock and took took. The wall clock is read at the
   same instant and is ahead of the monotonic one by offset.
   */
  datatype Acquisition = Acquisition(end: nat, took: nat)

  datatype Stamp = Stamp(startMs: nat, endMs: nat, monoMs: nat, wallMs: nat)

  /** Half of the collection time in whole milliseconds, taken off the completion stamp. */
  function AlignedWallMs(endWallMs: nat, collectMs: real): nat {
    var half := if collectMs > 0.0 then (collectMs / 2.0).Floor else 0;
    SatSub(endWallMs, half)
  }

  function StampOf(a: Acquisition, offset: nat): Stamp {
    var startMs := SatSub(a.end, a.took) / MS;
    var endMs := a.end / MS;
    Stamp(startMs, endMs, (startMs + endMs) / 2, AlignedWallMs((offset + a.end) / MS, a.took as real / MS as real))
  }

  lemma HalfOfWhole(took: nat)
    ensures var c := took as real / MS as real; (if c > 0.0 then (c / 2.0).Floor else 0) == took / (2 * MS)
  {
    var q, r := took / (2 * MS), took % (2 * MS);
    assert took == q * (2 * MS) + r;
    var x := took as real / MS as real / 2.0;
    assert x == q as real + r as real / (2 * MS) as real;
    assert q as real <= x < q as real + 1.0;
  }

  /** How far the wall stamp runs ahead of the monotonic one, beyond the whole offset: rounding only. */
  lemma RoundingIsSmall(a: Acquisition, offset: nat)
    requires a.took <= a.end
    ensures var s := StampOf(a, offset); 0 <= s.wallMs - s.monoMs - offset / MS <= 2
    ensures var s := StampOf(a, offset); s.startMs <= s.monoMs <= s.endMs
  {
    HalfOfWhole(a.took);
    Rounding(a.end, a.took, offset);
  }

  lemma Rounding(end: nat, took: nat, offset: nat)
    requires took <= end
    ensures took / (2 * MS) <= (offset + end) / MS
    ensures 0 <= (offset + end) / MS - took / (2 * MS) - ((end - took) / MS + end / MS) / 2 - offset / MS <= 2
  {
  }

  /** Both stamps are the midpoint of the acquisition on their clock, to within a millisecond and a half. */
  lemma StampsAreMidpoints(a: Acquisition, offset: nat)
    requires a.took <= a.end
    ensures var s, middle2 := StampOf(a, offset), 2 * a.end - a.took;
            && -3 * MS < 2 * (s.monoMs * MS) - middle2 <= 0
            && -2 * MS < 2 * (s.wallMs * MS) - (2 * offset + middle2) < 2 * MS
  {
    HalfOfWhole(a.took);
    Rounding(a.end, a.took, offset);
    Midpoints(a.end, a.took, offset);
  }

  lemma Midpoints(end: nat, took: nat, offset: nat)
    requires took <= end && took / (2 * MS) <= (offset + end) / MS
    ensures -3 * MS < 2 * (((end - took) / MS + end / MS) / 2 * MS) - (2 * end - took) <= 0
    ensures -2 * MS < 2 * (((offset + end) / MS - took / (2 * MS)) * MS) - (2 * offset + 2 * end - took) < 2 * MS
  {
  }

  /**
   Slow collection cannot fake clock skew: while the clocks advance together, the wall step and the monotonic step
   between any two samples differ by at most 2 ms, however long the acquisitions took.
   */
  lemma StepsAgree(a: Acquisition, b: Acquisition, offset: nat)
    requires a.took <= a.end && b.took <= b.end
    ensures var s, t := StampOf(a, offset), StampOf(b, offset); -2 <= (t.wallMs - s.wallMs) - (t.monoMs - s.monoMs) <= 2
  {
    RoundingIsSmall(a, offset);
    RoundingIsSmall(b, offset);
  }

  /** The bound is reached: a quick sample at the start and a slow one after it. */
  lemma TwoIsReached()
    ensures var s, t := StampOf(Acquisition(0, 0), 100_000), StampOf(Acquisition(1_900_000, 1_000_000), 100_000);
            (t.wallMs - s.wallMs) - (t.monoMs - s.monoMs) == 2
  {
    HalfOfWhole(0);
    HalfOfWhole(1_000_000);
  }

  /** So two such readings are never a skew boundary of the energy rule. */
  lemma SlowCollectionIsNotSkew(a: Acquisition, b: Acquisition, offset: nat, maxGap: real)
    requires a.took <= a.end && b.took <= b.end
    ensures var s, t := StampOf(a, offset), StampOf(b, offset);
            var kind := Energy.ClassifyStep((t.monoMs - s.monoMs) as real / 1000.0,
                                            Some((t.wallMs - s.wallMs) as real / 1000.0),
                                            Energy.Rule(maxGap, Energy.MAX_CLOCK_SKEW_SECS));
            kind != Some(Energy.WallAheadOfMono) && kind != Some(Energy.MonoAheadOfWall)
  {
    StepsAgree(a, b, offset);
  }
}
