/** A track's levels as heights to draw, in whole numbers
    (crates/core/src/waveform.rs:12-61). */
module Waveform {
  import opened Wrappers
  import opened Orders
  import opened Sequences
  import opened Sorting

  type Level = b: int | 0 <= b < 256

  const FLOOR: int := 24
  const MIN_SPAN: int := 12
  const LOW_PERCENTILE: nat := 5
  const HIGH_PERCENTILE: nat := 95

  /** The levels of the bins that are not silent. */
  function Sounding(rms: seq<Level>): seq<Level> {
    if rms == [] then []
    else (if rms[0] > 0 then [rms[0]] else []) + Sounding(rms[1..])
  }

  /** The place of a percentile, of `last` and those before it. */
  function Place(last: nat, percent: nat): (k: nat)
    requires percent <= 100
    ensures k <= last
  {
    assert last * percent <= last * 100;
    last * percent / 100
  }

  /** It is `percent` of the way to the last, to the place below. */
  lemma PlaceIs(last: nat, percent: nat)
    requires percent <= 100
    ensures 100 * Place(last, percent) <= last * percent < 100 * Place(last, percent) + 100
  {
  }

  function Percentile(sorted: seq<int>, percent: nat): (level: int)
    requires sorted != [] && percent <= 100
    ensures level in sorted
  {
    sorted[Place(|sorted| - 1, percent)]
  }

  /** The level that draws at 24, and the one that draws at 255. */
  datatype Scale = Scale(low: int, high: int)

  /** None if every bin is silent. */
  function ScaleOf(rms: seq<Level>): (scale: Option<Scale>)
    ensures scale.Some? ==> 0 <= scale.value.low < scale.value.high < 256
  {
    var sounding := Sort<int>(CompareInt, Sounding(rms));
    SortedLevels(rms);
    if sounding == [] then None
    else
      var high := Percentile(sounding, HIGH_PERCENTILE);
      var low := Percentile(sounding, LOW_PERCENTILE);
      var below := if high > MIN_SPAN then high - MIN_SPAN else 0;
      Some(Scale(if low < below then low else below, high))
  }

  function Clamp(level: Level, scale: Scale): int {
    if level < scale.low then scale.low else if level > scale.high then scale.high else level
  }

  /** `above` of `span`, as the nearest part of the height over the floor. */
  function Part(above: int, span: int): int
    requires span > 0
  {
    (above * (255 - FLOOR) + span / 2) / span
  }

  /** The height before it is cut to a byte. */
  function Exact(level: Level, scale: Scale): int
    requires scale.low < scale.high
  {
    FLOOR + Part(Clamp(level, scale) - scale.low, scale.high - scale.low)
  }

  function Height(level: Level, scale: Scale): Level
    requires scale.low < scale.high
  {
    if level == 0 then 0 else Exact(level, scale) % 256
  }

  lemma {:induction false} SoundingSounds(rms: seq<Level>)
    ensures forall level :: level in Sounding(rms) <==> level in rms && level > 0
  {
    if rms != [] {
      SoundingSounds(rms[1..]);
      assert rms == [rms[0]] + rms[1..];
    }
  }

  lemma SortedLevels(rms: seq<Level>)
    ensures forall level :: level in Sort<int>(CompareInt, Sounding(rms)) <==> level in rms && level > 0
    ensures SortedBy<int>(CompareInt, Sort<int>(CompareInt, Sounding(rms)))
  {
    CompareIntTotal();
    SoundingSounds(rms);
    SortSorts<int>(CompareInt, Sounding(rms));
    var sorted := Sort<int>(CompareInt, Sounding(rms));
    forall level ensures level in sorted <==> level in Sounding(rms) {
      assert level in multiset(sorted) <==> level in multiset(Sounding(rms));
    }
  }

  /** The scale is of levels that sound, at least one apart, and six decibels where there is room. */
  lemma ScaleSpans(rms: seq<Level>)
    ensures ScaleOf(rms).None? <==> forall level :: level in rms ==> level == 0
    ensures ScaleOf(rms).Some? ==>
      var scale := ScaleOf(rms).value;
      scale.high in rms && (scale.high - scale.low >= MIN_SPAN || scale.low == 0)
  {
    SortedLevels(rms);
    var sorted := Sort<int>(CompareInt, Sounding(rms));
    hide Sort;
    if sorted != [] {
      assert sorted[0] in sorted;
    }
  }

  /** What a level above silence draws: from the floor to full height, so no byte overflows, the floor at `low`
      and below, and full height at `high` and above. */
  lemma HeightsFit(level: Level, scale: Scale)
    requires 0 <= scale.low < scale.high < 256
    ensures FLOOR <= Exact(level, scale) <= 255
    ensures level <= scale.low ==> Exact(level, scale) == FLOOR
    ensures level >= scale.high ==> Exact(level, scale) == 255
  {
    hide Part;
    PartFits(Clamp(level, scale) - scale.low, scale.high - scale.low);
  }

  lemma PartFits(above: int, span: int)
    requires 0 <= above <= span && span > 0
    ensures 0 <= Part(above, span) <= 255 - FLOOR
    ensures above == 0 ==> Part(above, span) == 0
    ensures above == span ==> Part(above, span) == 255 - FLOOR
  {
    Quotient(above * 231 + span / 2, span);
    Between(span, 0, span / 2);
    Between(span, 231, span / 2);
    QuotientGrows(above * 231 + span / 2, span * 231 + span / 2, span);
  }

  /** Between them, the nearest whole height. */
  lemma PartNearest(above: int, span: int)
    requires 0 <= above <= span && span > 0
    ensures -span <= 2 * (span * Part(above, span) - above * (255 - FLOOR)) <= span
  {
    Quotient(above * 231 + span / 2, span);
  }

  lemma PartGrows(above: int, more: int, span: int)
    requires 0 <= above <= more && span > 0
    ensures Part(above, span) <= Part(more, span)
  {
    QuotientGrows(above * 231 + span / 2, more * 231 + span / 2, span);
  }

  lemma Quotient(x: int, span: int)
    requires span > 0 && x >= 0
    ensures 0 <= x / span && span * (x / span) <= x < span * (x / span) + span
  {
  }

  /** A multiple and less than one more of it. */
  lemma Between(span: int, n: nat, rest: int)
    requires 0 <= rest < span
    ensures (span * n + rest) / span == n
  {
    var x := span * n + rest;
    Quotient(x, span);
    if x / span > n {
      Multiples(n, x / span, span);
    } else if x / span < n {
      Multiples(x / span, n, span);
    }
  }

  lemma {:induction false} Multiples(a: int, b: int, span: int)
    requires a < b && span > 0
    ensures span * a + span <= span * b
    decreases b - a
  {
    if a + 1 < b {
      Multiples(a, b - 1, span);
    }
  }

  lemma QuotientGrows(x: int, y: int, span: int)
    requires span > 0 && 0 <= x <= y
    ensures x / span <= y / span
  {
    Quotient(x, span);
    Quotient(y, span);
    if x / span > y / span {
      Multiples(y / span, x / span, span);
    }
  }

  /** Heights never fall as levels rise. */
  lemma LouderNoLower(quiet: Level, loud: Level, scale: Scale)
    requires 0 <= scale.low < scale.high < 256 && quiet <= loud
    ensures Height(quiet, scale) <= Height(loud, scale)
  {
    hide Part;
    HeightsFit(quiet, scale);
    HeightsFit(loud, scale);
    PartGrows(Clamp(quiet, scale) - scale.low, Clamp(loud, scale) - scale.low, scale.high - scale.low);
  }

  /** The heights for bins of levels `rms`. */
  method ShapeWaveform(rms: seq<Level>) returns (heights: seq<Level>)
    ensures |heights| == |rms|
    ensures forall i :: 0 <= i < |rms| ==> if rms[i] == 0 then heights[i] == 0 else 24 <= heights[i] <= 255
    ensures forall i, j :: 0 <= i < |rms| && 0 <= j < |rms| && rms[i] <= rms[j] ==> heights[i] <= heights[j]
    ensures ScaleOf(rms).Some? ==> forall i :: 0 <= i < |rms| ==>
      heights[i] == if rms[i] == 0 then 0 else Exact(rms[i], ScaleOf(rms).value)
  {
    hide ScaleOf, Exact, Clamp;
    ScaleSpans(rms);
    var scale := ScaleOf(rms);
    if scale.None? {
      assert forall i :: 0 <= i < |rms| ==> rms[i] in rms;
      return seq(|rms|, _ => 0);
    }
    heights := seq(|rms|, i requires 0 <= i < |rms| => Height(rms[i], scale.value));
    forall i | 0 <= i < |rms| ensures FLOOR <= Exact(rms[i], scale.value) <= 255 {
      HeightsFit(rms[i], scale.value);
    }
    forall i, j | 0 <= i < |rms| && 0 <= j < |rms| && rms[i] <= rms[j] ensures heights[i] <= heights[j] {
      LouderNoLower(rms[i], rms[j], scale.value);
    }
  }

  /** The scale is of the levels alone, whatever order they come in. */
  lemma ScaleOfAnyOrder(a: seq<Level>, b: seq<Level>)
    requires multiset(a) == multiset(b)
    ensures ScaleOf(a) == ScaleOf(b)
  {
    SoundingCounts(a);
    SoundingCounts(b);
    CompareIntTotal();
    hide Sounding, Sort, Percentile;
    SortOfPermutation<int>(CompareInt, Sounding(a), Sounding(b));
  }

  lemma {:induction false} SoundingCounts(rms: seq<Level>)
    ensures forall level: int :: multiset(Sounding(rms))[level] == if level > 0 then multiset(rms)[level] else 0
  {
    if rms != [] {
      SoundingCounts(rms[1..]);
      assert rms == [rms[0]] + rms[1..];
    }
  }

  // ---- Outliers ----

  function Louder(levels: seq<int>, level: int): nat {
    if levels == [] then 0 else (if levels[0] > level then 1 else 0) + Louder(levels[1..], level)
  }

  function Quieter(levels: seq<int>, level: int): nat {
    if levels == [] then 0 else (if levels[0] < level then 1 else 0) + Quieter(levels[1..], level)
  }

  lemma {:induction false} CountedBoth(a: seq<int>, b: seq<int>, level: int)
    ensures Louder(a + b, level) == Louder(a, level) + Louder(b, level)
    ensures Quieter(a + b, level) == Quieter(a, level) + Quieter(b, level)
  {
    if a == [] {
      assert a + b == b;
    } else {
      assert (a + b)[1..] == a[1..] + b;
      CountedBoth(a[1..], b, level);
    }
  }

  /** What is louder is counted alike in any order. */
  lemma {:induction false} CountedAnyOrder(a: seq<int>, b: seq<int>, level: int)
    requires multiset(a) == multiset(b)
    ensures Louder(a, level) == Louder(b, level) && Quieter(a, level) == Quieter(b, level)
  {
    if a == [] {
      assert |multiset(b)| == 0;
    } else {
      assert a == [a[0]] + a[1..];
      assert a[0] in multiset(b);
      var k :| 0 <= k < |b| && b[k] == a[0];
      var rest := b[..k] + b[k + 1..];
      CountedWithout(a, 0, level);
      CountedWithout(b, k, level);
      WithoutOne(b, k);
      assert a[..0] + a[1..] == a[1..];
      hide Louder, Quieter;
      assert multiset(a[1..]) == multiset(b) - multiset{a[0]};
      CountedAnyOrder(a[1..], rest, level);
    }
  }

  lemma CountedWithout(s: seq<int>, k: nat, level: int)
    requires k < |s|
    ensures Louder(s, level) == Louder(s[..k] + s[k + 1..], level) + if s[k] > level then 1 else 0
    ensures Quieter(s, level) == Quieter(s[..k] + s[k + 1..], level) + if s[k] < level then 1 else 0
  {
    CountedBoth(s[..k], s[k + 1..], level);
    CountedBoth(s[..k], [s[k]] + s[k + 1..], level);
    CountedBoth([s[k]], s[k + 1..], level);
    assert s == s[..k] + ([s[k]] + s[k + 1..]);
    assert [s[k]][1..] == [];
  }

  lemma {:induction false} NoneCounted(levels: seq<int>, level: int)
    ensures (forall i :: 0 <= i < |levels| ==> levels[i] <= level) ==> Louder(levels, level) == 0
    ensures (forall i :: 0 <= i < |levels| ==> levels[i] >= level) ==> Quieter(levels, level) == 0
    ensures Louder(levels, level) <= |levels| && Quieter(levels, level) <= |levels|
  {
    if levels != [] {
      NoneCounted(levels[1..], level);
    }
  }

  /** The levels a percentile leaves on either side. */
  lemma PercentileSplits(levels: seq<int>, percent: nat)
    requires levels != [] && percent <= 100
    ensures var (last, level) := (|levels| - 1, Percentile(Sort<int>(CompareInt, levels), percent));
      Louder(levels, level) <= last - Place(last, percent) && Quieter(levels, level) <= Place(last, percent)
  {
    CompareIntTotal();
    var sorted := Sort<int>(CompareInt, levels);
    SortSorts<int>(CompareInt, levels);
    hide Sort, Louder, Quieter, Place;
    var k := Place(|levels| - 1, percent);
    CountedAnyOrder(levels, sorted, sorted[k]);
    PlaceSplits(sorted, k);
  }

  lemma PlaceSplits(sorted: seq<int>, k: nat)
    requires SortedBy<int>(CompareInt, sorted) && k < |sorted|
    ensures Louder(sorted, sorted[k]) <= |sorted| - 1 - k && Quieter(sorted, sorted[k]) <= k
  {
    hide Louder, Quieter;
    assert forall i, j :: 0 <= i < j < |sorted| ==> CompareInt(sorted[i], sorted[j]) != Greater;
    var (front, back) := (sorted[..k], sorted[k + 1..]);
    CountedWithout(sorted, k, sorted[k]);
    CountedBoth(front, back, sorted[k]);
    NoneCounted(front, sorted[k]);
    NoneCounted(back, sorted[k]);
  }

  lemma {:induction false} QuieterThanLower(levels: seq<int>, low: int, level: int)
    requires low <= level
    ensures Quieter(levels, low) <= Quieter(levels, level)
  {
    if levels != [] {
      QuieterThanLower(levels[1..], low, level);
    }
  }

  /** So only a few outlying bins, of those that sound, lie off the scale: in a hundred and one, at most five are
      louder than its high and five quieter than its low. */
  lemma FewOutliers(rms: seq<Level>)
    requires ScaleOf(rms).Some?
    ensures var (scale, sounding) := (ScaleOf(rms).value, Sounding(rms));
      && sounding != []
      && Louder(sounding, scale.high) <= |sounding| - 1 - Place(|sounding| - 1, HIGH_PERCENTILE)
      && Quieter(sounding, scale.low) <= Place(|sounding| - 1, LOW_PERCENTILE)
  {
    var sounding := Sounding(rms);
    hide Louder, Quieter, Place, Sort;
    PercentileSplits(sounding, HIGH_PERCENTILE);
    PercentileSplits(sounding, LOW_PERCENTILE);
    QuieterThanLower(sounding, ScaleOf(rms).value.low, Percentile(Sort<int>(CompareInt, sounding), LOW_PERCENTILE));
  }

  /** A level that no more than `percent` in a hundred of the rest, rounded down, are quieter than, and no more than the
      others are louder than. */
  ghost predicate AtPercent(levels: seq<int>, level: int, percent: nat) {
    levels != [] &&
    var last := |levels| - 1;
    Quieter(levels, level) <= last * percent / 100 && Louder(levels, level) <= last - last * percent / 100
  }

  /** The scale's high is the 95th percentile of the bins that sound, and its low the lower of the 5th and the level six
      decibels below the high, or 0 where that would be below it. */
  lemma ScaleExactly(rms: seq<Level>) returns (fifth: int)
    requires ScaleOf(rms).Some?
    ensures var (scale, sounding) := (ScaleOf(rms).value, Sounding(rms));
      && AtPercent(sounding, scale.high, 95) && AtPercent(sounding, fifth, 5)
      && (scale.low == if fifth + 12 <= scale.high then fifth else if scale.high >= 12 then scale.high - 12 else 0)
  {
    var sounding := Sounding(rms);
    SortedLevels(rms);
    hide Louder, Quieter, Sort;
    fifth := Percentile(Sort<int>(CompareInt, sounding), 5);
    PercentileSplits(sounding, 95);
    PercentileSplits(sounding, 5);
  }

  /** Within the scale a bin that sounds draws at the whole number nearest to the line from 24 at its low to 255 at its
      high. */
  lemma HeightNearest(level: Level, scale: Scale)
    requires 0 <= scale.low <= level <= scale.high < 256 && scale.low < scale.high && level > 0
    ensures var (span, above) := (scale.high - scale.low, level - scale.low);
      -span <= 2 * (span * (Height(level, scale) - 24) - above * 231) <= span
  {
    hide Part;
    HeightsFit(level, scale);
    PartNearest(level - scale.low, scale.high - scale.low);
  }
}
