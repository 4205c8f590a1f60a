/** Reading naive local timestamps in a source timezone, refusing every clock reading that is not one instant. */
module SourceTimezone {
  import opened Wrappers

  /** At instant `at` the offset from UTC becomes `after`. */
  datatype Transition = Transition(at: int, after: int)

  /** A timezone: an initial offset and the transitions that follow it. Instants and offsets are microseconds. */
  datatype Zone = Zone(initial: int, transitions: seq<Transition>)

  /** The offset in force after the first `era` transitions. */
  function Offset(zone: Zone, era: nat): int
    requires era <= |zone.transitions|
  {
    if era == 0 then zone.initial else zone.transitions[era - 1].after
  }

  function Max(a: int, b: int): int {
    if a < b then b else a
  }

  function Min(a: int, b: int): int {
    if a < b then a else b
  }

  // ---------- the library's conversions ----------

  /** `bisect_right`: how many thresholds a value has reached. */
  function Reached(thresholds: seq<int>, x: int): (count: nat)
    ensures count <= |thresholds|
  {
    if thresholds == [] then 0
    else if thresholds[|thresholds| - 1] <= x then |thresholds|
    else Reached(thresholds[..|thresholds| - 1], x)
  }

  function Instants(zone: Zone): (r: seq<int>)
    ensures |r| == |zone.transitions|
  {
    seq(|zone.transitions|, i requires 0 <= i < |zone.transitions| => zone.transitions[i].at)
  }

  /** The clock readings at which a transition takes effect, with `fold` 0 or 1 as PEP 495 gives them. */
  function Thresholds(zone: Zone, fold: bool): (r: seq<int>)
    ensures |r| == |zone.transitions|
  {
    seq(|zone.transitions|, i requires 0 <= i < |zone.transitions| => Threshold(zone, i, fold))
  }

  function Threshold(zone: Zone, i: nat, fold: bool): int
    requires i < |zone.transitions|
  {
    var before, after := Offset(zone, i), Offset(zone, i + 1);
    zone.transitions[i].at + if fold then Min(before, after) else Max(before, after)
  }

  /** The clock reading at an instant. */
  function WallOf(zone: Zone, utc: int): int {
    utc + Offset(zone, Reached(Instants(zone), utc))
  }

  /** The instant a clock reading is taken for. */
  function UtcOf(zone: Zone, wall: int, fold: bool): int {
    wall - Offset(zone, Reached(Thresholds(zone, fold), wall))
  }

  // ---------- localisation ----------

  datatype Refusal = Ambiguous | Nonexistent | NoTimezone | Unparsed

  function LocalizeNaive(zone: Zone, wall: int): Result<int, Refusal> {
    var first, second := UtcOf(zone, wall, false), UtcOf(zone, wall, true);
    if first != second then Err(Ambiguous)
    else if WallOf(zone, first) != wall then Err(Nonexistent)
    else Ok(first)
  }

  /** A parsed source value: text that is no timestamp, an aware one, or a naive one. */
  datatype Timestamp = Invalid | Aware(utc: int) | Naive(wall: int)

  function NormalizeToUtc(value: Timestamp, zone: Option<Zone>): Result<int, Refusal> {
    match value
    case Invalid => Err(Unparsed)
    case Aware(utc) => Ok(utc)
    case Naive(wall) => if zone.None? then Err(NoTimezone) else LocalizeNaive(zone.value, wall)
  }

  // ---------- which readings are instants ----------

  /** Every transition is over, on the clock, before the next one starts. */
  ghost predicate Spaced(zone: Zone) {
    forall i :: 0 <= i < |zone.transitions| - 1 ==> Threshold(zone, i, false) <= Threshold(zone, i + 1, true)
  }

  /** `utc` is the one instant at which the clock reads `wall`. */
  ghost predicate OnlyInstant(zone: Zone, wall: int, utc: int) {
    WallOf(zone, utc) == wall && forall other :: WallOf(zone, other) == wall ==> other == utc
  }

  ghost predicate Ascending(thresholds: seq<int>) {
    forall i, j :: 0 <= i < j < |thresholds| ==> thresholds[i] <= thresholds[j]
  }

  /** In an ascending list, exactly the first `Reached` thresholds are at most `x`. */
  lemma {:induction false} ReachedMeaning(thresholds: seq<int>, x: int)
    requires Ascending(thresholds)
    ensures forall i :: 0 <= i < |thresholds| ==> (thresholds[i] <= x <==> i < Reached(thresholds, x))
  {
    if thresholds != [] && x < thresholds[|thresholds| - 1] {
      ReachedMeaning(thresholds[..|thresholds| - 1], x);
    }
  }

  lemma {:induction false} ThresholdsSeparate(zone: Zone, i: nat, j: nat)
    requires Spaced(zone) && i < j < |zone.transitions|
    ensures Threshold(zone, i, false) <= Threshold(zone, j, true)
    ensures zone.transitions[i].at <= zone.transitions[j].at
    decreases j
  {
    var k := j - 1;
    assert Threshold(zone, k, false) <= Threshold(zone, k + 1, true);
    if i < k {
      ThresholdsSeparate(zone, i, k);
    }
  }

  lemma SpacedAscends(zone: Zone)
    requires Spaced(zone)
    ensures Ascending(Instants(zone)) && Ascending(Thresholds(zone, false)) && Ascending(Thresholds(zone, true))
  {
    forall i, j | 0 <= i < j < |zone.transitions|
      ensures Threshold(zone, i, false) <= Threshold(zone, j, true) && zone.transitions[i].at <= zone.transitions[j].at
    {
      ThresholdsSeparate(zone, i, j);
    }
  }

  /** `utc` lies in era `k`: from the transition that opens it to the one that closes it. */
  ghost predicate InEra(zone: Zone, utc: int, k: nat) {
    && k <= |zone.transitions|
    && (k > 0 ==> zone.transitions[k - 1].at <= utc)
    && (k < |zone.transitions| ==> utc < zone.transitions[k].at)
  }

  lemma EraOf(zone: Zone, utc: int, k: nat)
    requires Spaced(zone)
    ensures InEra(zone, utc, k) <==> k == Reached(Instants(zone), utc)
  {
    SpacedAscends(zone);
    ReachedMeaning(Instants(zone), utc);
    var era := Reached(Instants(zone), utc);
    assert forall i :: 0 <= i < |zone.transitions| ==> Instants(zone)[i] == zone.transitions[i].at;
  }

  /** The reading `wall` lies between the closing thresholds around era `k`, whatever the fold. */
  ghost predicate Settled(zone: Zone, wall: int, k: nat) {
    && k <= |zone.transitions|
    && (k > 0 ==> Threshold(zone, k - 1, false) <= wall)
    && (k < |zone.transitions| ==> wall < Threshold(zone, k, true))
  }

  /** A settled reading is one instant, in its own era. */
  lemma SettledIsInstant(zone: Zone, wall: int, k: nat)
    requires Spaced(zone) && Settled(zone, wall, k)
    ensures InEra(zone, wall - Offset(zone, k), k)
    ensures OnlyInstant(zone, wall, wall - Offset(zone, k))
  {
    EraOf(zone, wall - Offset(zone, k), k);
    forall other | WallOf(zone, other) == wall ensures other == wall - Offset(zone, k) {
      var era := Reached(Instants(zone), other);
      EraOf(zone, other, era);
      if era < k {
        EraBelow(zone, other, era, k - 1);
      } else if era > k {
        EraAbove(zone, other, era, k);
      }
    }
  }

  /** Before transition `i` the clock has not reached its later threshold. */
  lemma EraBelow(zone: Zone, utc: int, era: nat, i: nat)
    requires Spaced(zone) && InEra(zone, utc, era) && era <= i < |zone.transitions|
    ensures utc + Offset(zone, era) < Threshold(zone, i, false)
  {
    if era < i {
      ThresholdsSeparate(zone, era, i);
    }
  }

  /** After transition `i` the clock has passed its earlier threshold. */
  lemma EraAbove(zone: Zone, utc: int, era: nat, i: nat)
    requires Spaced(zone) && InEra(zone, utc, era) && i < era
    ensures Threshold(zone, i, true) <= utc + Offset(zone, era)
  {
    if i < era - 1 {
      ThresholdsSeparate(zone, i, era - 1);
    }
  }

  /** The reading lies between the two thresholds of transition `i`: inside its gap or its repetition. */
  ghost predicate Disputed(zone: Zone, wall: int, i: nat) {
    i < |zone.transitions| && Threshold(zone, i, true) <= wall < Threshold(zone, i, false)
  }

  /** Clocks going forward: no instant reads `wall`. */
  lemma GapHasNoInstant(zone: Zone, wall: int, i: nat, utc: int)
    requires Spaced(zone) && Disputed(zone, wall, i) && Offset(zone, i) < Offset(zone, i + 1)
    ensures WallOf(zone, utc) != wall
  {
    var era := Reached(Instants(zone), utc);
    EraOf(zone, utc, era);
    if era < i {
      EraBelow(zone, utc, era, i - 1);
      ThresholdsSeparate(zone, i - 1, i);
    } else if era > i + 1 {
      EraAbove(zone, utc, era, i + 1);
      ThresholdsSeparate(zone, i, i + 1);
    }
  }

  /** Clocks going back: two instants, one on each side of the transition, read `wall`. */
  lemma RepetitionHasTwoInstants(zone: Zone, wall: int, i: nat)
    requires Spaced(zone) && Disputed(zone, wall, i) && Offset(zone, i) > Offset(zone, i + 1)
    ensures WallOf(zone, wall - Offset(zone, i)) == wall
    ensures WallOf(zone, wall - Offset(zone, i + 1)) == wall
  {
    if i > 0 {
      ThresholdsSeparate(zone, i - 1, i);
    }
    if i + 1 < |zone.transitions| {
      ThresholdsSeparate(zone, i, i + 1);
    }
    EraOf(zone, wall - Offset(zone, i), i);
    EraOf(zone, wall - Offset(zone, i + 1), i + 1);
  }

  lemma ReachedThresholds(zone: Zone, wall: int, fold: bool, i: nat)
    requires Spaced(zone) && i < |zone.transitions|
    ensures Threshold(zone, i, fold) <= wall <==> i < Reached(Thresholds(zone, fold), wall)
  {
    SpacedAscends(zone);
    ReachedMeaning(Thresholds(zone, fold), wall);
    assert Thresholds(zone, fold)[i] == Threshold(zone, i, fold);
  }

  lemma FoldOrder(zone: Zone, wall: int)
    requires Spaced(zone)
    ensures Reached(Thresholds(zone, false), wall) <= Reached(Thresholds(zone, true), wall)
            <= Reached(Thresholds(zone, false), wall) + 1
  {
    var zero, one := Reached(Thresholds(zone, false), wall), Reached(Thresholds(zone, true), wall);
    hide Reached, Thresholds;
    if zero > 0 {
      ReachedThresholds(zone, wall, false, zero - 1);
      ReachedThresholds(zone, wall, true, zero - 1);
    }
    if zero + 1 < one {
      ThresholdsSeparate(zone, zero, zero + 1);
      ReachedThresholds(zone, wall, false, zero);
      ReachedThresholds(zone, wall, true, zero + 1);
    }
  }

  /** With fold 0 and fold 1 a reading falls in the same era, or in the two eras around the transition it is disputed by. */
  lemma FoldEras(zone: Zone, wall: int)
    requires Spaced(zone)
    ensures var zero, one := Reached(Thresholds(zone, false), wall), Reached(Thresholds(zone, true), wall);
            if zero == one then Settled(zone, wall, zero) else one == zero + 1 && Disputed(zone, wall, zero)
  {
    var zero := Reached(Thresholds(zone, false), wall);
    FoldOrder(zone, wall);
    hide Reached, Thresholds, Threshold, Spaced;
    if zero > 0 {
      ReachedThresholds(zone, wall, false, zero - 1);
    }
    if zero < |zone.transitions| {
      ReachedThresholds(zone, wall, false, zero);
      ReachedThresholds(zone, wall, true, zero);
    }
  }

  /**
   * A reading is accepted exactly when one instant, and no other, shows it; and that instant is the result.
   * Readings in a gap are refused as ambiguous, like repeated ones: the "nonexistent" branch is never taken.
   */
  lemma LocalizeMeaning(zone: Zone, wall: int)
    requires Spaced(zone)
    ensures LocalizeNaive(zone, wall).Ok? <==> exists utc :: OnlyInstant(zone, wall, utc)
    ensures LocalizeNaive(zone, wall).Ok? ==> OnlyInstant(zone, wall, LocalizeNaive(zone, wall).value)
    ensures LocalizeNaive(zone, wall).Err? ==> LocalizeNaive(zone, wall) == Err(Ambiguous)
  {
    var zero, one := Reached(Thresholds(zone, false), wall), Reached(Thresholds(zone, true), wall);
    FoldEras(zone, wall);
    if zero == one {
      SettledIsInstant(zone, wall, zero);
    } else if Offset(zone, zero) > Offset(zone, one) {
      RepetitionHasTwoInstants(zone, wall, zero);
      forall utc ensures !OnlyInstant(zone, wall, utc) {
      }
    } else {
      forall utc ensures !OnlyInstant(zone, wall, utc) {
        GapHasNoInstant(zone, wall, zero, utc);
      }
    }
  }

  /** What any source value normalises to, with or without a timezone. */
  ghost predicate Normalizes(value: Timestamp, zone: Option<Zone>, r: Result<int, Refusal>) {
    match value
    case Invalid => r == Err(Unparsed)
    case Aware(utc) => r == Ok(utc)
    case Naive(wall) =>
      if zone == None then r == Err(NoTimezone)
      else if exists utc :: OnlyInstant(zone.value, wall, utc) then r.Ok? && OnlyInstant(zone.value, wall, r.value)
      else r == Err(Ambiguous)
  }

  /** `utc` is the instant the value stands for: its own, or the only one at which the zone's clock shows it. */
  ghost predicate StandsFor(value: Timestamp, zone: Option<Zone>, utc: int) {
    || value == Aware(utc)
    || (value.Naive? && zone.Some? && OnlyInstant(zone.value, value.wall, utc))
  }

  /**
   * A value is accepted exactly when it stands for an instant, which is then the result: an aware value
   * always, a naive one only with a timezone in which one instant shows it. Each refusal has its own error.
   */
  lemma NormalizeMeaning(value: Timestamp, zone: Option<Zone>)
    requires zone.Some? ==> Spaced(zone.value)
    ensures Normalizes(value, zone, NormalizeToUtc(value, zone))
    ensures forall utc :: NormalizeToUtc(value, zone) == Ok(utc) <==> StandsFor(value, zone, utc)
  {
    if value.Naive? && zone.Some? {
      LocalizeMeaning(zone.value, value.wall);
    }
  }

  /** A local reading of an instant normalises to that instant or is refused: never to another one. */
  lemma ReadingsAgree(zone: Zone, utc: int)
    requires Spaced(zone)
    ensures NormalizeToUtc(Naive(WallOf(zone, utc)), Some(zone)) in {NormalizeToUtc(Aware(utc), Some(zone)), Err(Ambiguous)}
  {
    LocalizeMeaning(zone, WallOf(zone, utc));
  }

  lemma ErasAreOrdered(zone: Zone, earlier: int, a: nat, later: int, b: nat)
    requires Spaced(zone) && InEra(zone, earlier, a) && InEra(zone, later, b) && a < b
    ensures earlier < later
  {
    if a + 1 < b {
      ThresholdsSeparate(zone, a, b - 1);
    }
  }

  lemma SettledInOrder(zone: Zone, earlier: int, a: nat, later: int, b: nat)
    requires Spaced(zone) && Settled(zone, earlier, a) && Settled(zone, later, b) && earlier < later
    ensures a <= b
  {
    if b + 1 < a {
      ThresholdsSeparate(zone, b, a - 1);
    }
  }

  lemma AcceptedIsSettled(zone: Zone, wall: int) returns (k: nat)
    requires Spaced(zone) && LocalizeNaive(zone, wall).Ok?
    ensures Settled(zone, wall, k) && LocalizeNaive(zone, wall) == Ok(wall - Offset(zone, k))
  {
    FoldEras(zone, wall);
    k := Reached(Thresholds(zone, false), wall);
  }

  /** Accepted readings keep their order as instants. */
  lemma LocalizeKeepsOrder(zone: Zone, earlier: int, later: int)
    requires Spaced(zone) && earlier < later
    requires LocalizeNaive(zone, earlier).Ok? && LocalizeNaive(zone, later).Ok?
    ensures LocalizeNaive(zone, earlier).value < LocalizeNaive(zone, later).value
  {
    hide LocalizeNaive, Spaced, OnlyInstant, InEra, Settled;
    var a := AcceptedIsSettled(zone, earlier);
    var b := AcceptedIsSettled(zone, later);
    SettledInOrder(zone, earlier, a, later, b);
    SettledIsInstant(zone, earlier, a);
    SettledIsInstant(zone, later, b);
    if a < b {
      ErasAreOrdered(zone, earlier - Offset(zone, a), a, later - Offset(zone, b), b);
    }
  }
}
