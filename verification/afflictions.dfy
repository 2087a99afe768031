/**
  Affliction definitions, live afflictions and the priced, network-transmissible
  affliction record (`NetAffliction`) of the medical clinic: severity
  classification, prefab resolution, identifier matching, the conversion from a
  live affliction and the healability filter.
 */
module Afflictions {
  import opened Options
  import opened Identifiers

  type NonNegReal = r: real | r >= 0.0
  type PosReal = r: real | r > 0.0 witness 1.0

  /** The static definition of an affliction kind, looked up by identifier. */
  datatype AfflictionPrefab = AfflictionPrefab(
    identifier: string,
    maxStrength: PosReal,
    healableInMedicalClinic: bool,
    showIconToOthersThreshold: real,
    showInHealthScannerThreshold: real,
    baseHealCost: nat,
    healCostMultiplier: NonNegReal)

  /** A live affliction on a character: its definition and its current strength. */
  datatype Affliction = Affliction(prefab: AfflictionPrefab, strength: NonNegReal)

  /**
    The clinic's record of one affliction: identifier, whole-number strength and
    price, plus the prefab cached on the record (set by `SetPrefab`, otherwise
    resolved from the prefab table on demand).
   */
  datatype NetAffliction = NetAffliction(
    identifier: string,
    strength: nat,
    price: nat,
    cachedPrefab: Option<AfflictionPrefab>)

  datatype Severity = Low | Medium | High

  /** The order of severities, used to state monotonicity. */
  function Rank(s: Severity): nat {
    match s
    case Low => 0
    case Medium => 1
    case High => 2
  }

  /** The record a freshly constructed `NetAffliction` starts as, before any setter runs. */
  const Blank: NetAffliction := NetAffliction("", 0, 0, None)

  // ---------------------------------------------------------------------------
  // Rounding of non-negative reals

  /** The smallest whole number at or above `x` (`Math.Ceiling`). */
  function Ceil(x: NonNegReal): (n: nat)
    ensures x <= n as real < x + 1.0
  {
    var f := x.Floor;
    if f as real == x then f else f + 1
  }

  /** The whole part of `x`: truncation of a non-negative value, as a cast to an integer type does. */
  function Truncate(x: NonNegReal): (n: nat)
    ensures n as real <= x < n as real + 1.0
  {
    x.Floor
  }

  // ---------------------------------------------------------------------------
  // Prefab resolution and identifier matching

  /** `AfflictionEquals(AfflictionPrefab)`: the record's identifier names this prefab, ignoring case. */
  predicate MatchesPrefab(a: NetAffliction, prefab: AfflictionPrefab)
    ensures MatchesPrefab(a, prefab) <==>
              (|a.identifier| == |prefab.identifier|
               && forall i :: 0 <= i < |a.identifier| ==> FoldChar(a.identifier[i]) == FoldChar(prefab.identifier[i]))
  {
    IdEqualsCharwise(prefab.identifier, a.identifier);
    IdEquals(prefab.identifier, a.identifier)
  }

  /** `AfflictionEquals(NetAffliction)`: the two records name the same affliction, ignoring case. */
  predicate SameAffliction(a: NetAffliction, b: NetAffliction)
    ensures SameAffliction(a, b) <==>
              (|a.identifier| == |b.identifier|
               && forall i :: 0 <= i < |a.identifier| ==> FoldChar(a.identifier[i]) == FoldChar(b.identifier[i]))
  {
    IdEqualsCharwise(b.identifier, a.identifier);
    IdEquals(b.identifier, a.identifier)
  }

  /** The first prefab of the table whose identifier matches `id`, ignoring case. */
  function FindPrefab(table: seq<AfflictionPrefab>, id: string): (r: Option<AfflictionPrefab>)
    ensures r.Some? ==> r.value in table && IdEquals(r.value.identifier, id)
    ensures r.Some? ==> exists k :: 0 <= k < |table| && table[k] == r.value
                          && forall j :: 0 <= j < k ==> !IdEquals(table[j].identifier, id)
    ensures r.None? <==> forall j :: 0 <= j < |table| ==> !IdEquals(table[j].identifier, id)
  {
    if table == [] then None
    else if IdEquals(table[0].identifier, id) then Some(table[0])
    else
      var rest := FindPrefab(table[1..], id);
      if rest.Some? then
        ghost var k :| 0 <= k < |table[1..]| && table[1..][k] == rest.value
                       && forall j :: 0 <= j < k ==> !IdEquals(table[1..][j].identifier, id);
        assert table[k + 1] == rest.value;
        rest
      else
        assert forall j :: 1 <= j < |table| ==> table[j] == table[1..][j - 1];
        rest
  }

  /** The `Prefab` getter: the cached prefab if there is one, else the table lookup by identifier. */
  function ResolvePrefab(a: NetAffliction, table: seq<AfflictionPrefab>): (r: Option<AfflictionPrefab>)
    ensures a.cachedPrefab.Some? ==> r == a.cachedPrefab
    ensures a.cachedPrefab.None? && r.Some? ==> r.value in table && MatchesPrefab(a, r.value)
    ensures a.cachedPrefab.None? && r.Some? ==>
              exists k :: 0 <= k < |table| && table[k] == r.value
                          && forall j :: 0 <= j < k ==> !MatchesPrefab(a, table[j])
    ensures a.cachedPrefab.None? && r.None? ==> forall p :: p in table ==> !MatchesPrefab(a, p)
  {
    if a.cachedPrefab.Some? then a.cachedPrefab else FindPrefab(table, a.identifier)
  }

  /**
    The `Prefab` setter: caches the given prefab (or none), takes its identifier
    (the empty string for none) and resets strength and price to zero.
   */
  function SetPrefab(a: NetAffliction, prefab: Option<AfflictionPrefab>): (r: NetAffliction)
    ensures r.strength == 0 && r.price == 0
    ensures r.identifier == (if prefab.Some? then prefab.value.identifier else "")
    ensures prefab.Some? ==> MatchesPrefab(r, prefab.value)
    ensures forall table :: ResolvePrefab(r, table) == (if prefab.Some? then prefab else FindPrefab(table, ""))
  {
    NetAffliction(if prefab.Some? then prefab.value.identifier else "", 0, 0, prefab)
  }

  // ---------------------------------------------------------------------------
  // Severity

  /**
    Severity of a whole-number strength against an optional definition: Low when
    there is no definition, otherwise by the ratio strength / max strength with
    Low up to and including 0.1, Medium strictly between 0.1 and 0.5, High from 0.5.
   */
  function SeverityOf(strength: nat, prefab: Option<AfflictionPrefab>): (sev: Severity)
    ensures prefab.None? ==> sev == Low
    ensures prefab.Some? ==> (sev == Low <==> 10.0 * strength as real <= prefab.value.maxStrength)
    ensures prefab.Some? ==>
              (sev == Medium <==> (prefab.value.maxStrength < 10.0 * strength as real
                                   && 2.0 * strength as real < prefab.value.maxStrength))
    ensures prefab.Some? ==> (sev == High <==> prefab.value.maxStrength <= 2.0 * strength as real)
  {
    if prefab.None? then Low
    else
      var m := prefab.value.maxStrength;
      var ratio := strength as real / m;
      RatioBounds(strength as real, m, ratio);
      if ratio <= 0.1 then Low
      else if 0.1 < ratio < 0.5 then Medium
      else High
  }

  /** Relates comparisons of a quotient to comparisons of the cross-multiplied values. */
  lemma RatioBounds(s: real, m: real, ratio: real)
    requires m > 0.0 && ratio == s / m
    ensures ratio <= 0.1 <==> 10.0 * s <= m
    ensures ratio < 0.5 <==> 2.0 * s < m
  {
    assert s == ratio * m;
  }

  /** The `AfflictionSeverity` property of a record, resolving its prefab through the table. */
  function SeverityOfRecord(a: NetAffliction, table: seq<AfflictionPrefab>): (sev: Severity)
    ensures ResolvePrefab(a, table).None? ==> sev == Low
  {
    SeverityOf(a.strength, ResolvePrefab(a, table))
  }

  /** Severity never decreases as strength grows against the same definition. */
  lemma SeverityMonotone(s1: nat, s2: nat, prefab: Option<AfflictionPrefab>)
    requires s1 <= s2
    ensures Rank(SeverityOf(s1, prefab)) <= Rank(SeverityOf(s2, prefab))
  {
  }

  /**
    In terms of the quotient r = strength / max strength the source computes:
    Low iff r <= 0.1, Medium iff 0.1 < r < 0.5, High iff r >= 0.5.
   */
  lemma SeverityByRatio(strength: nat, prefab: AfflictionPrefab)
    ensures var r := strength as real / prefab.maxStrength;
            && (SeverityOf(strength, Some(prefab)) == Low <==> r <= 0.1)
            && (SeverityOf(strength, Some(prefab)) == Medium <==> 0.1 < r < 0.5)
            && (SeverityOf(strength, Some(prefab)) == High <==> r >= 0.5)
  {
    RatioBounds(strength as real, prefab.maxStrength, strength as real / prefab.maxStrength);
  }

  // ---------------------------------------------------------------------------
  // Severity as the source computes it, on single-precision floats

  /** The double-precision value of the literal 0.1, 3602879701896397 * 2^-55. */
  const DoubleTenth: real := 3602879701896397.0 / 36028797018963968.0

  /** The single-precision value of the literal 0.1f, 13421773 * 2^-27. */
  const SingleTenth: real := 13421773.0 / 134217728.0

  /**
    Severity as written in the source, given the single-precision quotient `q`
    of strength by max strength: the Low test compares against the double 0.1
    while the Medium test compares against the float 0.1f.
   */
  function SeverityAsWritten(q: real): (sev: Severity)
    ensures sev == Low <==> q <= DoubleTenth
    ensures sev == Medium <==> SingleTenth < q < 0.5
    ensures sev == High <==> (DoubleTenth < q <= SingleTenth || 0.5 <= q)
  {
    if q <= DoubleTenth then Low
    else if SingleTenth < q && q < 0.5 then Medium
    else High
  }

  /**
    0.1f is the single-precision number nearest to one tenth: every number
    k * 2^-27 with a 24-bit significand k (the floats between 1/16 and 1/8)
    is at least as far from 1/10 as 0.1f is. So the quotient 10f / 100f is 0.1f.
   */
  lemma SingleTenthIsNearest(k: int)
    requires 8388608 <= k < 16777216
    ensures var x := k as real / 134217728.0;
            (if x >= 0.1 then x - 0.1 else 0.1 - x) >= SingleTenth - 0.1
  {
    if k <= 13421772 {
      assert k as real / 134217728.0 <= 13421772.0 / 134217728.0;
    } else {
      assert k as real / 134217728.0 >= SingleTenth;
    }
  }

  /**
    The discrepancy: an affliction at exactly one tenth of its maximum (strength
    10 of 100) is Low by the stated thresholds, but its float quotient 0.1f lies
    above the double 0.1 and is not above 0.1f, so the source reports High.
   */
  lemma TenthIsHighAsWritten(prefab: AfflictionPrefab)
    requires prefab.maxStrength == 100.0
    ensures SeverityOf(10, Some(prefab)) == Low
    ensures DoubleTenth < SingleTenth
    ensures SeverityAsWritten(SingleTenth) == High
  {
  }

  // ---------------------------------------------------------------------------
  // Conversion from a live affliction and the healability filter

  /**
    The `Affliction` setter: takes the affliction's identifier, rounds its strength
    up to a whole number and prices it as base cost plus that whole strength times
    the multiplier, truncated. The cached prefab is left as it was.
   */
  function SetAffliction(n: NetAffliction, a: Affliction): (r: NetAffliction)
    ensures r.identifier == a.prefab.identifier
    ensures a.strength <= r.strength as real < a.strength + 1.0
    ensures var exact := a.prefab.baseHealCost as real + r.strength as real * a.prefab.healCostMultiplier;
            r.price as real <= exact < r.price as real + 1.0
    ensures r.cachedPrefab == n.cachedPrefab
  {
    var strength := Ceil(a.strength);
    var price := Truncate(a.prefab.baseHealCost as real + strength as real * a.prefab.healCostMultiplier);
    n.(identifier := a.prefab.identifier, strength := strength, price := price)
  }

  /** The strength an affliction must exceed to show up for treatment: max(0, min(icon, scanner)). */
  function ShowThreshold(prefab: AfflictionPrefab): (t: real)
    ensures t >= 0.0
    ensures (t <= prefab.showIconToOthersThreshold && t <= prefab.showInHealthScannerThreshold) || t == 0.0
    ensures t >= prefab.showIconToOthersThreshold || t >= prefab.showInHealthScannerThreshold
  {
    var lower := if prefab.showIconToOthersThreshold <= prefab.showInHealthScannerThreshold
                 then prefab.showIconToOthersThreshold else prefab.showInHealthScannerThreshold;
    if lower >= 0.0 then lower else 0.0
  }

  /**
    `IsHealable`: the definition is healable at the clinic and the strength is
    above the show threshold. Equivalently: flagged, strictly positive, and above
    at least one of the two display thresholds.
   */
  predicate IsHealable(a: Affliction)
    ensures IsHealable(a) ==> a.strength > 0.0
    ensures IsHealable(a) <==>
              (a.prefab.healableInMedicalClinic && a.strength > 0.0
               && (a.strength > a.prefab.showIconToOthersThreshold
                   || a.strength > a.prefab.showInHealthScannerThreshold))
  {
    a.prefab.healableInMedicalClinic && a.strength > ShowThreshold(a.prefab)
  }
}
