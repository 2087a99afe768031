/**
  Scanning a crew member's live afflictions into clinic records
  (`GetAllAfflictions`): only healable afflictions are kept, afflictions of the
  same kind are merged into one record per identifier, and every price passes
  through the location's price adjustment (`GetAdjustedPrice`).
 */
module AfflictionScan {
  import opened Options
  import opened Identifiers
  import opened Afflictions
  import opened Sequences

  /** `int.MaxValue`, the price of a heal where no outpost can provide it. */
  const IntMax: nat := 2147483647

  /**
    Where the crew is: at a location with an outpost, whose heal-cost adjustment
    is given as a function, or anywhere else (including no campaign or no map).
   */
  datatype PriceEnv = NoOutpost | Outpost(adjustedHealCost: nat -> nat)

  /** `GetAdjustedPrice`: the location's adjusted heal cost, or `int.MaxValue` without an outpost. */
  function AdjustedPrice(env: PriceEnv, price: nat): (r: nat)
    ensures env.NoOutpost? ==> r == IntMax
  {
    match env
    case NoOutpost => IntMax
    case Outpost(adjust) => adjust(price)
  }

  /** `GetHealPrice`: base cost plus the live strength times the multiplier, truncated. */
  function HealPrice(a: Affliction): (r: nat)
    ensures var exact := a.prefab.baseHealCost as real + a.prefab.healCostMultiplier * a.strength;
            r as real <= exact < r as real + 1.0
  {
    Truncate(a.prefab.baseHealCost as real + a.prefab.healCostMultiplier * a.strength)
  }

  /** The identifier a record is matched by. */
  function Key(a: NetAffliction): string {
    Fold(a.identifier)
  }

  /** The set of identifier keys of a record list. */
  function KeySet(records: seq<NetAffliction>): set<string> {
    set k | 0 <= k < |records| :: Key(records[k])
  }

  /** No two records name the same affliction, ignoring case. */
  predicate DistinctKeys(records: seq<NetAffliction>) {
    forall i, j :: 0 <= i < j < |records| ==> Key(records[i]) != Key(records[j])
  }

  /** The identifier keys of the healable afflictions of a list. */
  function HealableKeys(raw: seq<Affliction>): set<string> {
    set j | 0 <= j < |raw| && IsHealable(raw[j]) :: Fold(raw[j].prefab.identifier)
  }

  /** Index of the first record whose identifier matches the prefab, ignoring case. */
  function FindRecord(records: seq<NetAffliction>, prefab: AfflictionPrefab): (r: Option<nat>)
    ensures r.Some? ==> r.value < |records| && MatchesPrefab(records[r.value], prefab)
                        && forall j :: 0 <= j < r.value ==> !MatchesPrefab(records[j], prefab)
    ensures r.None? ==> forall j :: 0 <= j < |records| ==> !MatchesPrefab(records[j], prefab)
  {
    if records == [] then None
    else if MatchesPrefab(records[0], prefab) then Some(0)
    else
      match FindRecord(records[1..], prefab)
      case None => None
      case Some(i) => Some(i + 1)
  }

  /**
    One step of the scan: if a record of the same kind exists it is taken out,
    its strength grows by the truncated live strength and its price by the
    adjusted heal price, and it is put back at the end; otherwise a new record is
    made from the affliction, its price adjusted, and appended.
   */
  function MergeAffliction(records: seq<NetAffliction>, a: Affliction, env: PriceEnv): (r: seq<NetAffliction>)
    ensures |r| > 0 && MatchesPrefab(r[|r| - 1], a.prefab)
    ensures FindRecord(records, a.prefab).Some? ==>
              var i := FindRecord(records, a.prefab).value;
              && r == RemoveAt(records, i) + [r[|r| - 1]]
              && r[|r| - 1].identifier == records[i].identifier
              && r[|r| - 1].strength == records[i].strength + Truncate(a.strength)
              && r[|r| - 1].price == records[i].price + AdjustedPrice(env, HealPrice(a))
              && r[|r| - 1].cachedPrefab == records[i].cachedPrefab
    ensures FindRecord(records, a.prefab).None? ==>
              && r == records + [r[|r| - 1]]
              && r[|r| - 1].identifier == a.prefab.identifier
              && a.strength <= r[|r| - 1].strength as real < a.strength + 1.0
              && r[|r| - 1].price == AdjustedPrice(env, SetAffliction(Blank, a).price)
              && r[|r| - 1].cachedPrefab.None?
  {
    match FindRecord(records, a.prefab)
    case Some(i) =>
      var found := records[i];
      var merged := found.(strength := found.strength + Truncate(a.strength),
                           price := found.price + AdjustedPrice(env, HealPrice(a)));
      RemoveAt(records, i) + [merged]
    case None =>
      var created := SetAffliction(Blank, a);
      records + [created.(price := AdjustedPrice(env, created.price))]
  }

  /** Moving a record to the end with its key unchanged keeps the key set and distinctness. */
  lemma MoveToEndKeys(s: seq<NetAffliction>, i: nat, x: NetAffliction)
    requires i < |s| && Key(x) == Key(s[i]) && DistinctKeys(s)
    ensures var r := RemoveAt(s, i) + [x];
            && DistinctKeys(r)
            && KeySet(r) == KeySet(s)
            && (forall k :: 0 <= k < |r| - 1 ==> r[k] in s)
  {
    var r := RemoveAt(s, i) + [x];
    var last := |r| - 1;
    forall k | 0 <= k < last ensures r[k] == s[if k < i then k else k + 1] { }
    forall y | y in KeySet(s) ensures y in KeySet(r) {
      var k :| 0 <= k < |s| && Key(s[k]) == y;
      if k < i { assert Key(r[k]) == y; }
      else if k == i { assert Key(r[last]) == y; }
      else { assert Key(r[k - 1]) == y; }
    }
    forall y | y in KeySet(r) ensures y in KeySet(s) {
      var k :| 0 <= k < |r| && Key(r[k]) == y;
      if k == last { assert Key(s[i]) == y; }
      else { assert Key(s[if k < i then k else k + 1]) == y; }
    }
    forall p, q | 0 <= p < q < |r| ensures Key(r[p]) != Key(r[q]) {
      var p' := if p < i then p else p + 1;
      var q' := if q == last then i else if q < i then q else q + 1;
      assert Key(r[p]) == Key(s[p']) && Key(r[q]) == Key(s[q']) && p' != q';
    }
  }

  /** Appending a record with a new key adds exactly that key and keeps distinctness. */
  lemma AppendKeys(s: seq<NetAffliction>, x: NetAffliction)
    requires DistinctKeys(s)
    requires forall k :: 0 <= k < |s| ==> Key(s[k]) != Key(x)
    ensures DistinctKeys(s + [x])
    ensures KeySet(s + [x]) == KeySet(s) + {Key(x)}
  {
    var r := s + [x];
    forall y | y in KeySet(s) ensures y in KeySet(r) {
      var k :| 0 <= k < |s| && Key(s[k]) == y;
      assert Key(r[k]) == y;
    }
    assert Key(r[|s|]) == Key(x);
  }

  /** Merging keeps record keys distinct, adds exactly the affliction's key and keeps every strength positive. */
  lemma MergeKeepsInvariant(records: seq<NetAffliction>, a: Affliction, env: PriceEnv)
    requires DistinctKeys(records)
    requires a.strength > 0.0
    requires forall k :: 0 <= k < |records| ==> records[k].strength > 0
    ensures var r := MergeAffliction(records, a, env);
            && DistinctKeys(r)
            && KeySet(r) == KeySet(records) + {Fold(a.prefab.identifier)}
            && (forall k :: 0 <= k < |r| ==> r[k].strength > 0)
            && |r| <= |records| + 1
  {
    var r := MergeAffliction(records, a, env);
    var x := r[|r| - 1];
    assert Key(x) == Fold(a.prefab.identifier);
    match FindRecord(records, a.prefab)
    case Some(i) =>
      assert Key(records[i]) == Fold(a.prefab.identifier);
      MoveToEndKeys(records, i, x);
    case None =>
      forall k | 0 <= k < |records| ensures Key(records[k]) != Key(x) {
        assert !MatchesPrefab(records[k], a.prefab);
      }
      AppendKeys(records, x);
  }

  /**
    The scan loop from a partial result: folds `MergeAffliction` over the healable
    afflictions of `raw`, in order, skipping the rest.
   */
  function MergeAll(records: seq<NetAffliction>, raw: seq<Affliction>, env: PriceEnv): (r: seq<NetAffliction>)
    requires DistinctKeys(records)
    requires forall k :: 0 <= k < |records| ==> records[k].strength > 0
    ensures DistinctKeys(r)
    ensures KeySet(r) == KeySet(records) + HealableKeys(raw)
    ensures forall k :: 0 <= k < |r| ==> r[k].strength > 0
    ensures |r| <= |records| + |raw|
    decreases |raw|
  {
    if raw == [] then
      assert HealableKeys(raw) == {};
      records
    else
      var next := if IsHealable(raw[0]) then MergeAffliction(records, raw[0], env) else records;
      assert && DistinctKeys(next)
             && KeySet(next) == KeySet(records) + (if IsHealable(raw[0]) then {Fold(raw[0].prefab.identifier)} else {})
             && (forall k :: 0 <= k < |next| ==> next[k].strength > 0)
             && |next| <= |records| + 1
      by {
        if IsHealable(raw[0]) { MergeKeepsInvariant(records, raw[0], env); }
      }
      HealableKeysCons(raw);
      MergeAll(next, raw[1..], env)
  }

  /** The healable keys of a list are those of its head (if healable) and of its tail. */
  lemma HealableKeysCons(raw: seq<Affliction>)
    requires raw != []
    ensures HealableKeys(raw) == (if IsHealable(raw[0]) then {Fold(raw[0].prefab.identifier)} else {})
                                 + HealableKeys(raw[1..])
  {
    var tail := raw[1..];
    forall x | x in HealableKeys(tail) ensures x in HealableKeys(raw) {
      var j :| 0 <= j < |tail| && IsHealable(tail[j]) && Fold(tail[j].prefab.identifier) == x;
      assert raw[j + 1] == tail[j];
    }
    forall x | x in HealableKeys(raw)
      ensures x in (if IsHealable(raw[0]) then {Fold(raw[0].prefab.identifier)} else {}) + HealableKeys(tail)
    {
      var j :| 0 <= j < |raw| && IsHealable(raw[j]) && Fold(raw[j].prefab.identifier) == x;
      if j > 0 { assert tail[j - 1] == raw[j]; }
    }
  }

  /**
    `GetAllAfflictions`: the records of a character's live afflictions. Exactly
    the healable kinds are present, each once (ignoring case), each with positive
    strength, and there are never more records than afflictions.
   */
  function GetAllAfflictions(health: seq<Affliction>, env: PriceEnv): (r: seq<NetAffliction>)
    ensures DistinctKeys(r)
    ensures KeySet(r) == HealableKeys(health)
    ensures forall k :: 0 <= k < |r| ==> r[k].strength > 0
    ensures |r| <= |health|
  {
    assert KeySet([]) == {};
    MergeAll([], health, env)
  }

  /**
    Without an outpost every scanned record is priced at `int.MaxValue` or more.
    This holds for the unbounded prices of this model; the source's 16-bit price
    fields cut the sentinel down to 65535.
   */
  lemma NoOutpostPricesUnpayable(health: seq<Affliction>)
    ensures forall k :: 0 <= k < |GetAllAfflictions(health, NoOutpost)| ==> GetAllAfflictions(health, NoOutpost)[k].price >= IntMax
  {
    MergeAllPriceFloor([], health);
    assert GetAllAfflictions(health, NoOutpost) == MergeAll([], health, NoOutpost);
  }

  /** Merging without an outpost keeps every (unbounded) price at or above `int.MaxValue`. */
  lemma {:induction false} MergeAllPriceFloor(records: seq<NetAffliction>, raw: seq<Affliction>)
    requires DistinctKeys(records)
    requires forall k :: 0 <= k < |records| ==> records[k].strength > 0
    requires forall k :: 0 <= k < |records| ==> records[k].price >= IntMax
    ensures var r := MergeAll(records, raw, NoOutpost);
            forall k :: 0 <= k < |r| ==> r[k].price >= IntMax
    decreases |raw|
  {
    if raw != [] {
      var next := if IsHealable(raw[0]) then MergeAffliction(records, raw[0], NoOutpost) else records;
      if IsHealable(raw[0]) {
        MergeKeepsInvariant(records, raw[0], NoOutpost);
        MergeKeepsPriceFloor(records, raw[0]);
      }
      assert MergeAll(records, raw, NoOutpost) == MergeAll(next, raw[1..], NoOutpost);
      MergeAllPriceFloor(next, raw[1..]);
    }
  }

  /** One merge step without an outpost keeps every price at or above `int.MaxValue`. */
  lemma MergeKeepsPriceFloor(records: seq<NetAffliction>, a: Affliction)
    requires forall k :: 0 <= k < |records| ==> records[k].price >= IntMax
    ensures var r := MergeAffliction(records, a, NoOutpost);
            forall k :: 0 <= k < |r| ==> r[k].price >= IntMax
  {
    var r := MergeAffliction(records, a, NoOutpost);
    match FindRecord(records, a.prefab)
    case Some(i) =>
      forall k | 0 <= k < |r| - 1 ensures r[k] == records[if k < i then k else k + 1] { }
    case None =>
      forall k | 0 <= k < |r| - 1 ensures r[k] == records[k] { }
  }
}
