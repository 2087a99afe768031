/**
  The medical clinic's heal transaction (`HealAllPending`): it checks the
  campaign's funds against the ledger's total cost, then whether the outpost is
  in combat, and only then commits, issuing one affliction reduction per
  recorded affliction of every crew member it can find, deducting the cost and
  clearing the ledger. The crew roster, the combat state and the prefab table
  are inputs; the reductions are returned as a log rather than applied.
 */
module Clinic {
  import opened Options
  import opened Afflictions
  import opened Ledger

  datatype HealRequestResult = Unknown | Success | InsufficientFunds | Refused

  /** The clinic's state: its pending heals and the campaign's money (None when there is no campaign). */
  datatype ClinicState = ClinicState(pendingHeals: PendingHeals, campaignMoney: Option<int>)

  /** One `ReduceAffliction` call: which crew member, which affliction kind, by how much. */
  datatype HealCall = HealCall(memberId: int, identifier: string, amount: real)

  /** What a heal request returns and leaves behind. */
  datatype HealOutcome = HealOutcome(result: HealRequestResult, state: ClinicState, heals: seq<HealCall>)

  /** `GetMoney`: the campaign's money, or zero without a campaign. */
  function GetMoney(c: ClinicState): (r: int)
    ensures c.campaignMoney.Some? ==> r == c.campaignMoney.value
    ensures c.campaignMoney.None? ==> r == 0
  {
    c.campaignMoney.GetOr(0)
  }

  /**
    The amount a recorded affliction is reduced by: its definition's maximum
    strength when the definition resolves (so the kind is cleared completely),
    otherwise the recorded strength.
   */
  function HealAmount(a: NetAffliction, table: seq<AfflictionPrefab>): (r: real)
    ensures ResolvePrefab(a, table).Some? ==> r == ResolvePrefab(a, table).value.maxStrength && r > 0.0
    ensures ResolvePrefab(a, table).None? ==> r == a.strength as real
    ensures r >= 0.0
  {
    match ResolvePrefab(a, table)
    case Some(p) => p.maxStrength
    case None => a.strength as real
  }

  /** The entry's member is on the roster with a character that has a health component. */
  predicate Treatable(m: NetCrewMember, crew: seq<CharacterInfo>)
    ensures Treatable(m, crew) <==>
              exists k :: 0 <= k < |crew| && crew[k].id == m.characterInfoId && crew[k].hasHealth
                          && forall j :: 0 <= j < k ==> crew[j].id != m.characterInfoId
  {
    var info := FindCharacterInfo(m, crew);
    FirstRosterMatchUnique(m, crew);
    info.Some? && info.value.hasHealth
  }

  /** The roster member `FindCharacterInfo` returns is the one at the first index with the entry's identifier. */
  lemma FirstRosterMatchUnique(m: NetCrewMember, crew: seq<CharacterInfo>)
    ensures forall k :: 0 <= k < |crew| && crew[k].id == m.characterInfoId
                        && (forall j :: 0 <= j < k ==> crew[j].id != m.characterInfoId)
                        ==> FindCharacterInfo(m, crew) == Some(crew[k])
  {
    forall k | 0 <= k < |crew| && crew[k].id == m.characterInfoId
               && (forall j :: 0 <= j < k ==> crew[j].id != m.characterInfoId)
      ensures FindCharacterInfo(m, crew) == Some(crew[k])
    {
      var r := FindCharacterInfo(m, crew);
      var k' :| 0 <= k' < |crew| && crew[k'] == r.value
                && forall j :: 0 <= j < k' ==> crew[j].id != m.characterInfoId;
    }
  }

  /** The reductions for one entry: one per recorded affliction, in order. */
  function HealsForEntry(m: NetCrewMember, table: seq<AfflictionPrefab>): (r: seq<HealCall>)
    ensures |r| == |m.afflictions|
    ensures forall k :: 0 <= k < |r| ==>
              r[k] == HealCall(m.characterInfoId, m.afflictions[k].identifier, HealAmount(m.afflictions[k], table))
    decreases |m.afflictions|
  {
    if m.afflictions == [] then []
    else
      var rest := HealsForEntry(m.(afflictions := m.afflictions[1..]), table);
      [HealCall(m.characterInfoId, m.afflictions[0].identifier, HealAmount(m.afflictions[0], table))] + rest
  }

  /** The reductions the commit issues, entry by entry in ledger order, skipping members not found. */
  function IssuedHeals(l: PendingHeals, crew: seq<CharacterInfo>, table: seq<AfflictionPrefab>): seq<HealCall>
  {
    if l == [] then []
    else (if Treatable(l[0], crew) then HealsForEntry(l[0], table) else []) + IssuedHeals(l[1..], crew, table)
  }

  /** The number of recorded afflictions of the entries whose member can be treated. */
  function TreatableAfflictions(l: PendingHeals, crew: seq<CharacterInfo>): nat {
    if l == [] then 0
    else (if Treatable(l[0], crew) then |l[0].afflictions| else 0) + TreatableAfflictions(l[1..], crew)
  }

  /**
    `HealAllPending`: unless forced, fails with InsufficientFunds when the money
    is below the total cost (whatever the combat state), else with Refused when
    the outpost is in combat; a failure changes nothing and heals nothing. On
    success (always when forced) it issues the reductions, deducts exactly the
    total cost from the campaign's money (which may go below zero when forced),
    empties the ledger and reports Success. It never reports Unknown.
   */
  function HealAllPending(c: ClinicState, crew: seq<CharacterInfo>, inCombat: bool,
                          table: seq<AfflictionPrefab>, force: bool): (o: HealOutcome)
    ensures o.result != Unknown
    ensures o.result == Success <==> force || (GetMoney(c) >= LedgerCost(c.pendingHeals) && !inCombat)
    ensures !force && GetMoney(c) < LedgerCost(c.pendingHeals) ==> o.result == InsufficientFunds
    ensures !force && GetMoney(c) >= LedgerCost(c.pendingHeals) && inCombat ==> o.result == Refused
    ensures o.result != Success ==> o.state == c && o.heals == []
    ensures o.result == Success ==>
              && o.state.pendingHeals == []
              && o.state.campaignMoney.Some? == c.campaignMoney.Some?
              && (c.campaignMoney.Some? ==>
                    o.state.campaignMoney.value == c.campaignMoney.value - LedgerCost(c.pendingHeals))
              && o.heals == IssuedHeals(c.pendingHeals, crew, table)
  {
    var totalCost := GetTotalCost(c.pendingHeals);
    if !force && GetMoney(c) < totalCost then HealOutcome(InsufficientFunds, c, [])
    else if !force && inCombat then HealOutcome(Refused, c, [])
    else
      var heals := IssuedHeals(c.pendingHeals, crew, table);
      var money := if c.campaignMoney.Some? then Some(c.campaignMoney.value - totalCost) else None;
      HealOutcome(Success, ClinicState(ClearPendingHeals(c.pendingHeals), money), heals)
  }

  // ---------------------------------------------------------------------------
  // The issued reductions

  lemma {:induction false} IssuedHealsAppend(a: PendingHeals, b: PendingHeals, crew: seq<CharacterInfo>,
                                             table: seq<AfflictionPrefab>)
    ensures IssuedHeals(a + b, crew, table) == IssuedHeals(a, crew, table) + IssuedHeals(b, crew, table)
    decreases |a|
  {
    if a != [] {
      assert (a + b)[0] == a[0] && (a + b)[1..] == a[1..] + b;
      IssuedHealsAppend(a[1..], b, crew, table);
    } else {
      assert a + b == b;
    }
  }

  /** One reduction is issued per recorded affliction of every member that can be treated. */
  lemma {:induction false} OneHealPerAffliction(l: PendingHeals, crew: seq<CharacterInfo>, table: seq<AfflictionPrefab>)
    ensures |IssuedHeals(l, crew, table)| == TreatableAfflictions(l, crew)
    ensures |IssuedHeals(l, crew, table)| <= |Flatten(l)|
    ensures (forall k :: 0 <= k < |l| ==> Treatable(l[k], crew)) ==> |IssuedHeals(l, crew, table)| == |Flatten(l)|
    decreases |l|
  {
    if l != [] {
      assert forall k :: 1 <= k < |l| ==> l[k] == l[1..][k - 1];
      OneHealPerAffliction(l[1..], crew, table);
    }
  }

  /**
    Every issued reduction names a treatable ledger member, one of that member's
    recorded affliction kinds, and the heal amount of that record.
   */
  lemma {:induction false} IssuedHealsAreRecorded(l: PendingHeals, crew: seq<CharacterInfo>, table: seq<AfflictionPrefab>)
    ensures forall h :: h in IssuedHeals(l, crew, table) ==>
              exists k, j :: 0 <= k < |l| && Treatable(l[k], crew) && 0 <= j < |l[k].afflictions|
                             && h == HealCall(l[k].characterInfoId, l[k].afflictions[j].identifier,
                                              HealAmount(l[k].afflictions[j], table))
    decreases |l|
  {
    if l != [] {
      IssuedHealsAreRecorded(l[1..], crew, table);
      var head := if Treatable(l[0], crew) then HealsForEntry(l[0], table) else [];
      forall h | h in IssuedHeals(l, crew, table)
        ensures exists k, j :: 0 <= k < |l| && Treatable(l[k], crew) && 0 <= j < |l[k].afflictions|
                               && h == HealCall(l[k].characterInfoId, l[k].afflictions[j].identifier,
                                                HealAmount(l[k].afflictions[j], table))
      {
        if h in head {
          var j :| 0 <= j < |head| && head[j] == h;
          assert Treatable(l[0], crew) && 0 <= j < |l[0].afflictions|;
        } else {
          assert h in IssuedHeals(l[1..], crew, table);
          var k, j :| 0 <= k < |l[1..]| && Treatable(l[1..][k], crew) && 0 <= j < |l[1..][k].afflictions|
                      && h == HealCall(l[1..][k].characterInfoId, l[1..][k].afflictions[j].identifier,
                                       HealAmount(l[1..][k].afflictions[j], table));
          assert l[1..][k] == l[k + 1];
        }
      }
    }
  }

  /** A member that cannot be found on the roster receives no reduction. */
  lemma {:induction false} UntreatableMemberSkipped(l: PendingHeals, crew: seq<CharacterInfo>,
                                                    table: seq<AfflictionPrefab>, id: int)
    requires forall j :: 0 <= j < |crew| ==> crew[j].id != id
    ensures forall h :: h in IssuedHeals(l, crew, table) ==> h.memberId != id
    decreases |l|
  {
    if l != [] {
      UntreatableMemberSkipped(l[1..], crew, table, id);
      if l[0].characterInfoId == id {
        assert FindCharacterInfo(l[0], crew).None?;
      }
    }
  }

  // ---------------------------------------------------------------------------
  // Properties of the transaction

  /** Funds are checked before combat: an unaffordable request is InsufficientFunds even in combat. */
  lemma FundsCheckedBeforeCombat(c: ClinicState, crew: seq<CharacterInfo>, table: seq<AfflictionPrefab>)
    requires GetMoney(c) < GetTotalCost(c.pendingHeals)
    ensures HealAllPending(c, crew, true, table, false).result == InsufficientFunds
    ensures HealAllPending(c, crew, true, table, false).state == c
  {
  }

  /** A forced heal always succeeds and can take the campaign's money below zero. */
  lemma ForcedHealOverdraws(c: ClinicState, crew: seq<CharacterInfo>, inCombat: bool, table: seq<AfflictionPrefab>)
    requires c.campaignMoney.Some? && c.campaignMoney.value < GetTotalCost(c.pendingHeals)
    ensures var o := HealAllPending(c, crew, inCombat, table, true);
            o.result == Success && o.state.campaignMoney.Some? && o.state.campaignMoney.value < 0
  {
  }

  /** Once a heal has succeeded, another successful heal issues nothing and changes nothing. */
  lemma HealAfterSuccessIsNoop(c: ClinicState, crew: seq<CharacterInfo>, table: seq<AfflictionPrefab>,
                               inCombat1: bool, force1: bool, inCombat2: bool, force2: bool)
    requires HealAllPending(c, crew, inCombat1, table, force1).result == Success
    ensures var s := HealAllPending(c, crew, inCombat1, table, force1).state;
            var o := HealAllPending(s, crew, inCombat2, table, force2);
            o.state == s && o.heals == []
  {
  }

  /**
    The worked example: member 1 with a burn (strength 10, price 10) and member 2
    with lacerations (strength 20, price 10) cost 20; with 20 in the bank and no
    combat the heal succeeds, leaves 0 and an empty ledger, and, with no
    definitions to resolve, reduces the burn by 10 and the lacerations by 20.
   */
  lemma WorkedExample()
    ensures var burn := NetAffliction("burn", 10, 10, None);
            var cuts := NetAffliction("lacerations", 20, 10, None);
            var l := [NetCrewMember(1, [burn]), NetCrewMember(2, [cuts])];
            var crew := [CharacterInfo(1, true), CharacterInfo(2, true)];
            var o := HealAllPending(ClinicState(l, Some(20)), crew, false, [], false);
            && GetTotalCost(l) == 20
            && o.result == Success
            && o.state == ClinicState([], Some(0))
            && o.heals == [HealCall(1, "burn", 10.0), HealCall(2, "lacerations", 20.0)]
  {
    var burn := NetAffliction("burn", 10, 10, None);
    var cuts := NetAffliction("lacerations", 20, 10, None);
    var l := [NetCrewMember(1, [burn]), NetCrewMember(2, [cuts])];
    var crew := [CharacterInfo(1, true), CharacterInfo(2, true)];
    assert l[1..] == [NetCrewMember(2, [cuts])];
    assert [burn][1..] == [] && [cuts][1..] == [];
    assert EntryCost(l[0]) == 10 && EntryCost(l[1]) == 10;
    assert LedgerCost(l[1..]) == 10;
    assert LedgerCost(l) == 20;
    assert Treatable(l[0], crew) && Treatable(l[1], crew);
    assert HealsForEntry(l[0], []) == [HealCall(1, "burn", 10.0)];
    assert HealsForEntry(l[1], []) == [HealCall(2, "lacerations", 20.0)];
    assert IssuedHeals(l[1..], crew, []) == [HealCall(2, "lacerations", 20.0)];
    assert IssuedHeals(l, crew, []) == [HealCall(1, "burn", 10.0), HealCall(2, "lacerations", 20.0)];
  }

  // ---------------------------------------------------------------------------
  // Sequences of ledger operations

  /** The requests that act on the clinic's pending heals. */
  datatype ClinicRequest =
    | AddPending(member: NetCrewMember)
    | RemovePending(member: NetCrewMember, affliction: NetAffliction)
    | ClearPending
    | HealPending(force: bool, inCombat: bool)

  /** The clinic state after one request. */
  function Apply(c: ClinicState, q: ClinicRequest, crew: seq<CharacterInfo>, table: seq<AfflictionPrefab>): ClinicState {
    match q
    case AddPending(m) => c.(pendingHeals := InsertPendingCrewMember(c.pendingHeals, m))
    case RemovePending(m, a) => c.(pendingHeals := RemovePendingAffliction(c.pendingHeals, m, a))
    case ClearPending => c.(pendingHeals := ClearPendingHeals(c.pendingHeals))
    case HealPending(force, inCombat) => HealAllPending(c, crew, inCombat, table, force).state
  }

  /** The clinic state after a sequence of requests, applied in order. */
  function ApplyAll(c: ClinicState, qs: seq<ClinicRequest>, crew: seq<CharacterInfo>, table: seq<AfflictionPrefab>): ClinicState
    decreases |qs|
  {
    if qs == [] then c else ApplyAll(Apply(c, qs[0], crew, table), qs[1..], crew, table)
  }

  /** Every added entry carries at least one affliction. */
  predicate AddsNonEmpty(qs: seq<ClinicRequest>) {
    forall k :: 0 <= k < |qs| && qs[k].AddPending? ==> |qs[k].member.afflictions| > 0
  }

  /**
    The ledger invariant (one entry per member, no empty entry) holds after any
    sequence of requests from a well-formed ledger, provided added entries are
    non-empty.
   */
  lemma {:induction false} RequestsKeepWellFormed(c: ClinicState, qs: seq<ClinicRequest>, crew: seq<CharacterInfo>,
                                                  table: seq<AfflictionPrefab>)
    requires WellFormed(c.pendingHeals)
    requires AddsNonEmpty(qs)
    ensures WellFormed(ApplyAll(c, qs, crew, table).pendingHeals)
    decreases |qs|
  {
    if qs != [] {
      var next := Apply(c, qs[0], crew, table);
      if qs[0].AddPending? {
        InsertKeepsWellFormed(c.pendingHeals, qs[0].member);
      }
      assert AddsNonEmpty(qs[1..]) by {
        forall k | 0 <= k < |qs[1..]| && qs[1..][k].AddPending? ensures |qs[1..][k].member.afflictions| > 0 {
          assert qs[1..][k] == qs[k + 1];
        }
      }
      RequestsKeepWellFormed(next, qs[1..], crew, table);
    }
  }

  /** Without a non-empty guard on additions the invariant fails: adding an empty entry keeps it. */
  lemma EmptyAddKeepsEmptyEntry(c: ClinicState, id: int, crew: seq<CharacterInfo>, table: seq<AfflictionPrefab>)
    ensures !NoEmptyEntries(Apply(c, AddPending(NetCrewMember(id, [])), crew, table).pendingHeals)
  {
    var r := Apply(c, AddPending(NetCrewMember(id, [])), crew, table).pendingHeals;
    assert r[|r| - 1].afflictions == [];
  }
}
