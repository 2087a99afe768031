/**
  The clinic's pending heals: an ordered list of crew entries, each a crew
  member's stable identifier with the affliction records chosen for treatment.
  Entries are inserted (replacing the member's earlier entry), pruned one
  affliction kind at a time, cleared, and priced.
 */
module Ledger {
  import opened Options
  import opened Afflictions
  import opened Sequences

  /** A crew member in the ledger: the character's stable identifier and the afflictions to heal. */
  datatype NetCrewMember = NetCrewMember(characterInfoId: int, afflictions: seq<NetAffliction>)

  /** A member of the live crew roster: its stable identifier and whether it has a spawned character with a health component. */
  datatype CharacterInfo = CharacterInfo(id: int, hasHealth: bool)

  type PendingHeals = seq<NetCrewMember>

  /** `CharacterEquals`: two entries refer to the same crew member. */
  predicate CharacterEquals(a: NetCrewMember, b: NetCrewMember)
    ensures CharacterEquals(a, b) <==> a.characterInfoId in Ids([b])
    ensures CharacterEquals(a, b) <==> CountOf([b], a.characterInfoId) == 1
  {
    assert [b][0] == b;
    b.characterInfoId == a.characterInfoId
  }

  /** `FindCharacterInfo`: the first roster member whose identifier is the entry's, if any. */
  function FindCharacterInfo(m: NetCrewMember, crew: seq<CharacterInfo>): (r: Option<CharacterInfo>)
    ensures r.Some? ==> exists k :: 0 <= k < |crew| && crew[k] == r.value
                          && forall j :: 0 <= j < k ==> crew[j].id != m.characterInfoId
    ensures r.Some? ==> r.value.id == m.characterInfoId
    ensures r.None? <==> forall j :: 0 <= j < |crew| ==> crew[j].id != m.characterInfoId
  {
    if crew == [] then None
    else if crew[0].id == m.characterInfoId then Some(crew[0])
    else
      var rest := FindCharacterInfo(m, crew[1..]);
      if rest.Some? then
        ghost var k :| 0 <= k < |crew[1..]| && crew[1..][k] == rest.value
                       && forall j :: 0 <= j < k ==> crew[1..][j].id != m.characterInfoId;
        assert crew[k + 1] == rest.value;
        rest
      else
        assert forall j :: 1 <= j < |crew| ==> crew[j] == crew[1..][j - 1];
        rest
  }

  // ---------------------------------------------------------------------------
  // Views of a ledger

  /** How many entries the ledger holds for member `id`. */
  function CountOf(l: PendingHeals, id: int): nat {
    if l == [] then 0 else (if l[0].characterInfoId == id then 1 else 0) + CountOf(l[1..], id)
  }

  /** The entries of members other than `id`, in ledger order. */
  function Others(l: PendingHeals, id: int): PendingHeals {
    if l == [] then []
    else (if l[0].characterInfoId != id then [l[0]] else []) + Others(l[1..], id)
  }

  /** The entries of member `id`, in ledger order. */
  function EntriesOf(l: PendingHeals, id: int): PendingHeals {
    if l == [] then []
    else (if l[0].characterInfoId == id then [l[0]] else []) + EntriesOf(l[1..], id)
  }

  /** The entries that still hold at least one affliction, in ledger order. */
  function NonEmpty(l: PendingHeals): PendingHeals {
    if l == [] then []
    else (if |l[0].afflictions| > 0 then [l[0]] else []) + NonEmpty(l[1..])
  }

  /** The member identifiers present in the ledger. */
  function Ids(l: PendingHeals): set<int> {
    set k | 0 <= k < |l| :: l[k].characterInfoId
  }

  /** Each crew member has at most one entry. */
  predicate UniqueMembers(l: PendingHeals) {
    forall i, j :: 0 <= i < j < |l| ==> l[i].characterInfoId != l[j].characterInfoId
  }

  /** No entry is left without afflictions. */
  predicate NoEmptyEntries(l: PendingHeals) {
    forall k :: 0 <= k < |l| ==> |l[k].afflictions| > 0
  }

  /** The ledger invariant: one entry per member, none empty. */
  predicate WellFormed(l: PendingHeals) {
    UniqueMembers(l) && NoEmptyEntries(l)
  }

  lemma {:induction false} CountAppend(a: PendingHeals, b: PendingHeals, id: int)
    ensures CountOf(a + b, id) == CountOf(a, id) + CountOf(b, id)
    decreases |a|
  {
    if a != [] {
      assert (a + b)[0] == a[0] && (a + b)[1..] == a[1..] + b;
      CountAppend(a[1..], b, id);
    } else {
      assert a + b == b;
    }
  }

  lemma {:induction false} OthersAppend(a: PendingHeals, b: PendingHeals, id: int)
    ensures Others(a + b, id) == Others(a, id) + Others(b, id)
    decreases |a|
  {
    if a != [] {
      assert (a + b)[0] == a[0] && (a + b)[1..] == a[1..] + b;
      OthersAppend(a[1..], b, id);
    } else {
      assert a + b == b;
    }
  }

  lemma {:induction false} CountIsZero(l: PendingHeals, id: int)
    ensures CountOf(l, id) == 0 <==> forall k :: 0 <= k < |l| ==> l[k].characterInfoId != id
    decreases |l|
  {
    if l != [] {
      CountIsZero(l[1..], id);
      assert forall k :: 1 <= k < |l| ==> l[k] == l[1..][k - 1];
    }
  }

  // ---------------------------------------------------------------------------
  // InsertPendingCrewMember

  /** Index of the first entry for member `id`. */
  function FirstEntry(l: PendingHeals, id: int): (r: Option<nat>)
    ensures r.Some? ==> r.value < |l| && l[r.value].characterInfoId == id
                        && forall j :: 0 <= j < r.value ==> l[j].characterInfoId != id
    ensures r.None? ==> forall j :: 0 <= j < |l| ==> l[j].characterInfoId != id
  {
    if l == [] then None
    else if l[0].characterInfoId == id then Some(0)
    else
      match FirstEntry(l[1..], id)
      case None => None
      case Some(i) => Some(i + 1)
  }

  /**
    `InsertPendingCrewMember`: the first entry of the same member (if any) is
    removed and the new entry is appended. The new entry is last; the other
    members' entries are unchanged and in order; the member's entry count stays
    the same (or becomes one), so a member that had at most one entry has
    exactly one afterwards.
   */
  function InsertPendingCrewMember(l: PendingHeals, m: NetCrewMember): (r: PendingHeals)
    ensures |r| > 0 && r[|r| - 1] == m
    ensures Others(r, m.characterInfoId) == Others(l, m.characterInfoId)
    ensures CountOf(l, m.characterInfoId) == 0 ==> CountOf(r, m.characterInfoId) == 1 && |r| == |l| + 1
    ensures CountOf(l, m.characterInfoId) > 0 ==> CountOf(r, m.characterInfoId) == CountOf(l, m.characterInfoId) && |r| == |l|
  {
    var id := m.characterInfoId;
    match FirstEntry(l, id)
    case Some(i) =>
      CountIsZero(l, id);
      InsertReplacingOthers(l, i, m);
      InsertReplacingCount(l, i, m);
      RemoveAt(l, i) + [m]
    case None =>
      CountIsZero(l, id);
      CountAppend(l, [m], id);
      OthersAppend(l, [m], id);
      l + [m]
  }

  lemma InsertReplacingOthers(l: PendingHeals, i: nat, m: NetCrewMember)
    requires i < |l| && l[i].characterInfoId == m.characterInfoId
    ensures Others(RemoveAt(l, i) + [m], m.characterInfoId) == Others(l, m.characterInfoId)
  {
    var id := m.characterInfoId;
    var pre, post := l[..i], l[i + 1..];
    SplitAt(l, i);
    OthersAround(pre, l[i], post, id);
    OthersSkip(pre + post, m, id);
  }

  /** Dropping one entry of member `id` does not change the other members' entries. */
  lemma OthersAround(pre: PendingHeals, x: NetCrewMember, post: PendingHeals, id: int)
    requires x.characterInfoId == id
    ensures Others(pre + ([x] + post), id) == Others(pre + post, id)
  {
    OthersAppend(pre, [x] + post, id);
    OthersAppend([x], post, id);
    assert [x][0] == x && [x][1..] == [];
    assert Others([x], id) == [];
    OthersAppend(pre, post, id);
  }

  /** Appending an entry of member `id` does not change the other members' entries. */
  lemma OthersSkip(l: PendingHeals, x: NetCrewMember, id: int)
    requires x.characterInfoId == id
    ensures Others(l + [x], id) == Others(l, id)
  {
    OthersAppend(l, [x], id);
    assert Others([x], id) == [];
  }

  lemma InsertReplacingCount(l: PendingHeals, i: nat, m: NetCrewMember)
    requires i < |l| && l[i].characterInfoId == m.characterInfoId
    ensures CountOf(RemoveAt(l, i) + [m], m.characterInfoId) == CountOf(l, m.characterInfoId)
  {
    var id := m.characterInfoId;
    var pre, post := l[..i], l[i + 1..];
    assert l == pre + ([l[i]] + post);
    assert RemoveAt(l, i) + [m] == pre + (post + [m]);
    CountAppend(pre, [l[i]] + post, id);
    CountAppend(pre, post + [m], id);
    CountAppend([l[i]], post, id);
    CountAppend(post, [m], id);
    assert CountOf([l[i]], id) == 1 && CountOf([m], id) == 1;
  }

  /** Inserting keeps the ledger invariant when the inserted entry is non-empty. */
  lemma InsertKeepsWellFormed(l: PendingHeals, m: NetCrewMember)
    requires WellFormed(l)
    requires |m.afflictions| > 0
    ensures WellFormed(InsertPendingCrewMember(l, m))
  {
    var r := InsertPendingCrewMember(l, m);
    var id := m.characterInfoId;
    match FirstEntry(l, id)
    case Some(i) =>
      forall p | 0 <= p < |r| - 1 ensures r[p] == l[if p < i then p else p + 1] { }
      forall p, q | 0 <= p < q < |r| ensures r[p].characterInfoId != r[q].characterInfoId {
        var p' := if p < i then p else p + 1;
        if q < |r| - 1 {
          var q' := if q < i then q else q + 1;
          assert r[p] == l[p'] && r[q] == l[q'];
        } else {
          assert r[p] == l[p'] && p' != i;
        }
      }
    case None =>
      assert forall p :: 0 <= p < |l| ==> r[p] == l[p];
  }

  /** Inserting the same entry twice is the same as inserting it once. */
  lemma InsertIdempotent(l: PendingHeals, m: NetCrewMember)
    requires UniqueMembers(l)
    ensures InsertPendingCrewMember(InsertPendingCrewMember(l, m), m) == InsertPendingCrewMember(l, m)
  {
    var r := InsertPendingCrewMember(l, m);
    var id := m.characterInfoId;
    forall p | 0 <= p < |r| - 1 ensures r[p].characterInfoId != id {
      match FirstEntry(l, id)
      case Some(i) =>
        var j := if p < i then p else p + 1;
        assert r[p] == l[j] && j != i;
      case None =>
        assert r[p] == l[p];
    }
    assert FirstEntry(r, id) == Some(|r| - 1) by {
      FirstEntryAt(r, |r| - 1, id);
    }
    assert RemoveAt(r, |r| - 1) + [m] == r;
  }

  /** The first entry of a member is at `i` when the member is at `i` and not before. */
  lemma {:induction false} FirstEntryAt(l: PendingHeals, i: nat, id: int)
    requires i < |l| && l[i].characterInfoId == id
    requires forall p :: 0 <= p < i ==> l[p].characterInfoId != id
    ensures FirstEntry(l, id) == Some(i)
    decreases i
  {
    if i > 0 {
      FirstEntryAt(l[1..], i - 1, id);
    }
  }

  // ---------------------------------------------------------------------------
  // RemovePendingAffliction

  /** The afflictions of a list that are not of the given kind, in their order. */
  function Without(s: seq<NetAffliction>, a: NetAffliction): (r: seq<NetAffliction>)
    ensures forall k :: 0 <= k < |r| ==> r[k] in s && !SameAffliction(r[k], a)
    ensures forall k :: 0 <= k < |s| && !SameAffliction(s[k], a) ==> s[k] in r
    ensures |r| <= |s|
  {
    if s == [] then []
    else (if SameAffliction(s[0], a) then [] else [s[0]]) + Without(s[1..], a)
  }

  /** Removing an affliction kind distributes over concatenation: the kept afflictions keep their order. */
  lemma {:induction false} WithoutAppend(s: seq<NetAffliction>, t: seq<NetAffliction>, a: NetAffliction)
    ensures Without(s + t, a) == Without(s, a) + Without(t, a)
    decreases |s|
  {
    if s != [] {
      assert (s + t)[0] == s[0] && (s + t)[1..] == s[1..] + t;
      WithoutAppend(s[1..], t, a);
    } else {
      assert s + t == t;
    }
  }

  /** Removing a kind from a list holding only that kind leaves nothing. */
  lemma {:induction false} WithoutAllMatching(s: seq<NetAffliction>, a: NetAffliction)
    requires forall x :: x in s ==> SameAffliction(x, a)
    ensures Without(s, a) == []
    decreases |s|
  {
    if s != [] {
      assert forall x :: x in s[1..] ==> x in s;
      WithoutAllMatching(s[1..], a);
    }
  }

  /** The entry after removing affliction `a` from it when it belongs to `member`. */
  function Pruned(e: NetCrewMember, member: NetCrewMember, a: NetAffliction): NetCrewMember {
    if CharacterEquals(e, member) then e.(afflictions := Without(e.afflictions, a)) else e
  }

  /** The member's entries with affliction `a` removed from each. */
  function PrunedAll(l: PendingHeals, a: NetAffliction): PendingHeals {
    if l == [] then [] else [l[0].(afflictions := Without(l[0].afflictions, a))] + PrunedAll(l[1..], a)
  }

  /**
    `RemovePendingAffliction`: every entry is taken out in turn; the member's
    entry loses every affliction of the given kind; entries left empty are
    dropped, the rest are put back in their original order. Afterwards no entry
    is empty, no entry of the member holds an affliction of that kind, no member
    is added, and one entry per member is kept one entry per member.
   */
  function RemovePendingAffliction(l: PendingHeals, member: NetCrewMember, a: NetAffliction): (r: PendingHeals)
    ensures NoEmptyEntries(r)
    ensures forall k :: 0 <= k < |r| && r[k].characterInfoId == member.characterInfoId
                        ==> forall x :: x in r[k].afflictions ==> !SameAffliction(x, a)
    ensures Ids(r) <= Ids(l)
    ensures UniqueMembers(l) ==> UniqueMembers(r)
    ensures |r| <= |l|
  {
    if l == [] then []
    else
      var e := Pruned(l[0], member, a);
      var rest := RemovePendingAffliction(l[1..], member, a);
      RemoveStep(l, e, rest);
      (if |e.afflictions| > 0 then [e] else []) + rest
  }

  /** Ids and uniqueness facts for one step of the removal. */
  lemma RemoveStep(l: PendingHeals, e: NetCrewMember, rest: PendingHeals)
    requires l != [] && e.characterInfoId == l[0].characterInfoId
    requires Ids(rest) <= Ids(l[1..])
    requires UniqueMembers(l[1..]) ==> UniqueMembers(rest)
    ensures var r := (if |e.afflictions| > 0 then [e] else []) + rest;
            && Ids(r) <= Ids(l)
            && (UniqueMembers(l) ==> UniqueMembers(r))
  {
    var r := (if |e.afflictions| > 0 then [e] else []) + rest;
    assert forall k :: 1 <= k < |l| ==> l[k] == l[1..][k - 1];
    assert Ids(l) == {l[0].characterInfoId} + Ids(l[1..]);
    if |e.afflictions| > 0 {
      assert forall k :: 1 <= k < |r| ==> r[k] == rest[k - 1];
      forall x | x in Ids(r) ensures x in Ids(l) {
        var k :| 0 <= k < |r| && r[k].characterInfoId == x;
        if k > 0 { assert rest[k - 1].characterInfoId == x; }
      }
      if UniqueMembers(l) {
        assert l[0].characterInfoId !in Ids(l[1..]);
        forall p, q | 0 <= p < q < |r| ensures r[p].characterInfoId != r[q].characterInfoId {
          if p == 0 { assert r[q].characterInfoId in Ids(rest); }
          else { assert r[p] == rest[p - 1] && r[q] == rest[q - 1]; }
        }
      }
    } else {
      assert r == rest;
    }
  }

  /** Every entry with the member's entries pruned of affliction `a`, in ledger order. */
  function PrunedEach(l: PendingHeals, member: NetCrewMember, a: NetAffliction): PendingHeals {
    if l == [] then [] else [Pruned(l[0], member, a)] + PrunedEach(l[1..], member, a)
  }

  /**
    The whole order is kept: the result is the ledger with every entry pruned in
    place and the empty ones dropped, so the member's pruned entry stays where
    the member's entry was among the others.
   */
  lemma {:induction false} RemoveKeepsOrder(l: PendingHeals, member: NetCrewMember, a: NetAffliction)
    ensures RemovePendingAffliction(l, member, a) == NonEmpty(PrunedEach(l, member, a))
    decreases |l|
  {
    if l != [] {
      RemoveKeepsOrder(l[1..], member, a);
      var p := PrunedEach(l, member, a);
      assert p[0] == Pruned(l[0], member, a) && p[1..] == PrunedEach(l[1..], member, a);
    }
  }

  /** Removal leaves other members' entries as they were, in order, minus any already empty. */
  lemma {:induction false} RemoveKeepsOthers(l: PendingHeals, member: NetCrewMember, a: NetAffliction)
    ensures Others(RemovePendingAffliction(l, member, a), member.characterInfoId)
            == NonEmpty(Others(l, member.characterInfoId))
    decreases |l|
  {
    if l != [] {
      var id := member.characterInfoId;
      var e := Pruned(l[0], member, a);
      var rest := RemovePendingAffliction(l[1..], member, a);
      RemoveKeepsOthers(l[1..], member, a);
      OthersAppend(if |e.afflictions| > 0 then [e] else [], rest, id);
      NonEmptyAppend(if l[0].characterInfoId != id then [l[0]] else [], Others(l[1..], id));
    }
  }

  /** Removal turns the member's entries into their pruned, non-empty versions, in order. */
  lemma {:induction false} RemoveMemberEntries(l: PendingHeals, member: NetCrewMember, a: NetAffliction)
    ensures EntriesOf(RemovePendingAffliction(l, member, a), member.characterInfoId)
            == NonEmpty(PrunedAll(EntriesOf(l, member.characterInfoId), a))
    decreases |l|
  {
    if l != [] {
      var id := member.characterInfoId;
      var e := Pruned(l[0], member, a);
      var rest := RemovePendingAffliction(l[1..], member, a);
      RemoveMemberEntries(l[1..], member, a);
      EntriesOfAppend(if |e.afflictions| > 0 then [e] else [], rest, id);
      var head := if l[0].characterInfoId == id then [l[0]] else [];
      PrunedAllAppend(head, EntriesOf(l[1..], id), a);
      NonEmptyAppend(PrunedAll(head, a), PrunedAll(EntriesOf(l[1..], id), a));
    }
  }

  lemma {:induction false} NonEmptyAppend(a: PendingHeals, b: PendingHeals)
    ensures NonEmpty(a + b) == NonEmpty(a) + NonEmpty(b)
    decreases |a|
  {
    if a == [] {
      assert a + b == b;
    } else {
      var ab := a + b;
      assert ab[0] == a[0] && ab[1..] == a[1..] + b;
      NonEmptyAppend(a[1..], b);
      if |a[0].afflictions| > 0 {
        calc {
          NonEmpty(ab);
          [a[0]] + NonEmpty(a[1..] + b);
          [a[0]] + (NonEmpty(a[1..]) + NonEmpty(b));
          ([a[0]] + NonEmpty(a[1..])) + NonEmpty(b);
        }
      }
    }
  }

  lemma {:induction false} PrunedAllAppend(a: PendingHeals, b: PendingHeals, x: NetAffliction)
    ensures PrunedAll(a + b, x) == PrunedAll(a, x) + PrunedAll(b, x)
    decreases |a|
  {
    if a != [] {
      assert (a + b)[0] == a[0] && (a + b)[1..] == a[1..] + b;
      PrunedAllAppend(a[1..], b, x);
    } else {
      assert a + b == b;
    }
  }

  /** Removing the member's only affliction kind drops the member's entry altogether. */
  lemma RemoveLastAffliction(l: PendingHeals, member: NetCrewMember, a: NetAffliction, i: nat)
    requires UniqueMembers(l) && i < |l| && CharacterEquals(l[i], member)
    requires forall x :: x in l[i].afflictions ==> SameAffliction(x, a)
    ensures CountOf(RemovePendingAffliction(l, member, a), member.characterInfoId) == 0
  {
    var r := RemovePendingAffliction(l, member, a);
    var id := member.characterInfoId;
    EntriesOfUnique(l, i);
    WithoutAllMatching(l[i].afflictions, a);
    RemoveMemberEntries(l, member, a);
    assert PrunedAll([l[i]], a) == [l[i].(afflictions := [])];
    assert NonEmpty(PrunedAll([l[i]], a)) == [];
    CountIsEntries(r, id);
  }

  /** The number of entries of a member is the length of its entry list. */
  lemma {:induction false} CountIsEntries(l: PendingHeals, id: int)
    ensures CountOf(l, id) == |EntriesOf(l, id)|
    decreases |l|
  {
    if l != [] {
      CountIsEntries(l[1..], id);
    }
  }

  /** In a ledger with one entry per member, the entries of a present member are just that one. */
  lemma EntriesOfUnique(l: PendingHeals, i: nat)
    requires UniqueMembers(l) && i < |l|
    ensures EntriesOf(l, l[i].characterInfoId) == [l[i]]
  {
    var pre, post := l[..i], l[i + 1..];
    UniqueAround(l, i, pre, post);
    SplitAt(l, i);
    EntriesOfSplit(pre, l[i], post, l[i].characterInfoId);
  }

  /** With one entry per member, no entry before or after index `i` belongs to that entry's member. */
  lemma UniqueAround(l: PendingHeals, i: nat, pre: PendingHeals, post: PendingHeals)
    requires UniqueMembers(l) && i < |l| && pre == l[..i] && post == l[i + 1..]
    ensures forall k :: 0 <= k < |pre| ==> pre[k].characterInfoId != l[i].characterInfoId
    ensures forall k :: 0 <= k < |post| ==> post[k].characterInfoId != l[i].characterInfoId
  {
    forall k | 0 <= k < |pre| ensures pre[k].characterInfoId != l[i].characterInfoId {
      assert pre[k] == l[k];
    }
    forall k | 0 <= k < |post| ensures post[k].characterInfoId != l[i].characterInfoId {
      assert post[k] == l[i + 1 + k];
    }
  }

  /** Around the one entry of member `id`, nothing else belongs to that member. */
  lemma EntriesOfSplit(pre: PendingHeals, x: NetCrewMember, post: PendingHeals, id: int)
    requires forall k :: 0 <= k < |pre| ==> pre[k].characterInfoId != id
    requires forall k :: 0 <= k < |post| ==> post[k].characterInfoId != id
    requires x.characterInfoId == id
    ensures EntriesOf(pre + ([x] + post), id) == [x]
  {
    EntriesOfNone(pre, id);
    EntriesOfNone(post, id);
    assert [x][0] == x && [x][1..] == [];
    EntriesOfAppend([x], post, id);
    EntriesOfAppend(pre, [x] + post, id);
  }

  lemma {:induction false} EntriesOfAppend(a: PendingHeals, b: PendingHeals, id: int)
    ensures EntriesOf(a + b, id) == EntriesOf(a, id) + EntriesOf(b, id)
    decreases |a|
  {
    if a != [] {
      assert (a + b)[0] == a[0] && (a + b)[1..] == a[1..] + b;
      EntriesOfAppend(a[1..], b, id);
    } else {
      assert a + b == b;
    }
  }

  lemma {:induction false} EntriesOfNone(l: PendingHeals, id: int)
    requires forall k :: 0 <= k < |l| ==> l[k].characterInfoId != id
    ensures EntriesOf(l, id) == []
    decreases |l|
  {
    if l != [] {
      assert forall k :: 1 <= k < |l| ==> l[k] == l[1..][k - 1];
      EntriesOfNone(l[1..], id);
    }
  }

  // ---------------------------------------------------------------------------
  // ClearPendingHeals and GetTotalCost

  /** `ClearPendingHeals`: the ledger is emptied unconditionally. */
  function ClearPendingHeals(l: PendingHeals): (r: PendingHeals)
    ensures |r| == 0
  {
    []
  }

  /** The sum of the prices of a list of afflictions. */
  function SumPrices(s: seq<NetAffliction>): nat {
    if s == [] then 0 else s[0].price + SumPrices(s[1..])
  }

  /** The price of one entry: the sum of its afflictions' prices. */
  function EntryCost(e: NetCrewMember): nat {
    SumPrices(e.afflictions)
  }

  /** The cost of the ledger entry by entry: the reference definition of the total. */
  function LedgerCost(l: PendingHeals): nat {
    if l == [] then 0 else EntryCost(l[0]) + LedgerCost(l[1..])
  }

  /** All afflictions of all entries, in ledger order (`SelectMany`). */
  function Flatten(l: PendingHeals): seq<NetAffliction> {
    if l == [] then [] else l[0].afflictions + Flatten(l[1..])
  }

  /** `Aggregate` from an accumulator: adds the prices from the left. */
  function AggregatePrices(acc: int, s: seq<NetAffliction>): int
    decreases |s|
  {
    if s == [] then acc else AggregatePrices(acc + s[0].price, s[1..])
  }

  lemma {:induction false} AggregateIsSum(acc: int, s: seq<NetAffliction>)
    ensures AggregatePrices(acc, s) == acc + SumPrices(s)
    decreases |s|
  {
    if s != [] {
      AggregateIsSum(acc + s[0].price, s[1..]);
    }
  }

  lemma {:induction false} SumPricesAppend(s: seq<NetAffliction>, t: seq<NetAffliction>)
    ensures SumPrices(s + t) == SumPrices(s) + SumPrices(t)
    decreases |s|
  {
    if s != [] {
      assert (s + t)[0] == s[0] && (s + t)[1..] == s[1..] + t;
      SumPricesAppend(s[1..], t);
    } else {
      assert s + t == t;
    }
  }

  lemma {:induction false} FlattenCost(l: PendingHeals)
    ensures SumPrices(Flatten(l)) == LedgerCost(l)
    decreases |l|
  {
    if l != [] {
      SumPricesAppend(l[0].afflictions, Flatten(l[1..]));
      FlattenCost(l[1..]);
    }
  }

  /**
    `GetTotalCost`: the prices of all afflictions of all entries, aggregated from
    the left. It equals the entry-by-entry sum, and the empty ledger costs nothing.
   */
  function GetTotalCost(l: PendingHeals): (r: int)
    ensures r == LedgerCost(l)
    ensures r >= 0
    ensures l == [] ==> r == 0
  {
    AggregateIsSum(0, Flatten(l));
    FlattenCost(l);
    AggregatePrices(0, Flatten(l))
  }

  lemma {:induction false} LedgerCostAppend(a: PendingHeals, b: PendingHeals)
    ensures LedgerCost(a + b) == LedgerCost(a) + LedgerCost(b)
    decreases |a|
  {
    if a != [] {
      assert (a + b)[0] == a[0] && (a + b)[1..] == a[1..] + b;
      LedgerCostAppend(a[1..], b);
    } else {
      assert a + b == b;
    }
  }

  /** After clearing, the total cost is zero. */
  lemma ClearCostsNothing(l: PendingHeals)
    ensures GetTotalCost(ClearPendingHeals(l)) == 0
  {
  }

  /** Inserting replaces the cost of the member's first entry (if any) by the cost of the new one. */
  lemma InsertCost(l: PendingHeals, m: NetCrewMember)
    ensures var r := InsertPendingCrewMember(l, m);
            match FirstEntry(l, m.characterInfoId)
            case None => LedgerCost(r) == LedgerCost(l) + EntryCost(m)
            case Some(i) => LedgerCost(r) + EntryCost(l[i]) == LedgerCost(l) + EntryCost(m)
  {
    match FirstEntry(l, m.characterInfoId)
    case None =>
      LedgerCostAppend(l, [m]);
    case Some(i) =>
      assert l == l[..i] + ([l[i]] + l[i + 1..]);
      assert RemoveAt(l, i) + [m] == l[..i] + (l[i + 1..] + [m]);
      LedgerCostAppend(l[..i], [l[i]] + l[i + 1..]);
      LedgerCostAppend(l[..i], l[i + 1..] + [m]);
      LedgerCostAppend([l[i]], l[i + 1..]);
      LedgerCostAppend(l[i + 1..], [m]);
  }

  /** The prices of the afflictions of kind `a` in a list. */
  function MatchingCost(s: seq<NetAffliction>, a: NetAffliction): nat {
    if s == [] then 0 else (if SameAffliction(s[0], a) then s[0].price else 0) + MatchingCost(s[1..], a)
  }

  lemma {:induction false} WithoutCost(s: seq<NetAffliction>, a: NetAffliction)
    ensures SumPrices(Without(s, a)) + MatchingCost(s, a) == SumPrices(s)
    decreases |s|
  {
    if s != [] {
      WithoutCost(s[1..], a);
      SumPricesAppend(if SameAffliction(s[0], a) then [] else [s[0]], Without(s[1..], a));
    }
  }

  /** The prices of the afflictions of kind `a` in the entries of `member`. */
  function RemovedCost(l: PendingHeals, member: NetCrewMember, a: NetAffliction): nat {
    if l == [] then 0
    else (if CharacterEquals(l[0], member) then MatchingCost(l[0].afflictions, a) else 0)
         + RemovedCost(l[1..], member, a)
  }

  /** Removing an affliction kind lowers the total cost by exactly the prices of the removed records. */
  lemma {:induction false} RemoveCost(l: PendingHeals, member: NetCrewMember, a: NetAffliction)
    ensures LedgerCost(RemovePendingAffliction(l, member, a)) + RemovedCost(l, member, a) == LedgerCost(l)
    decreases |l|
  {
    if l != [] {
      var e := Pruned(l[0], member, a);
      RemoveCost(l[1..], member, a);
      if CharacterEquals(l[0], member) { WithoutCost(l[0].afflictions, a); }
      var rest := RemovePendingAffliction(l[1..], member, a);
      if |e.afflictions| > 0 {
        LedgerCostAppend([e], rest);
      } else {
        assert EntryCost(e) == 0;
        assert [] + rest == rest;
      }
    }
  }
}
