/** The skills of an agent version, and how a reorder request rewrites the priorities of its draft. */
module SkillOrder {
  import opened Options

  datatype SkillBinding = SkillBinding(
    skill: nat,
    pinned: Option<nat>,
    priority: int,
    enabled: bool,
    variables: map<string, string>)

  /** The unique constraint on (version, skill). */
  predicate SkillsUnique(bs: seq<SkillBinding>) {
    forall i, j :: 0 <= i < j < |bs| ==> bs[i].skill != bs[j].skill
  }

  predicate Distinct(ids: seq<nat>) {
    forall i, j :: 0 <= i < j < |ids| ==> ids[i] != ids[j]
  }

  function Skills(bs: seq<SkillBinding>): seq<nat> {
    seq(|bs|, i requires 0 <= i < |bs| => bs[i].skill)
  }

  /** The requested ids that are not attached, in request order. */
  function Unattached(bs: seq<SkillBinding>, ids: seq<nat>): seq<nat> {
    if ids == [] then []
    else Unattached(bs, ids[..|ids| - 1]) + (if ids[|ids| - 1] in Skills(bs) then [] else [ids[|ids| - 1]])
  }

  lemma {:induction false} UnattachedMeans(bs: seq<SkillBinding>, ids: seq<nat>)
    ensures Unattached(bs, ids) == [] <==> forall i :: 0 <= i < |ids| ==> ids[i] in Skills(bs)
  {
    if ids != [] {
      UnattachedMeans(bs, ids[..|ids| - 1]);
    }
  }

  function WithPriority(bs: seq<SkillBinding>, id: nat, priority: int): seq<SkillBinding> {
    seq(|bs|, i requires 0 <= i < |bs| => if bs[i].skill == id then bs[i].(priority := priority) else bs[i])
  }

  // ----- sorting by priority, and picking out the rest -----

  /** Insertion into a list sorted by priority, behind its equals, as in a stable sort. */
  function Place(sorted: seq<SkillBinding>, b: SkillBinding): seq<SkillBinding> {
    if sorted == [] || sorted[|sorted| - 1].priority <= b.priority then sorted + [b]
    else Place(sorted[..|sorted| - 1], b) + [sorted[|sorted| - 1]]
  }

  function ByPriority(bs: seq<SkillBinding>): seq<SkillBinding> {
    if bs == [] then [] else Place(ByPriority(bs[..|bs| - 1]), bs[|bs| - 1])
  }

  predicate Nondecreasing(bs: seq<SkillBinding>) {
    forall i, j :: 0 <= i < j < |bs| ==> bs[i].priority <= bs[j].priority
  }

  function Others(bs: seq<SkillBinding>, ids: seq<nat>): seq<SkillBinding> {
    if bs == [] then []
    else Others(bs[..|bs| - 1], ids) + (if bs[|bs| - 1].skill in ids then [] else [bs[|bs| - 1]])
  }

  lemma {:induction false} OthersMembers(bs: seq<SkillBinding>, ids: seq<nat>)
    ensures forall b :: b in Others(bs, ids) <==> b in bs && b.skill !in ids
  {
    if bs != [] {
      OthersMembers(bs[..|bs| - 1], ids);
      assert bs == bs[..|bs| - 1] + [bs[|bs| - 1]];
    }
  }

  lemma AppendHigher(bs: seq<SkillBinding>, b: SkillBinding)
    requires Nondecreasing(bs) && forall x :: x in bs ==> x.priority <= b.priority
    ensures Nondecreasing(bs + [b])
  {
    forall i | 0 <= i < |bs| ensures bs[i].priority <= b.priority {
      assert bs[i] in bs;
    }
  }

  lemma PlaceInFront(bs: seq<SkillBinding>, last: SkillBinding, b: SkillBinding)
    requires last.priority > b.priority
    ensures Place(bs + [last], b) == Place(bs, b) + [last]
  {
    assert (bs + [last])[..|bs|] == bs;
  }

  lemma OthersOfAppend(bs: seq<SkillBinding>, b: SkillBinding, ids: seq<nat>)
    ensures Others(bs + [b], ids) == if b.skill in ids then Others(bs, ids) else Others(bs, ids) + [b]
  {
    assert (bs + [b])[..|bs|] == bs;
  }

  lemma {:induction false} PlaceSorts(sorted: seq<SkillBinding>, b: SkillBinding)
    requires Nondecreasing(sorted)
    ensures Nondecreasing(Place(sorted, b))
    ensures forall x :: x in Place(sorted, b) <==> x in sorted || x == b
  {
    if sorted != [] && sorted[|sorted| - 1].priority > b.priority {
      var front, last := sorted[..|sorted| - 1], sorted[|sorted| - 1];
      assert sorted == front + [last];
      assert forall i :: 0 <= i < |front| ==> front[i].priority <= last.priority;
      PlaceSorts(front, b);
      AppendHigher(Place(front, b), last);
    } else {
      AppendHigher(sorted, b);
    }
  }

  lemma {:induction false} ByPrioritySorts(bs: seq<SkillBinding>)
    ensures Nondecreasing(ByPriority(bs))
    ensures forall x :: x in ByPriority(bs) <==> x in bs
  {
    if bs != [] {
      ByPrioritySorts(bs[..|bs| - 1]);
      PlaceSorts(ByPriority(bs[..|bs| - 1]), bs[|bs| - 1]);
      assert bs == bs[..|bs| - 1] + [bs[|bs| - 1]];
    }
  }

  /** Picking commutes with one insertion. */
  lemma {:induction false} OthersOfPlace(sorted: seq<SkillBinding>, b: SkillBinding, ids: seq<nat>)
    requires Nondecreasing(sorted)
    ensures Others(Place(sorted, b), ids) == if b.skill in ids then Others(sorted, ids) else Place(Others(sorted, ids), b)
  {
    if sorted == [] || sorted[|sorted| - 1].priority <= b.priority {
      OthersOfAppend(sorted, b, ids);
      OthersSorted(sorted, ids);
    } else {
      var front, last := sorted[..|sorted| - 1], sorted[|sorted| - 1];
      assert sorted == front + [last] && Place(sorted, b) == Place(front, b) + [last];
      OthersOfPlace(front, b, ids);
      OthersOfAppend(Place(front, b), last, ids);
      OthersOfAppend(front, last, ids);
      PlaceInFront(Others(front, ids), last, b);
    }
  }

  lemma {:induction false} OthersSorted(sorted: seq<SkillBinding>, ids: seq<nat>)
    requires Nondecreasing(sorted)
    ensures Nondecreasing(Others(sorted, ids))
    ensures Others(sorted, ids) != [] ==> Others(sorted, ids)[|Others(sorted, ids)| - 1].priority <= sorted[|sorted| - 1].priority
  {
    if sorted != [] {
      var front, last := sorted[..|sorted| - 1], sorted[|sorted| - 1];
      OthersSorted(front, ids);
      OthersMembers(front, ids);
      forall x | x in front ensures x.priority <= last.priority {
        var i :| 0 <= i < |front| && front[i] == x;
        assert sorted[i] == x;
      }
      if last.skill !in ids {
        AppendHigher(Others(front, ids), last);
      }
    }
  }

  /** Sorting everything and picking is picking and sorting: stable sorts do not mix. */
  lemma {:induction false} OthersOfSort(bs: seq<SkillBinding>, ids: seq<nat>)
    ensures Others(ByPriority(bs), ids) == ByPriority(Others(bs, ids))
  {
    if bs != [] {
      var front, last := bs[..|bs| - 1], bs[|bs| - 1];
      assert bs == front + [last];
      hide Nondecreasing, Place, Others, ByPriority;
      OthersOfSort(front, ids);
      ByPrioritySorts(front);
      SortOfAppend(front, last);
      OthersOfPlace(ByPriority(front), last, ids);
      OthersOfAppend(front, last, ids);
      SortOfAppend(Others(front, ids), last);
    }
  }

  lemma SortOfAppend(bs: seq<SkillBinding>, b: SkillBinding)
    ensures ByPriority(bs + [b]) == Place(ByPriority(bs), b)
  {
    assert (bs + [b])[..|bs|] == bs;
  }

  /** The skills that were not requested, by their old priority. */
  function Rest(bs: seq<SkillBinding>, ids: seq<nat>): seq<SkillBinding> {
    ByPriority(Others(bs, ids))
  }

  /** The order that a request asks for: the requested skills first, the rest behind them. */
  function WantedOrder(bs: seq<SkillBinding>, ids: seq<nat>): seq<nat> {
    ids + Skills(Rest(bs, ids))
  }

  // ----- the rewritten priorities -----

  /** The last place of an id in a list, or -1. */
  function LastPlace(order: seq<nat>, id: nat): (k: int)
    ensures -1 <= k < |order| && (k >= 0 ==> order[k] == id)
    ensures forall i :: k < i < |order| ==> order[i] != id
  {
    if order == [] then -1
    else if order[|order| - 1] == id then |order| - 1
    else LastPlace(order[..|order| - 1], id)
  }

  /** Every binding whose skill is in `order` has ten times its place, counted from 1; the others
      are as before, and nothing else changes. */
  predicate Ranked(before: seq<SkillBinding>, now: seq<SkillBinding>, order: seq<nat>) {
    |now| == |before| && forall i :: 0 <= i < |now| ==>
      var k := LastPlace(order, before[i].skill);
      now[i] == before[i].(priority := if k >= 0 then 10 * (k + 1) else before[i].priority)
  }

  /** The one list of bindings that is ranked by this order. */
  function Reranked(before: seq<SkillBinding>, order: seq<nat>): (now: seq<SkillBinding>)
    ensures Ranked(before, now, order) && forall other :: Ranked(before, other, order) ==> other == now
  {
    seq(|before|, i requires 0 <= i < |before| =>
      var k := LastPlace(order, before[i].skill);
      before[i].(priority := if k >= 0 then 10 * (k + 1) else before[i].priority))
  }

  lemma RankedNext(before: seq<SkillBinding>, now: seq<SkillBinding>, order: seq<nat>, id: nat)
    requires Ranked(before, now, order)
    ensures Ranked(before, WithPriority(now, id, 10 * (|order| + 1)), order + [id])
  {
    assert (order + [id])[..|order|] == order;
  }

  lemma RankedNone(bs: seq<SkillBinding>)
    ensures Ranked(bs, bs, [])
  {
  }

  /** Bindings that were not requested are still as they were when the rest is sorted. */
  lemma {:induction false} OthersUntouched(before: seq<SkillBinding>, now: seq<SkillBinding>, ids: seq<nat>)
    requires Ranked(before, now, ids)
    ensures Others(now, ids) == Others(before, ids)
  {
    if before != [] {
      OthersUntouched(before[..|before| - 1], now[..|now| - 1], ids);
    }
  }

  /** Rewrites the priorities of a draft's bindings. Refused, with the offending ids, unless all
      requested skills are attached. */
  method ReorderSkills(bs: seq<SkillBinding>, ids: seq<nat>) returns (r: Result<seq<SkillBinding>, seq<nat>>)
    ensures r.Err? <==> exists i :: 0 <= i < |ids| && ids[i] !in Skills(bs)
    ensures r.Err? ==> r.error == Unattached(bs, ids)
    ensures r.Ok? ==> Ranked(bs, r.value, WantedOrder(bs, ids))
  {
    var unknown := [];
    for i := 0 to |ids|
      invariant unknown == Unattached(bs, ids[..i])
    {
      assert ids[..i + 1][..i] == ids[..i];
      if ids[i] !in Skills(bs) {
        unknown := unknown + [ids[i]];
      }
    }
    assert ids[..|ids|] == ids;
    UnattachedMeans(bs, ids);
    if unknown != [] {
      return Err(unknown);
    }
    var now := RankRequested(bs, ids);
    var rest := SortRest(now, ids);
    OthersUntouched(bs, now, ids);
    assert rest == Rest(bs, ids) by {
      OthersOfSort(now, ids);
    }
    now := RankRest(bs, now, ids, rest);
    return Ok(now);
  }

  method RankRequested(bs: seq<SkillBinding>, ids: seq<nat>) returns (now: seq<SkillBinding>)
    ensures Ranked(bs, now, ids)
  {
    hide Ranked, WithPriority;
    now := bs;
    RankedNone(bs);
    for i := 0 to |ids|
      invariant Ranked(bs, now, ids[..i])
    {
      assert ids[..i + 1] == ids[..i] + [ids[i]];
      RankedNext(bs, now, ids[..i], ids[i]);
      now := WithPriority(now, ids[i], (i + 1) * 10);
    }
    assert ids[..|ids|] == ids;
  }

  method SortRest(now: seq<SkillBinding>, ids: seq<nat>) returns (rest: seq<SkillBinding>)
    ensures rest == Others(ByPriority(now), ids)
  {
    var sorted := ByPriority(now);
    rest := [];
    for i := 0 to |sorted|
      invariant rest == Others(sorted[..i], ids)
    {
      assert sorted[..i + 1][..i] == sorted[..i];
      if sorted[i].skill !in ids {
        rest := rest + [sorted[i]];
      }
    }
    assert sorted[..|sorted|] == sorted;
  }

  method RankRest(bs: seq<SkillBinding>, start: seq<SkillBinding>, ids: seq<nat>, rest: seq<SkillBinding>)
    returns (now: seq<SkillBinding>)
    requires Ranked(bs, start, ids)
    ensures Ranked(bs, now, ids + Skills(rest))
  {
    hide Ranked, WithPriority;
    now := start;
    assert ids + Skills(rest[..0]) == ids;
    for j := 0 to |rest|
      invariant Ranked(bs, now, ids + Skills(rest[..j]))
    {
      assert ids + Skills(rest[..j + 1]) == ids + Skills(rest[..j]) + [rest[j].skill];
      RankedNext(bs, now, ids + Skills(rest[..j]), rest[j].skill);
      now := WithPriority(now, rest[j].skill, (|ids| + j + 1) * 10);
    }
    assert rest[..|rest|] == rest;
  }

  // ----- when the priorities are exactly 10, 20, ..., 10n -----

  function Set(ids: seq<nat>): set<nat> {
    set id | id in ids
  }

  lemma {:induction false} SetSize(ids: seq<nat>)
    ensures |Set(ids)| <= |ids|
    ensures |Set(ids)| == |ids| <==> Distinct(ids)
  {
    if ids != [] {
      var front, last := ids[..|ids| - 1], ids[|ids| - 1];
      SetSize(front);
      assert ids == front + [last];
      if last in front {
        assert Set(ids) == Set(front);
        var i :| 0 <= i < |front| && front[i] == last;
        assert ids[i] == ids[|ids| - 1];
      } else {
        assert Set(ids) == Set(front) + {last};
        assert Distinct(ids) <==> Distinct(front) by {
          if Distinct(ids) {
            assert forall i, j :: 0 <= i < j < |front| ==> front[i] == ids[i] && front[j] == ids[j];
          }
        }
      }
    }
  }

  predicate AllAttached(bs: seq<SkillBinding>, ids: seq<nat>) {
    forall i :: 0 <= i < |ids| ==> ids[i] in Skills(bs)
  }

  lemma SkillsMember(bs: seq<SkillBinding>, id: nat)
    ensures id in Skills(bs) <==> exists b :: b in bs && b.skill == id
  {
    if id in Skills(bs) {
      var i :| 0 <= i < |bs| && Skills(bs)[i] == id;
      assert bs[i] in bs;
    }
    if exists b :: b in bs && b.skill == id {
      var b :| b in bs && b.skill == id;
      var i :| 0 <= i < |bs| && bs[i] == b;
      assert Skills(bs)[i] == id;
    }
  }

  lemma RestMembers(bs: seq<SkillBinding>, ids: seq<nat>)
    ensures forall b :: b in Rest(bs, ids) <==> b in bs && b.skill !in ids
  {
    OthersMembers(bs, ids);
    ByPrioritySorts(Others(bs, ids));
  }

  /** The wanted order names exactly the attached skills. */
  lemma WantedNamesAll(bs: seq<SkillBinding>, ids: seq<nat>)
    requires AllAttached(bs, ids)
    ensures Set(WantedOrder(bs, ids)) == Set(Skills(bs))
  {
    RestMembers(bs, ids);
    var order := WantedOrder(bs, ids);
    forall id ensures id in order <==> id in Skills(bs) {
      SkillsMember(bs, id);
      SkillsMember(Rest(bs, ids), id);
      assert id in order <==> id in ids || id in Skills(Rest(bs, ids));
    }
  }

  lemma {:induction false} OthersSize(bs: seq<SkillBinding>, ids: seq<nat>)
    ensures SkillsUnique(bs) ==> SkillsUnique(Others(bs, ids))
  {
    if bs != [] && SkillsUnique(bs) {
      var front, last := bs[..|bs| - 1], bs[|bs| - 1];
      OthersSize(front, ids);
      OthersMembers(front, ids);
      forall x | x in Others(front, ids) ensures x.skill != last.skill {
        var i :| 0 <= i < |front| && front[i] == x;
        assert bs[i] == x && bs[|bs| - 1] == last;
      }
    }
  }

  lemma {:induction false} SortKeepsUnique(bs: seq<SkillBinding>)
    requires SkillsUnique(bs)
    ensures SkillsUnique(ByPriority(bs))
  {
    if bs != [] {
      var front, last := bs[..|bs| - 1], bs[|bs| - 1];
      SortKeepsUnique(front);
      ByPrioritySorts(front);
      forall x | x in ByPriority(front) ensures x.skill != last.skill {
        var i :| 0 <= i < |front| && front[i] == x;
        assert bs[i] == x && bs[|bs| - 1] == last;
      }
      PlaceKeepsUnique(ByPriority(front), last);
    }
  }

  lemma {:induction false} PlaceKeepsUnique(sorted: seq<SkillBinding>, b: SkillBinding)
    requires SkillsUnique(sorted) && Nondecreasing(sorted) && forall x :: x in sorted ==> x.skill != b.skill
    ensures SkillsUnique(Place(sorted, b))
  {
    if sorted != [] && sorted[|sorted| - 1].priority > b.priority {
      var front, last := sorted[..|sorted| - 1], sorted[|sorted| - 1];
      assert sorted == front + [last];
      PlaceKeepsUnique(front, b);
      PlaceSorts(front, b);
      forall x | x in Place(front, b) ensures x.skill != last.skill {
        if x != b {
          var i :| 0 <= i < |front| && front[i] == x;
          assert sorted[i] == x && sorted[|sorted| - 1] == last;
        }
      }
    }
  }

  /** The wanted order repeats an id exactly when the request does. */
  lemma WantedDistinct(bs: seq<SkillBinding>, ids: seq<nat>)
    requires SkillsUnique(bs)
    ensures Distinct(WantedOrder(bs, ids)) <==> Distinct(ids)
  {
    var rest, order := Rest(bs, ids), WantedOrder(bs, ids);
    OthersSize(bs, ids);
    SortKeepsUnique(Others(bs, ids));
    RestMembers(bs, ids);
    if Distinct(order) {
      assert forall i :: 0 <= i < |ids| ==> ids[i] == order[i];
    }
    if Distinct(ids) {
      forall i, j | 0 <= i < j < |order| ensures order[i] != order[j] {
        if |ids| <= j {
          assert rest[j - |ids|] in rest;
        }
      }
    }
  }

  predicate TenToTenN(bs: seq<SkillBinding>) {
    && (forall i :: 0 <= i < |bs| ==> 10 <= bs[i].priority <= 10 * |bs| && bs[i].priority % 10 == 0)
    && (forall i, j :: 0 <= i < j < |bs| ==> bs[i].priority != bs[j].priority)
  }

  /** After a reorder the n priorities are exactly 10, 20, ..., 10n if and only if the request names
      no skill twice. */
  lemma PrioritiesAreExact(bs: seq<SkillBinding>, ids: seq<nat>, now: seq<SkillBinding>)
    requires SkillsUnique(bs) && AllAttached(bs, ids) && Ranked(bs, now, WantedOrder(bs, ids))
    ensures TenToTenN(now) <==> Distinct(ids)
  {
    var order := WantedOrder(bs, ids);
    WantedNamesAll(bs, ids);
    WantedDistinct(bs, ids);
    SetSize(order);
    SetSize(Skills(bs));
    assert Distinct(Skills(bs));
    RankedInRange(bs, now, order);
    if !Distinct(ids) {
      TooHigh(bs, now, order);
    }
  }

  lemma RankedInRange(bs: seq<SkillBinding>, now: seq<SkillBinding>, order: seq<nat>)
    requires SkillsUnique(bs) && Ranked(bs, now, order) && Set(order) == Set(Skills(bs))
    ensures |order| == |bs| ==> TenToTenN(now)
  {
    forall i | 0 <= i < |now| ensures LastPlace(order, bs[i].skill) >= 0 {
      assert Skills(bs)[i] in Set(Skills(bs));
    }
    forall i, j | 0 <= i < j < |now| ensures LastPlace(order, bs[i].skill) != LastPlace(order, bs[j].skill) {
    }
  }

  lemma TooHigh(bs: seq<SkillBinding>, now: seq<SkillBinding>, order: seq<nat>)
    requires Ranked(bs, now, order) && Set(order) == Set(Skills(bs)) && |order| > |bs|
    ensures !TenToTenN(now)
  {
    var id := order[|order| - 1];
    assert id in Set(order);
    var i :| 0 <= i < |bs| && Skills(bs)[i] == id;
    assert LastPlace(order, id) == |order| - 1;
    assert now[i].priority == 10 * |order|;
  }

  /** Where a skill that was not requested stands in the wanted order. */
  lemma PlaceOfRest(bs: seq<SkillBinding>, ids: seq<nat>, b: SkillBinding) returns (p: nat)
    requires SkillsUnique(bs) && b in bs && b.skill !in ids
    ensures p < |Rest(bs, ids)| && Rest(bs, ids)[p] == b && LastPlace(WantedOrder(bs, ids), b.skill) == |ids| + p
  {
    RestMembers(bs, ids);
    OthersSize(bs, ids);
    SortKeepsUnique(Others(bs, ids));
    hide Rest, LastPlace;
    var rest, order := Rest(bs, ids), WantedOrder(bs, ids);
    assert SkillsUnique(rest) by {
      RestUnique(bs, ids);
    }
    p :| 0 <= p < |rest| && rest[p] == b;
    assert order[|ids| + p] == b.skill;
    forall i | |ids| + p < i < |order| ensures order[i] != b.skill {
      assert order[i] == rest[i - |ids|].skill;
    }
  }

  lemma RestUnique(bs: seq<SkillBinding>, ids: seq<nat>)
    requires SkillsUnique(bs)
    ensures SkillsUnique(Rest(bs, ids)) && Nondecreasing(Rest(bs, ids))
  {
    OthersSize(bs, ids);
    SortKeepsUnique(Others(bs, ids));
    ByPrioritySorts(Others(bs, ids));
  }

  /** A requested skill ranks by its last mention, every other one behind all of these, and those keep the
      order of the priorities they had. */
  lemma RanksMean(bs: seq<SkillBinding>, ids: seq<nat>, now: seq<SkillBinding>, i: nat)
    requires SkillsUnique(bs) && Ranked(bs, now, WantedOrder(bs, ids)) && i < |bs|
    ensures now[i] == bs[i].(priority := now[i].priority)
    ensures forall k :: 0 <= k < |ids| && bs[i].skill == ids[k] && (forall m :: k < m < |ids| ==> ids[m] != ids[k]) ==>
      now[i].priority == 10 * (k + 1)
    ensures bs[i].skill !in ids ==> now[i].priority > 10 * |ids|
    ensures bs[i].skill !in ids ==> forall j :: 0 <= j < |bs| && bs[j].skill !in ids && bs[i].priority < bs[j].priority ==>
      now[i].priority < now[j].priority
  {
    hide Rest;
    var order := WantedOrder(bs, ids);
    RestUnique(bs, ids);
    if bs[i].skill !in ids {
      var p := PlaceOfRest(bs, ids, bs[i]);
      forall j | 0 <= j < |bs| && bs[j].skill !in ids && bs[i].priority < bs[j].priority ensures now[i].priority < now[j].priority {
        var q := PlaceOfRest(bs, ids, bs[j]);
      }
    } else {
      RequestedNotInRest(bs, ids, bs[i].skill);
      hide LastPlace;
      forall k | 0 <= k < |ids| && bs[i].skill == ids[k] && (forall m :: k < m < |ids| ==> ids[m] != ids[k])
        ensures LastPlace(order, bs[i].skill) == k
      {
        assert order[k] == ids[k];
        forall m | k < m < |order| ensures order[m] != ids[k] {
          if m < |ids| {
            assert order[m] == ids[m];
          } else {
            assert order[m] == Skills(Rest(bs, ids))[m - |ids|];
          }
        }
      }
    }
  }

  lemma RequestedNotInRest(bs: seq<SkillBinding>, ids: seq<nat>, id: nat)
    requires id in ids
    ensures id !in Skills(Rest(bs, ids))
  {
    RestMembers(bs, ids);
    SkillsMember(Rest(bs, ids), id);
  }
}
