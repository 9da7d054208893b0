/** The tiered retention step of `cleanup`: given the timestamps listed in the
    daily, weekly and monthly directories, it promotes at most one backup per
    tier boundary and evicts at most one monthly backup. Each choice is
    `Math.max` of the tier's working list, that is the NEWEST backup. */
module Retention {

  import opened Wrappers

  datatype Tier = Daily | Weekly | Monthly

  /** What `cleanup` asks the backup store to do: `mv` a backup from one tier
      directory to another, or `rm` it. */
  datatype Action = Move(ts: int, from: Tier, to: Tier) | Remove(ts: int, tier: Tier)

  /** A tier overflows when it holds MORE than its cap. */
  const DailyCap := 7
  const WeeklyCap := 4
  const MonthlyCap := 12

  // ---------------------------------------------------------------------------
  // Selection

  /** `Math.max(...s)` on a non-empty list. */
  function Max(s: seq<int>): (m: int)
    requires |s| > 0
    ensures m in s
    ensures forall x :: x in s ==> x <= m
  {
    if |s| == 1 then
      s[0]
    else
      var rest := Max(s[1..]);
      assert forall x :: x in s ==> x == s[0] || x in s[1..];
      if s[0] >= rest then s[0] else rest
  }

  /** The maximum is the one member that bounds the whole list. */
  lemma MaxIs(s: seq<int>, x: int)
    requires x in s
    requires forall y :: y in s ==> y <= x
    ensures Max(s) == x
  {
  }

  /** `ts` is a backup of `s` and no backup of `s` is newer. */
  predicate Newest(ts: int, s: seq<int>) {
    ts in s && forall x :: x in s ==> x <= ts
  }

  /** The backup one boundary check picks: `Math.max` of the list when the list
      is over its cap, and none otherwise. */
  function Choice(s: seq<int>, cap: nat): (c: Option<int>)
    ensures c.Some? <==> |s| > cap
    ensures c.Some? ==> c.value in s && forall x :: x in s ==> x <= c.value
  {
    if |s| > cap then Some(Max(s)) else None
  }

  /** `list.push(toMove)` when a backup was moved into the tier. */
  function Pushed(s: seq<int>, c: Option<int>): seq<int> {
    if c.Some? then s + [c.value] else s
  }

  /** The working weekly list the weekly check sees: the listing, plus the
      backup the daily check moved in. */
  function WorkingWeekly(daily: seq<int>, weekly: seq<int>): seq<int> {
    Pushed(weekly, Choice(daily, DailyCap))
  }

  /** The working monthly list the monthly check sees. */
  function WorkingMonthly(daily: seq<int>, weekly: seq<int>, monthly: seq<int>): seq<int> {
    Pushed(monthly, Choice(WorkingWeekly(daily, weekly), WeeklyCap))
  }

  function MoveIf(c: Option<int>, from: Tier, to: Tier): seq<Action> {
    if c.Some? then [Move(c.value, from, to)] else []
  }

  function RemoveIf(c: Option<int>, tier: Tier): seq<Action> {
    if c.Some? then [Remove(c.value, tier)] else []
  }

  /** The actions one `cleanup` issues, in order: the daily check, then the
      weekly check on the list after the push, then the monthly check on the
      list after the push. */
  function Plan(daily: seq<int>, weekly: seq<int>, monthly: seq<int>): seq<Action> {
    MoveIf(Choice(daily, DailyCap), Daily, Weekly) +
    MoveIf(Choice(WorkingWeekly(daily, weekly), WeeklyCap), Weekly, Monthly) +
    RemoveIf(Choice(WorkingMonthly(daily, weekly, monthly), MonthlyCap), Monthly)
  }

  /** `cleanup`, with its `mv` and `rm` commands collected as actions instead of
      run: three checks in sequence, each on the list the previous one pushed
      onto. */
  method Cleanup(daily: seq<int>, weekly: seq<int>, monthly: seq<int>) returns (actions: seq<Action>)
    ensures actions == Plan(daily, weekly, monthly)
    ensures |actions| <= 3
  {
    var weeklyList, monthlyList := weekly, monthly;
    actions := [];
    if |daily| > DailyCap {
      var toMove := Max(daily);
      actions := actions + [Move(toMove, Daily, Weekly)];
      weeklyList := weeklyList + [toMove];
    }
    assert weeklyList == WorkingWeekly(daily, weekly);
    assert actions == MoveIf(Choice(daily, DailyCap), Daily, Weekly);
    if |weeklyList| > WeeklyCap {
      var toMove := Max(weeklyList);
      actions := actions + [Move(toMove, Weekly, Monthly)];
      monthlyList := monthlyList + [toMove];
    }
    assert monthlyList == WorkingMonthly(daily, weekly, monthly);
    assert actions == MoveIf(Choice(daily, DailyCap), Daily, Weekly) +
                      MoveIf(Choice(weeklyList, WeeklyCap), Weekly, Monthly);
    if |monthlyList| > MonthlyCap {
      var toRemove := Max(monthlyList);
      actions := actions + [Remove(toRemove, Monthly)];
    }
  }

  // ---------------------------------------------------------------------------
  // What the plan looks like

  /** The position of an action in the fixed order daily→weekly,
      weekly→monthly, remove-from-monthly; 3 for anything else. */
  function Stage(a: Action): nat {
    match a
    case Move(_, Daily, Weekly) => 0
    case Move(_, Weekly, Monthly) => 1
    case Remove(_, Monthly) => 2
    case _ => 3
  }

  predicate WithinCaps(daily: nat, weekly: nat, monthly: nat) {
    daily <= DailyCap && weekly <= WeeklyCap && monthly <= MonthlyCap
  }

  /** No action is issued exactly when every tier is at or below its cap: the
      checks are strict `>`. */
  lemma PlanEmpty(daily: seq<int>, weekly: seq<int>, monthly: seq<int>)
    ensures Plan(daily, weekly, monthly) == [] <==> WithinCaps(|daily|, |weekly|, |monthly|)
  {
  }

  /** At most one action per boundary, always in the order daily→weekly,
      weekly→monthly, remove-from-monthly, and nothing else. */
  lemma PlanOrder(daily: seq<int>, weekly: seq<int>, monthly: seq<int>)
    ensures |Plan(daily, weekly, monthly)| <= 3
    ensures forall k :: 0 <= k < |Plan(daily, weekly, monthly)| ==> Stage(Plan(daily, weekly, monthly)[k]) < 3
    ensures forall i, j :: 0 <= i < j < |Plan(daily, weekly, monthly)| ==>
              Stage(Plan(daily, weekly, monthly)[i]) < Stage(Plan(daily, weekly, monthly)[j])
  {
  }

  /** Each boundary fires exactly when its working list is over its cap, and
      then picks the newest backup of that list, which is in the list (so the
      list was not empty). */
  lemma PlanPicksNewest(daily: seq<int>, weekly: seq<int>, monthly: seq<int>)
    ensures var p := Plan(daily, weekly, monthly);
      && ((exists ts :: Move(ts, Daily, Weekly) in p) <==> |daily| > DailyCap)
      && (forall ts :: Move(ts, Daily, Weekly) in p ==> Newest(ts, daily))
    ensures var p := Plan(daily, weekly, monthly);
      var w := WorkingWeekly(daily, weekly);
      && ((exists ts :: Move(ts, Weekly, Monthly) in p) <==> |w| > WeeklyCap)
      && (forall ts :: Move(ts, Weekly, Monthly) in p ==> Newest(ts, w))
    ensures var p := Plan(daily, weekly, monthly);
      var m := WorkingMonthly(daily, weekly, monthly);
      && ((exists ts :: Remove(ts, Monthly) in p) <==> |m| > MonthlyCap)
      && (forall ts :: Remove(ts, Monthly) in p ==> Newest(ts, m))
  {
    var dc := Choice(daily, DailyCap);
    var wc := Choice(WorkingWeekly(daily, weekly), WeeklyCap);
    var mc := Choice(WorkingMonthly(daily, weekly, monthly), MonthlyCap);
    var p1, p2, p3 := MoveIf(dc, Daily, Weekly), MoveIf(wc, Weekly, Monthly), RemoveIf(mc, Monthly);
    assert Plan(daily, weekly, monthly) == p1 + p2 + p3;
    if dc.Some? {
      assert Move(dc.value, Daily, Weekly) in p1;
    }
    if wc.Some? {
      assert Move(wc.value, Weekly, Monthly) in p2;
    }
    if mc.Some? {
      assert Remove(mc.value, Monthly) in p3;
    }
  }

  /** The weekly check sees the weekly list after the push: a promotion into a
      weekly tier that holds exactly 4 backups triggers a weekly promotion too,
      and a weekly promotion into a monthly tier of exactly 12 triggers an
      eviction. */
  lemma Ripple(daily: seq<int>, weekly: seq<int>, monthly: seq<int>)
    ensures |WorkingWeekly(daily, weekly)| == |weekly| + (if |daily| > DailyCap then 1 else 0)
    ensures |daily| > DailyCap && |weekly| == WeeklyCap ==>
              Move(Max(WorkingWeekly(daily, weekly)), Weekly, Monthly) in Plan(daily, weekly, monthly)
    ensures |WorkingWeekly(daily, weekly)| > WeeklyCap && |monthly| == MonthlyCap ==>
              Remove(Max(WorkingMonthly(daily, weekly, monthly)), Monthly) in Plan(daily, weekly, monthly)
  {
  }

  // ---------------------------------------------------------------------------
  // Applying the actions to the store

  /** The backups of each tier, as the store holds them. */
  datatype Tiers = Tiers(daily: multiset<int>, weekly: multiset<int>, monthly: multiset<int>) {

    function Get(t: Tier): multiset<int> {
      match t
      case Daily => daily
      case Weekly => weekly
      case Monthly => monthly
    }

    function With(t: Tier, ms: multiset<int>): (r: Tiers)
      ensures r.Get(t) == ms
      ensures forall u :: u != t ==> r.Get(u) == Get(u)
    {
      match t
      case Daily => this.(daily := ms)
      case Weekly => this.(weekly := ms)
      case Monthly => this.(monthly := ms)
    }

    /** Every backup of every tier, together. */
    function All(): multiset<int> {
      daily + weekly + monthly
    }
  }

  /** The store as the three listings describe it. */
  function Snapshot(daily: seq<int>, weekly: seq<int>, monthly: seq<int>): Tiers {
    Tiers(multiset(daily), multiset(weekly), multiset(monthly))
  }

  /** The effect of one `mv` or `rm` on the store. */
  function Step(a: Action, st: Tiers): Tiers {
    match a
    case Move(ts, from, to) =>
      var left := st.With(from, st.Get(from) - multiset{ts});
      left.With(to, left.Get(to) + multiset{ts})
    case Remove(ts, tier) =>
      st.With(tier, st.Get(tier) - multiset{ts})
  }

  /** Runs `step` for each action in turn. */
  function Fold<S>(step: (Action, S) -> S, actions: seq<Action>, st: S): S {
    if actions == [] then st else Fold(step, actions[1..], step(actions[0], st))
  }

  /** Running two action lists in turn is running their concatenation. */
  lemma {:induction false} FoldConcat<S>(step: (Action, S) -> S, a: seq<Action>, b: seq<Action>, st: S)
    ensures Fold(step, a + b, st) == Fold(step, b, Fold(step, a, st))
  {
    if a == [] {
      assert a + b == b;
    } else {
      FoldConcat(step, a[1..], b, step(a[0], st));
      assert (a + b)[1..] == a[1..] + b;
    }
  }

  /** The actions run against the store one after the other. */
  function Apply(actions: seq<Action>, st: Tiers): Tiers {
    Fold(Step, actions, st)
  }

  /** A move takes the backup out of its source tier and puts it in its
      destination tier, and leaves the third tier alone; a removal takes it
      out of its tier and leaves the other two alone. */
  lemma StepEffect(a: Action, st: Tiers)
    requires a.Move? ==> a.from != a.to
    ensures a.Move? ==>
      && Step(a, st).Get(a.from) == st.Get(a.from) - multiset{a.ts}
      && Step(a, st).Get(a.to) == st.Get(a.to) + multiset{a.ts}
      && forall t :: t != a.from && t != a.to ==> Step(a, st).Get(t) == st.Get(t)
    ensures a.Remove? ==>
      && Step(a, st).Get(a.tier) == st.Get(a.tier) - multiset{a.ts}
      && forall t :: t != a.tier ==> Step(a, st).Get(t) == st.Get(t)
  {
  }

  /** A backup that no action names keeps its place: the run changes only the
      named timestamps. */
  lemma {:induction false} ApplyUntouched(actions: seq<Action>, st: Tiers, x: int)
    requires forall k :: 0 <= k < |actions| ==> actions[k].ts != x
    ensures forall t :: Apply(actions, st).Get(t)[x] == st.Get(t)[x]
  {
    if actions != [] {
      var a := actions[0];
      assert forall t :: Step(a, st).Get(t)[x] == st.Get(t)[x] by {
        match a
        case Move(ts, from, to) =>
        case Remove(ts, tier) =>
      }
      ApplyUntouched(actions[1..], Step(a, st), x);
      assert Apply(actions, st) == Apply(actions[1..], Step(a, st));
    }
  }

  function Bag(c: Option<int>): multiset<int> {
    if c.Some? then multiset{c.value} else multiset{}
  }

  /** The store after a whole `cleanup`: the promoted daily backup has left
      daily and joined weekly, the promoted weekly backup has left weekly and
      joined monthly, and the evicted backup has left monthly. */
  lemma ApplyPlan(daily: seq<int>, weekly: seq<int>, monthly: seq<int>)
    ensures var dc := Choice(daily, DailyCap);
      var wc := Choice(WorkingWeekly(daily, weekly), WeeklyCap);
      var mc := Choice(WorkingMonthly(daily, weekly, monthly), MonthlyCap);
      Apply(Plan(daily, weekly, monthly), Snapshot(daily, weekly, monthly)) ==
        Tiers(multiset(daily) - Bag(dc),
              multiset(weekly) + Bag(dc) - Bag(wc),
              multiset(monthly) + Bag(wc) - Bag(mc))
  {
    var dc := Choice(daily, DailyCap);
    var w := WorkingWeekly(daily, weekly);
    var wc := Choice(w, WeeklyCap);
    var m := WorkingMonthly(daily, weekly, monthly);
    var mc := Choice(m, MonthlyCap);
    var s0 := Snapshot(daily, weekly, monthly);
    var s1 := Apply(MoveIf(dc, Daily, Weekly), s0);
    var s2 := Apply(MoveIf(wc, Weekly, Monthly), s1);
    ApplyStage(dc, s0);
    ApplyStage(wc, s1);
    ApplyStage(mc, s2);
    assert multiset(w) == multiset(weekly) + Bag(dc);
    assert multiset(m) == multiset(monthly) + Bag(wc);
    FoldConcat(Step, MoveIf(dc, Daily, Weekly), MoveIf(wc, Weekly, Monthly), s0);
    FoldConcat(Step, MoveIf(dc, Daily, Weekly) + MoveIf(wc, Weekly, Monthly), RemoveIf(mc, Monthly), s0);
  }

  lemma ApplyOne(a: Action, st: Tiers)
    ensures Apply([a], st) == Step(a, st)
  {
    assert [a][1..] == [];
    assert Fold(Step, [a], st) == Fold(Step, [], Step(a, st));
  }

  /** One optional action of the plan, run against the store. */
  lemma ApplyStage(c: Option<int>, st: Tiers)
    ensures Apply(MoveIf(c, Daily, Weekly), st) ==
              Tiers(st.daily - Bag(c), st.weekly + Bag(c), st.monthly)
    ensures Apply(MoveIf(c, Weekly, Monthly), st) ==
              Tiers(st.daily, st.weekly - Bag(c), st.monthly + Bag(c))
    ensures Apply(RemoveIf(c, Monthly), st) ==
              Tiers(st.daily, st.weekly, st.monthly - Bag(c))
  {
    if c.Some? {
      ApplyOne(Move(c.value, Daily, Weekly), st);
      ApplyOne(Move(c.value, Weekly, Monthly), st);
      ApplyOne(Remove(c.value, Monthly), st);
    }
  }

  // ---------------------------------------------------------------------------
  // What one run does to the store

  /** Each chosen backup is in the list it is taken from. */
  lemma ChoicesPresent(daily: seq<int>, weekly: seq<int>, monthly: seq<int>)
    ensures Bag(Choice(daily, DailyCap)) <= multiset(daily)
    ensures Bag(Choice(WorkingWeekly(daily, weekly), WeeklyCap)) <=
              multiset(weekly) + Bag(Choice(daily, DailyCap))
    ensures Bag(Choice(WorkingMonthly(daily, weekly, monthly), MonthlyCap)) <=
              multiset(monthly) + Bag(Choice(WorkingWeekly(daily, weekly), WeeklyCap))
  {
    var dc := Choice(daily, DailyCap);
    var wc := Choice(WorkingWeekly(daily, weekly), WeeklyCap);
    assert multiset(WorkingWeekly(daily, weekly)) == multiset(weekly) + Bag(dc);
    assert multiset(WorkingMonthly(daily, weekly, monthly)) == multiset(monthly) + Bag(wc);
  }

  /** The tier sizes after one run: daily loses one backup when it held more
      than 7; weekly gains that one and loses one when it then held more than
      4; monthly gains that one and loses one when it then held more than 12. */
  lemma ApplyPlanSizes(daily: seq<int>, weekly: seq<int>, monthly: seq<int>)
    ensures var after := Apply(Plan(daily, weekly, monthly), Snapshot(daily, weekly, monthly));
      var dm := if |daily| > DailyCap then 1 else 0;
      var wm := if |weekly| + dm > WeeklyCap then 1 else 0;
      var rm := if |monthly| + wm > MonthlyCap then 1 else 0;
      && |after.daily| == |daily| - dm
      && |after.weekly| == |weekly| + dm - wm
      && |after.monthly| == |monthly| + wm - rm
  {
    ApplyPlan(daily, weekly, monthly);
    ChoicesPresent(daily, weekly, monthly);
    var dc := Choice(daily, DailyCap);
    var wc := Choice(WorkingWeekly(daily, weekly), WeeklyCap);
    var mc := Choice(WorkingMonthly(daily, weekly, monthly), MonthlyCap);
    MinusSize(multiset(daily), Bag(dc));
    MinusSize(multiset(weekly) + Bag(dc), Bag(wc));
    MinusSize(multiset(monthly) + Bag(wc), Bag(mc));
  }

  lemma MinusSize(a: multiset<int>, b: multiset<int>)
    requires b <= a
    ensures |a - b| == |a| - |b|
  {
    assert a == (a - b) + b;
  }

  /** A store that is at most one backup over the daily cap and within the
      other two caps (the state a daily run of the backup leaves) is brought
      back within all three caps by one `cleanup`. */
  lemma CapsRestored(daily: seq<int>, weekly: seq<int>, monthly: seq<int>)
    requires |daily| <= DailyCap + 1 && |weekly| <= WeeklyCap && |monthly| <= MonthlyCap
    ensures var after := Apply(Plan(daily, weekly, monthly), Snapshot(daily, weekly, monthly));
      WithinCaps(|after.daily|, |after.weekly|, |after.monthly|)
  {
    ApplyPlanSizes(daily, weekly, monthly);
  }

  /** A weight that every action lowers by one: a backup counts 3 in daily, 2
      in weekly and 1 in monthly. */
  function Weight(st: Tiers): nat {
    3 * |st.daily| + 2 * |st.weekly| + |st.monthly|
  }

  /** One run lowers the weight by the number of actions it issues, so as long
      as no new backup arrives, running `cleanup` again and again strictly
      lowers the weight until every tier is within its cap. */
  lemma ApplyPlanWeight(daily: seq<int>, weekly: seq<int>, monthly: seq<int>)
    ensures Weight(Apply(Plan(daily, weekly, monthly), Snapshot(daily, weekly, monthly))) ==
              Weight(Snapshot(daily, weekly, monthly)) - |Plan(daily, weekly, monthly)|
    ensures !WithinCaps(|daily|, |weekly|, |monthly|) ==>
              Weight(Apply(Plan(daily, weekly, monthly), Snapshot(daily, weekly, monthly))) <
              Weight(Snapshot(daily, weekly, monthly))
  {
    ApplyPlanSizes(daily, weekly, monthly);
    PlanEmpty(daily, weekly, monthly);
  }

  /** Nothing is copied: after one run the store holds the backups it held
      before, less the evicted one. So a store in which every timestamp is in
      exactly one tier, once, stays so. */
  lemma ApplyPlanKeepsUnique(daily: seq<int>, weekly: seq<int>, monthly: seq<int>)
    ensures var after := Apply(Plan(daily, weekly, monthly), Snapshot(daily, weekly, monthly));
      var mc := Choice(WorkingMonthly(daily, weekly, monthly), MonthlyCap);
      after.All() == Snapshot(daily, weekly, monthly).All() - Bag(mc)
    ensures var after := Apply(Plan(daily, weekly, monthly), Snapshot(daily, weekly, monthly));
      (forall x :: Snapshot(daily, weekly, monthly).All()[x] <= 1) ==>
      (forall x :: after.All()[x] <= 1)
  {
    ApplyPlan(daily, weekly, monthly);
    ChoicesPresent(daily, weekly, monthly);
    var dc := Choice(daily, DailyCap);
    var wc := Choice(WorkingWeekly(daily, weekly), WeeklyCap);
    var mc := Choice(WorkingMonthly(daily, weekly, monthly), MonthlyCap);
    Shuffle(multiset(daily), multiset(weekly), multiset(monthly), Bag(dc), Bag(wc), Bag(mc));
    var after := Apply(Plan(daily, weekly, monthly), Snapshot(daily, weekly, monthly));
    assert after.All() == Snapshot(daily, weekly, monthly).All() - Bag(mc);
    assert forall x :: after.All()[x] <= Snapshot(daily, weekly, monthly).All()[x];
  }

  /** Moving `a` from `d` to `w` and `b` from `w` to `m`, then dropping `c`
      from `m`, leaves the union less `c`. */
  lemma Shuffle(d: multiset<int>, w: multiset<int>, m: multiset<int>,
                a: multiset<int>, b: multiset<int>, c: multiset<int>)
    requires a <= d && b <= w + a && c <= m + b
    ensures (d - a) + (w + a - b) + (m + b - c) == (d + w + m) - c
  {
    forall x
      ensures ((d - a) + (w + a - b) + (m + b - c))[x] == ((d + w + m) - c)[x]
    {
    }
  }

  /** When the newest daily backup is newer than every weekly and monthly one
      and all three checks fire, all three choose that same backup. */
  lemma NewestChosenThrice(daily: seq<int>, weekly: seq<int>, monthly: seq<int>)
    requires |daily| > DailyCap && |weekly| >= WeeklyCap && |monthly| >= MonthlyCap
    requires forall y :: y in weekly ==> y < Max(daily)
    requires forall y :: y in monthly ==> y < Max(daily)
    ensures Choice(daily, DailyCap) == Some(Max(daily))
    ensures Choice(WorkingWeekly(daily, weekly), WeeklyCap) == Some(Max(daily))
    ensures Choice(WorkingMonthly(daily, weekly, monthly), MonthlyCap) == Some(Max(daily))
  {
    var x := Max(daily);
    assert Choice(daily, DailyCap) == Some(x);
    assert WorkingWeekly(daily, weekly) == weekly + [x];
    NewestOnTop(weekly, x, WeeklyCap);
    assert WorkingMonthly(daily, weekly, monthly) == monthly + [x];
    NewestOnTop(monthly, x, MonthlyCap);
  }

  /** A backup pushed onto a full list and newer than all of it is the one
      the check then picks. */
  lemma NewestOnTop(s: seq<int>, x: int, cap: nat)
    requires |s| >= cap
    requires forall y :: y in s ==> y < x
    ensures Choice(s + [x], cap) == Some(x)
  {
    assert forall y :: y in s + [x] ==> y in s || y == x;
    MaxIs(s + [x], x);
  }

  /** The ripple as written: in that case the newest backup is moved to
      weekly, then to monthly, then deleted. */
  lemma NewestRipples(daily: seq<int>, weekly: seq<int>, monthly: seq<int>)
    requires |daily| > DailyCap && |weekly| >= WeeklyCap && |monthly| >= MonthlyCap
    requires forall y :: y in weekly ==> y < Max(daily)
    requires forall y :: y in monthly ==> y < Max(daily)
    ensures var x := Max(daily);
      Plan(daily, weekly, monthly) == [Move(x, Daily, Weekly), Move(x, Weekly, Monthly), Remove(x, Monthly)]
  {
    NewestChosenThrice(daily, weekly, monthly);
    PlanOfThree(daily, weekly, monthly, Max(daily), Max(daily), Max(daily));
  }

  lemma PlanOfThree(daily: seq<int>, weekly: seq<int>, monthly: seq<int>, a: int, b: int, c: int)
    requires Choice(daily, DailyCap) == Some(a)
    requires Choice(WorkingWeekly(daily, weekly), WeeklyCap) == Some(b)
    requires Choice(WorkingMonthly(daily, weekly, monthly), MonthlyCap) == Some(c)
    ensures Plan(daily, weekly, monthly) == [Move(a, Daily, Weekly), Move(b, Weekly, Monthly), Remove(c, Monthly)]
  {
    assert [Move(a, Daily, Weekly)] + [Move(b, Weekly, Monthly)] + [Remove(c, Monthly)] ==
           [Move(a, Daily, Weekly), Move(b, Weekly, Monthly), Remove(c, Monthly)];
  }

  /** ... and so the newest backup is lost, while the weekly and monthly tiers
      end as they were. */
  lemma NewestDeleted(daily: seq<int>, weekly: seq<int>, monthly: seq<int>)
    requires |daily| > DailyCap && |weekly| >= WeeklyCap && |monthly| >= MonthlyCap
    requires forall y :: y in weekly ==> y < Max(daily)
    requires forall y :: y in monthly ==> y < Max(daily)
    ensures Apply(Plan(daily, weekly, monthly), Snapshot(daily, weekly, monthly)) ==
              Tiers(multiset(daily) - multiset{Max(daily)}, multiset(weekly), multiset(monthly))
  {
    var x := Max(daily);
    NewestChosenThrice(daily, weekly, monthly);
    ApplyPlan(daily, weekly, monthly);
    assert Bag(Some(x)) == multiset{x};
    assert multiset(weekly) + multiset{x} - multiset{x} == multiset(weekly);
    assert multiset(monthly) + multiset{x} - multiset{x} == multiset(monthly);
  }

  /** With eight daily backups 1..8 and empty weekly and monthly tiers, the
      backup promoted to weekly is 8, the newest, not 1. */
  lemma NewestPromotedExample()
    ensures Plan([1, 2, 3, 4, 5, 6, 7, 8], [], []) == [Move(8, Daily, Weekly)]
  {
    MaxIs([1, 2, 3, 4, 5, 6, 7, 8], 8);
  }
}
