/**
 * The retention decisions of lib/utils.js, pure functions over a youngest-first list of
 * backup records: whether today's daily backup is due, which daily record (if any) is
 * promoted to weekly and to monthly, and which records exceed their generation's quota.
 */
module Utils {
  import opened Wrappers
  import opened Dates
  import opened Infos
  import opened Seqs

  /** The records of generation `g`, in their input order (the source's filter on `frequency`). */
  function OfGeneration(xs: seq<Info>, g: Generation): (r: seq<Info>)
    ensures |r| <= |xs|
    ensures forall x :: x in r <==> x in xs && x.generation == g
  {
    if xs == [] then []
    else if xs[0].generation == g then [xs[0]] + OfGeneration(xs[1..], g)
    else OfGeneration(xs[1..], g)
  }

  lemma {:induction false} OfGenerationAppend(xs: seq<Info>, ys: seq<Info>, g: Generation)
    ensures OfGeneration(xs + ys, g) == OfGeneration(xs, g) + OfGeneration(ys, g)
  {
    if xs == [] {
      assert xs + ys == ys;
    } else {
      assert (xs + ys)[1..] == xs[1..] + ys;
      OfGenerationAppend(xs[1..], ys, g);
    }
  }

  /** In a youngest-first list, the first record of a generation is at least as young as every other one. */
  lemma {:induction false} FirstOfGenerationIsYoungest(xs: seq<Info>, g: Generation, y: Info)
    requires SortedNewestFirst(xs)
    requires y in xs && y.generation == g
    ensures OfGeneration(xs, g) != []
    ensures OfGeneration(xs, g)[0].Stamp() >= y.Stamp()
  {
    if xs[0] != y {
      assert y in xs[1..];
      FirstOfGenerationIsYoungest(xs[1..], g, y);
      if xs[0].generation == g {
        assert xs[0].Stamp() >= y.Stamp();
      }
    }
  }

  // ---------------------------------------------------------------------------------------
  // shouldMakeBackup

  /** `shouldMakeBackup`: a daily backup is due when there is no daily record, or the youngest one is dated before today. */
  function ShouldMakeBackup(today: CalendarDate, infos: seq<Info>): bool
  {
    if infos == [] then true
    else
      var dailies := OfGeneration(infos, Daily);
      dailies == [] || DateBefore(dailies[0].date, today)
  }

  /** The due-check on day numbers: due iff no daily record exists or the first one is from an earlier day. */
  lemma ShouldMakeBackupByDay(today: CalendarDate, infos: seq<Info>)
    ensures infos == [] ==> ShouldMakeBackup(today, infos)
    ensures ShouldMakeBackup(today, infos) <==>
      OfGeneration(infos, Daily) == [] || OfGeneration(infos, Daily)[0].Stamp() < DayNumber(today)
    ensures OfGeneration(infos, Daily) != [] && OfGeneration(infos, Daily)[0].date == today ==> !ShouldMakeBackup(today, infos)
  {
    var dailies := OfGeneration(infos, Daily);
    if dailies != [] {
      DayNumberOrder(dailies[0].date, today);
    }
  }

  /** Once a daily record for today is in the (youngest-first) list, no further backup is due today. */
  lemma NoBackupDueAfterCapture(today: CalendarDate, infos: seq<Info>, x: Info)
    requires SortedNewestFirst(infos)
    requires x in infos && x.generation == Daily && x.date == today
    ensures !ShouldMakeBackup(today, infos)
  {
    FirstOfGenerationIsYoungest(infos, Daily, x);
    ShouldMakeBackupByDay(today, infos);
  }

  // ---------------------------------------------------------------------------------------
  // getPromotions

  /** The records to copy into the weekly and monthly generations (`null` is `None`). */
  datatype Promotions = Promotions(weekly: Option<Info>, monthly: Option<Info>)

  /**
   * Whether a generation needs a new record: it has none, or its youngest one is dated on or
   * before `days` days before today.
   */
  predicate Stale(infos: seq<Info>, g: Generation, today: CalendarDate, days: int)
  {
    var gs := OfGeneration(infos, g);
    gs == [] || gs[0].Stamp() < DayNumber(today) - days || gs[0].Stamp() == DayNumber(today) - days
  }

  /**
   * `getPromotions`, comparing the youngest weekly and monthly records' dates with today − 7 and
   * today − 30 days. Nothing is promoted when either quota is zero or there is no daily record;
   * any promotion is the youngest daily record.
   */
  function GetPromotions(today: CalendarDate, num: ByGeneration<nat>, infos: seq<Info>): (r: Promotions)
    ensures (num.weekly == 0 || num.monthly == 0 || OfGeneration(infos, Daily) == []) ==> r == Promotions(None, None)
    ensures r.weekly.Some? ==> OfGeneration(infos, Daily) != [] && r.weekly.value == OfGeneration(infos, Daily)[0]
    ensures r.monthly.Some? ==> OfGeneration(infos, Daily) != [] && r.monthly.value == OfGeneration(infos, Daily)[0]
    ensures r.weekly.Some? && r.monthly.Some? ==> r.weekly == r.monthly
  {
    var dailies := OfGeneration(infos, Daily);
    if num.weekly == 0 || num.monthly == 0 || dailies == [] then Promotions(None, None)
    else
      var needWeekly := num.weekly != 0 && Stale(infos, Weekly, today, 7);
      var needMonthly := num.monthly != 0 && Stale(infos, Monthly, today, 30);
      Promotions(if needWeekly then Some(dailies[0]) else None, if needMonthly then Some(dailies[0]) else None)
  }

  /**
   * On a youngest-first list, the weekly (monthly) promotion happens exactly when both quotas
   * are non-zero, a daily record exists, and every weekly (monthly) record is dated at least
   * 7 (30) days before today; the promoted record is then a youngest daily record.
   */
  lemma PromotionDecision(today: CalendarDate, num: ByGeneration<nat>, infos: seq<Info>)
    requires SortedNewestFirst(infos)
    ensures GetPromotions(today, num, infos).weekly.Some? <==>
      num.weekly != 0 && num.monthly != 0 && OfGeneration(infos, Daily) != [] &&
      forall w :: w in infos && w.generation == Weekly ==> w.Stamp() + 7 <= DayNumber(today)
    ensures GetPromotions(today, num, infos).monthly.Some? <==>
      num.weekly != 0 && num.monthly != 0 && OfGeneration(infos, Daily) != [] &&
      forall m :: m in infos && m.generation == Monthly ==> m.Stamp() + 30 <= DayNumber(today)
    ensures forall p, d ::
      (p in [GetPromotions(today, num, infos).weekly, GetPromotions(today, num, infos).monthly] &&
       p.Some? && d in infos && d.generation == Daily) ==> p.value.Stamp() >= d.Stamp()
  {
    StaleIffAllOld(infos, Weekly, today, 7);
    StaleIffAllOld(infos, Monthly, today, 30);
    forall d | d in infos && d.generation == Daily
      ensures OfGeneration(infos, Daily)[0].Stamp() >= d.Stamp()
    {
      FirstOfGenerationIsYoungest(infos, Daily, d);
    }
  }

  /**
   * `Stale` is the source's test on the youngest record of a generation: there is none, or its
   * date is before or equal to `dateFns.subDays(today, days)`, whatever month or year that
   * falls in.
   */
  lemma StaleIsSubDaysTest(infos: seq<Info>, g: Generation, today: CalendarDate, days: nat)
    requires days <= DayNumber(today)
    ensures var gs := OfGeneration(infos, g);
      Stale(infos, g, today, days) <==>
        gs == [] || DateBefore(gs[0].date, SubDays(today, days)) || gs[0].date == SubDays(today, days)
  {
    var gs := OfGeneration(infos, g);
    if gs != [] {
      SubDaysCompare(gs[0].date, today, days);
    }
  }

  lemma StaleIffAllOld(infos: seq<Info>, g: Generation, today: CalendarDate, days: int)
    requires SortedNewestFirst(infos)
    ensures Stale(infos, g, today, days) <==>
      forall w :: w in infos && w.generation == g ==> w.Stamp() + days <= DayNumber(today)
  {
    var gs := OfGeneration(infos, g);
    if gs != [] {
      assert gs[0] in infos;
      forall w | w in infos && w.generation == g
        ensures w.Stamp() <= gs[0].Stamp()
      {
        FirstOfGenerationIsYoungest(infos, g, w);
      }
    }
  }

  /**
   * Promotion settles: once the list holds a weekly (monthly) record dated within the last 7 (30)
   * days, as it does right after today's daily record was promoted, no further weekly (monthly)
   * promotion is proposed.
   */
  lemma PromotionSettles(today: CalendarDate, num: ByGeneration<nat>, infos: seq<Info>, p: Info)
    requires SortedNewestFirst(infos)
    requires p in infos
    ensures p.generation == Weekly && DayNumber(today) < p.Stamp() + 7 ==> GetPromotions(today, num, infos).weekly == None
    ensures p.generation == Monthly && DayNumber(today) < p.Stamp() + 30 ==> GetPromotions(today, num, infos).monthly == None
  {
    PromotionDecision(today, num, infos);
  }

  /**
   * Promoting is idempotent within a day: when the youngest daily record is today's, merging the
   * promoted copies (dated today, one per proposed promotion) back into the list and re-sorting
   * leaves nothing further to promote.
   */
  lemma PromotionIdempotent(today: CalendarDate, num: ByGeneration<nat>, infos: seq<Info>, added: seq<Info>)
    requires SortedNewestFirst(infos)
    requires OfGeneration(infos, Daily) != [] && OfGeneration(infos, Daily)[0].date == today
    requires forall i :: 0 <= i < |added| ==> added[i].date == today && added[i].generation != Daily
    requires GetPromotions(today, num, infos).weekly.Some? ==> exists i :: 0 <= i < |added| && added[i].generation == Weekly
    requires GetPromotions(today, num, infos).monthly.Some? ==> exists i :: 0 <= i < |added| && added[i].generation == Monthly
    ensures GetPromotions(today, num, SortInfoNewestFirst(infos + added)) == Promotions(None, None)
  {
    var ys := SortInfoNewestFirst(infos + added);
    assert forall x :: x in infos + added ==> x in ys by {
      forall x | x in infos + added ensures x in ys {
        assert multiset(infos + added)[x] > 0;
      }
    }
    if num.weekly != 0 && num.monthly != 0 {
      PromotionDecision(today, num, infos);
      SettledGeneration(today, num, infos, added, ys, Weekly, 7);
      SettledGeneration(today, num, infos, added, ys, Monthly, 30);
      PromotionDecision(today, num, ys);
    }
  }

  lemma SettledGeneration(today: CalendarDate, num: ByGeneration<nat>, infos: seq<Info>, added: seq<Info>, ys: seq<Info>,
                          g: Generation, days: int)
    requires SortedNewestFirst(ys) && days > 0
    requires forall x :: x in infos + added ==> x in ys
    requires forall i :: 0 <= i < |added| ==> added[i].date == today
    requires (exists i :: 0 <= i < |added| && added[i].generation == g) ||
             !(forall w :: w in infos && w.generation == g ==> w.Stamp() + days <= DayNumber(today))
    ensures !(forall w :: w in ys && w.generation == g ==> w.Stamp() + days <= DayNumber(today))
  {
    if i :| 0 <= i < |added| && added[i].generation == g {
      assert added[i] in infos + added;
    } else {
      var w :| w in infos && w.generation == g && w.Stamp() + days > DayNumber(today);
      assert w in infos + added;
    }
  }

  /**
   * `getPromotions` exactly as written: `isBefore` and `isEqual` are given the youngest record
   * itself rather than its date, which converts to an invalid date, so both comparisons are
   * false and a generation is promoted into only while it has no record at all.
   */
  function GetPromotionsAsWritten(today: CalendarDate, num: ByGeneration<nat>, infos: seq<Info>): (r: Promotions)
    ensures r.weekly.Some? <==> num.weekly != 0 && num.monthly != 0 && OfGeneration(infos, Daily) != [] && OfGeneration(infos, Weekly) == []
    ensures r.monthly.Some? <==> num.weekly != 0 && num.monthly != 0 && OfGeneration(infos, Daily) != [] && OfGeneration(infos, Monthly) == []
  {
    var dailies := OfGeneration(infos, Daily);
    if num.weekly == 0 || num.monthly == 0 || dailies == [] then Promotions(None, None)
    else
      var needWeekly := num.weekly != 0 && OfGeneration(infos, Weekly) == [];
      var needMonthly := num.monthly != 0 && OfGeneration(infos, Monthly) == [];
      Promotions(if needWeekly then Some(dailies[0]) else None, if needMonthly then Some(dailies[0]) else None)
  }

  // ---------------------------------------------------------------------------------------
  // The worked examples of test/utils.getPromotions.test.js (anchor 2019-02-01, quotas 7/4/6),
  // stated for the first of February of any year `y` with the same January dates.

  const TestQuota: ByGeneration<nat> := ByGeneration(7, 4, 6)

  function Rec(d: CalendarDate, g: Generation): Info {
    Info("", "", "", d, g)
  }

  function TestDailies(y: int): seq<Info>
    requires 0 <= y <= 9999
  {
    [ Rec(Date(y, 2, 1), Daily), Rec(Date(y, 1, 31), Daily), Rec(Date(y, 1, 30), Daily),
      Rec(Date(y, 1, 29), Daily), Rec(Date(y, 1, 28), Daily), Rec(Date(y, 1, 27), Daily),
      Rec(Date(y, 1, 26), Daily) ]
  }

  /** Seven daily records y-02-01 … y-01-26, then one weekly and one monthly record from January. */
  function TestInfos(y: int, weeklyDay: int, monthlyDay: int): seq<Info>
    requires 0 <= y <= 9999 && 1 <= weeklyDay <= 31 && 1 <= monthlyDay <= 31
  {
    TestDailies(y) + [Rec(Date(y, 1, weeklyDay), Weekly)] + [Rec(Date(y, 1, monthlyDay), Monthly)]
  }

  lemma {:induction false} OfGenerationAll(xs: seq<Info>, g: Generation)
    requires forall i :: 0 <= i < |xs| ==> xs[i].generation == g
    ensures OfGeneration(xs, g) == xs
  {
    if xs != [] {
      OfGenerationAll(xs[1..], g);
    }
  }

  lemma {:induction false} OfGenerationNone(xs: seq<Info>, g: Generation)
    requires forall i :: 0 <= i < |xs| ==> xs[i].generation != g
    ensures OfGeneration(xs, g) == []
  {
    if xs != [] {
      OfGenerationNone(xs[1..], g);
    }
  }

  lemma TestInfosSplit(y: int, weeklyDay: int, monthlyDay: int, g: Generation)
    requires 0 <= y <= 9999 && 1 <= weeklyDay <= 31 && 1 <= monthlyDay <= 31
    ensures OfGeneration(TestInfos(y, weeklyDay, monthlyDay), g) ==
      OfGeneration(TestDailies(y), g) + OfGeneration([Rec(Date(y, 1, weeklyDay), Weekly)], g) +
      OfGeneration([Rec(Date(y, 1, monthlyDay), Monthly)], g)
  {
    var ds := TestDailies(y);
    var w := [Rec(Date(y, 1, weeklyDay), Weekly)];
    var m := [Rec(Date(y, 1, monthlyDay), Monthly)];
    OfGenerationAppend(ds + w, m, g);
    OfGenerationAppend(ds, w, g);
  }

  lemma TestInfosByGeneration(y: int, weeklyDay: int, monthlyDay: int)
    requires 0 <= y <= 9999 && 1 <= weeklyDay <= 31 && 1 <= monthlyDay <= 31
    ensures OfGeneration(TestInfos(y, weeklyDay, monthlyDay), Daily) != []
    ensures OfGeneration(TestInfos(y, weeklyDay, monthlyDay), Daily)[0] == TestInfos(y, weeklyDay, monthlyDay)[0]
    ensures OfGeneration(TestInfos(y, weeklyDay, monthlyDay), Weekly) == [Rec(Date(y, 1, weeklyDay), Weekly)]
    ensures OfGeneration(TestInfos(y, weeklyDay, monthlyDay), Monthly) == [Rec(Date(y, 1, monthlyDay), Monthly)]
  {
    TestWeeklyOnly(y, weeklyDay, monthlyDay);
    TestMonthlyOnly(y, weeklyDay, monthlyDay);
  }

  lemma TestWeeklyOnly(y: int, weeklyDay: int, monthlyDay: int)
    requires 0 <= y <= 9999 && 1 <= weeklyDay <= 31 && 1 <= monthlyDay <= 31
    ensures OfGeneration(TestInfos(y, weeklyDay, monthlyDay), Weekly) == [Rec(Date(y, 1, weeklyDay), Weekly)]
  {
    TestInfosSplit(y, weeklyDay, monthlyDay, Weekly);
    OfGenerationNone(TestDailies(y), Weekly);
    OfGenerationAll([Rec(Date(y, 1, weeklyDay), Weekly)], Weekly);
    OfGenerationNone([Rec(Date(y, 1, monthlyDay), Monthly)], Weekly);
  }

  lemma TestMonthlyOnly(y: int, weeklyDay: int, monthlyDay: int)
    requires 0 <= y <= 9999 && 1 <= weeklyDay <= 31 && 1 <= monthlyDay <= 31
    ensures OfGeneration(TestInfos(y, weeklyDay, monthlyDay), Monthly) == [Rec(Date(y, 1, monthlyDay), Monthly)]
  {
    TestInfosSplit(y, weeklyDay, monthlyDay, Monthly);
    OfGenerationNone(TestDailies(y), Monthly);
    OfGenerationNone([Rec(Date(y, 1, weeklyDay), Weekly)], Monthly);
    OfGenerationAll([Rec(Date(y, 1, monthlyDay), Monthly)], Monthly);
  }

  /** January 1 + (d − 1) is 32 − d days before February 1. */
  lemma JanuaryDistance(y: int, d: int)
    requires 0 <= y <= 9999 && 1 <= d <= 31
    ensures DayNumber(Date(y, 1, d)) == DayNumber(Date(y, 2, 1)) - 32 + d
  {
  }

  lemma ExampleNoPromotion(y: int)
    requires 0 <= y <= 9999
    ensures GetPromotions(Date(y, 2, 1), TestQuota, TestInfos(y, 26, 26)) == Promotions(None, None)
  {
    JanuaryDistance(y, 26);
    TestInfosByGeneration(y, 26, 26);
  }

  lemma ExampleWeeklyPromotion(y: int)
    requires 0 <= y <= 9999
    ensures GetPromotions(Date(y, 2, 1), TestQuota, TestInfos(y, 25, 3)) == Promotions(Some(TestInfos(y, 25, 3)[0]), None)
  {
    JanuaryDistance(y, 25);
    JanuaryDistance(y, 3);
    TestInfosByGeneration(y, 25, 3);
  }

  lemma ExampleMonthlyPromotion(y: int)
    requires 0 <= y <= 9999
    ensures GetPromotions(Date(y, 2, 1), TestQuota, TestInfos(y, 27, 2)) == Promotions(None, Some(TestInfos(y, 27, 2)[0]))
  {
    JanuaryDistance(y, 27);
    JanuaryDistance(y, 2);
    TestInfosByGeneration(y, 27, 2);
  }

  /** As written, the weekly example yields no promotion: a weekly record exists, so none is "needed". */
  lemma AsWrittenMissesWeeklyPromotion(y: int)
    requires 0 <= y <= 9999
    ensures GetPromotionsAsWritten(Date(y, 2, 1), TestQuota, TestInfos(y, 25, 3)) == Promotions(None, None)
    ensures GetPromotions(Date(y, 2, 1), TestQuota, TestInfos(y, 25, 3)).weekly.Some?
  {
    ExampleWeeklyPromotion(y);
    TestInfosByGeneration(y, 25, 3);
  }

  // ---------------------------------------------------------------------------------------
  // getExpiredInfos

  /** The records of `xs` past the first `n` (none when there are at most `n`). */
  function Beyond(xs: seq<Info>, n: nat): (r: seq<Info>)
    ensures |r| == if |xs| > n then |xs| - n else 0
  {
    if |xs| <= n then [] else xs[n..]
  }

  lemma BeyondSnoc(xs: seq<Info>, x: Info, n: nat)
    ensures Beyond(xs + [x], n) == if |xs| + 1 > n then Beyond(xs, n) + [x] else Beyond(xs, n)
  {
    if |xs| + 1 > n && |xs| > n {
      assert (xs + [x])[n..] == xs[n..] + [x];
    }
  }

  /** The reduce accumulator: records seen per generation, and the expired records so far. */
  datatype ExpiryScan = ExpiryScan(numFound: ByGeneration<nat>, expiredInfos: seq<Info>)

  function SetCount(c: ByGeneration<nat>, g: Generation, v: nat): ByGeneration<nat>
  {
    match g
    case Daily => c.(daily := v)
    case Weekly => c.(weekly := v)
    case Monthly => c.(monthly := v)
  }

  /** One reduce step: count `x` in its generation, and expire it when the count exceeds the quota. */
  function ScanStep(num: ByGeneration<nat>, acc: ExpiryScan, x: Info): ExpiryScan
  {
    var foundNum := acc.numFound.Get(x.generation) + 1;
    ExpiryScan(SetCount(acc.numFound, x.generation, foundNum),
               if foundNum > num.Get(x.generation) then acc.expiredInfos + [x] else acc.expiredInfos)
  }

  /** `R.reduce` of the step over the records, left to right. */
  function ScanAll(num: ByGeneration<nat>, acc: ExpiryScan, xs: seq<Info>): ExpiryScan
    decreases |xs|
  {
    if xs == [] then acc else ScanAll(num, ScanStep(num, acc, xs[0]), xs[1..])
  }

  const ScanStart: ExpiryScan := ExpiryScan(ByGeneration(0, 0, 0), [])

  lemma {:induction false} ScanAllSnoc(num: ByGeneration<nat>, acc: ExpiryScan, xs: seq<Info>, x: Info)
    ensures ScanAll(num, acc, xs + [x]) == ScanStep(num, ScanAll(num, acc, xs), x)
    decreases |xs|
  {
    if xs == [] {
      assert xs + [x] == [x];
      assert [x][1..] == [];
    } else {
      assert (xs + [x])[0] == xs[0];
      assert (xs + [x])[1..] == xs[1..] + [x];
      ScanAllSnoc(num, ScanStep(num, acc, xs[0]), xs[1..], x);
    }
  }

  /** One step keeps the per-generation count and expiry facts. */
  lemma ScanStepPerGeneration(num: ByGeneration<nat>, before: ExpiryScan, ys: seq<Info>, x: Info, g: Generation)
    requires before.numFound.Get(x.generation) == |OfGeneration(ys, x.generation)|
    requires before.numFound.Get(g) == |OfGeneration(ys, g)|
    requires OfGeneration(before.expiredInfos, g) == Beyond(OfGeneration(ys, g), num.Get(g))
    ensures ScanStep(num, before, x).numFound.Get(g) == |OfGeneration(ys + [x], g)|
    ensures OfGeneration(ScanStep(num, before, x).expiredInfos, g) == Beyond(OfGeneration(ys + [x], g), num.Get(g))
  {
    var c := OfGeneration(ys, g);
    var after := ScanStep(num, before, x);
    var foundNum := before.numFound.Get(x.generation) + 1;
    assert [x][1..] == [];
    OfGenerationAppend(ys, [x], g);
    OfGenerationAppend(before.expiredInfos, [x], g);
    if x.generation == g {
      assert OfGeneration(ys + [x], g) == c + [x];
      assert after.numFound.Get(g) == |c| + 1;
      BeyondSnoc(c, x, num.Get(g));
    } else {
      assert OfGeneration(ys + [x], g) == c;
      assert after.numFound.Get(g) == before.numFound.Get(g);
      assert OfGeneration(after.expiredInfos, g) == OfGeneration(before.expiredInfos, g);
    }
  }

  /** What the scan has computed after any prefix of the input. */
  lemma {:induction false} ScanInvariant(num: ByGeneration<nat>, xs: seq<Info>)
    ensures forall g :: ScanAll(num, ScanStart, xs).numFound.Get(g) == |OfGeneration(xs, g)|
    ensures forall g :: OfGeneration(ScanAll(num, ScanStart, xs).expiredInfos, g) == Beyond(OfGeneration(xs, g), num.Get(g))
    ensures IsSubsequence(ScanAll(num, ScanStart, xs).expiredInfos, xs)
    decreases |xs|
  {
    if xs == [] {
    } else {
      var ys := xs[..|xs| - 1];
      var x := xs[|xs| - 1];
      assert xs == ys + [x];
      ScanInvariant(num, ys);
      ScanAllSnoc(num, ScanStart, ys, x);
      var before := ScanAll(num, ScanStart, ys);
      var foundNum := before.numFound.Get(x.generation) + 1;
      forall g {
        ScanStepPerGeneration(num, before, ys, x, g);
      }
      if foundNum > num.Get(x.generation) {
        SubsequenceSnocBoth(before.expiredInfos, ys, x);
      } else {
        SubsequenceSnocRight(before.expiredInfos, ys, x);
      }
    }
  }

  /**
   * `getExpiredInfos`: the records whose 1-based position among the records of their own
   * generation, in input order, exceeds that generation's quota; listed in input order.
   */
  function GetExpiredInfos(num: ByGeneration<nat>, infos: seq<Info>): (r: seq<Info>)
    ensures forall g :: OfGeneration(r, g) == Beyond(OfGeneration(infos, g), num.Get(g))
    ensures forall g :: |OfGeneration(r, g)| == (if |OfGeneration(infos, g)| > num.Get(g) then |OfGeneration(infos, g)| - num.Get(g) else 0)
    ensures IsSubsequence(r, infos)
  {
    ScanInvariant(num, infos);
    ScanAll(num, ScanStart, infos).expiredInfos
  }
}
