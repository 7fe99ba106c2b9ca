/** What each platform operation does to the tables, row by row, and what it refuses. */
module BillingEffects {
  import opened Wrappers
  import opened Tables
  import opened PktTime
  import opened Subscriptions
  import opened BillingRuns

  /** A new subscription costs the amount given, from the start of today for a month, and so does its first charge. */
  lemma CreateEffect(p: Platform, tenantId: string, amount: real, now: int)
    ensures var r := CreateStep(p, tenantId, amount, now);
            var q, n, start := r.state, |p.subscriptions|, StartOfTodayPkt(now);
            && (r.error == Some(NotFound) <==> tenantId !in p.tenants || !p.tenants[tenantId].hasSchool)
            && (r.error == None <==> && tenantId in p.tenants && p.tenants[tenantId].hasSchool
                                     && forall s | s in p.subscriptions :: s.tenantId != tenantId)
            && (r.error.Some? ==> q == p && r.error.value in {NotFound, Conflict})
            && (r.error.None? ==>
                  && q.tenants == p.tenants && |q.subscriptions| == n + 1 && q.subscriptions[..n] == p.subscriptions
                  && q.subscriptions[n]
                     == Subscription(tenantId, amount, Active, start, AddOneMonthPkt(start), None, None)
                  && q.records == p.records + [BillingRecord(tenantId, n, amount, Pending, start, None)])
  {
    hide AddOneMonthPkt, StartOfTodayPkt;
    if HasSubscription(p, tenantId) {
      var i :| 0 <= i < |p.subscriptions| && p.subscriptions[i].tenantId == tenantId;
      assert p.subscriptions[i] in p.subscriptions;
    }
  }

  /** Onboarding adds an active school with its subscription and first charge, and touches no other. */
  lemma OnboardEffect(p: Platform, tenantId: string, amount: real, now: int)
    ensures var r := OnboardStep(p, tenantId, amount, now);
            var q, n, start := r.state, |p.subscriptions|, StartOfTodayPkt(now);
            && (r.error == None <==> tenantId !in p.tenants)
            && (r.error.Some? ==> q == p && r.error == Some(Conflict))
            && (r.error.None? ==>
                  && q.tenants == p.tenants[tenantId := Tenant(true, TenantActive)]
                  && q.subscriptions
                     == p.subscriptions + [Subscription(tenantId, amount, Active, start, AddOneMonthPkt(start), None, None)]
                  && q.records == p.records + [BillingRecord(tenantId, n, amount, Pending, start, None)])
  {
    hide AddOneMonthPkt, StartOfTodayPkt;
  }

  /** A re-price sets exactly the new price of that subscription, and nothing else. */
  lemma RepriceEffect(p: Platform, id: nat, amount: real)
    requires id < |p.subscriptions| && amount != 0.0
    ensures var r := UpdateStep(p, id, Some(amount), false);
            && r.error == None && r.state.tenants == p.tenants && r.state.records == p.records
            && PutAt(p.subscriptions, r.state.subscriptions, id, p.subscriptions[id].(monthlyAmount := amount))
  {
  }

  /** A cancellation sets the status and drops the grace end, and nothing else. */
  lemma CancelEffect(p: Platform, id: nat, amount: Option<real>)
    requires id < |p.subscriptions| && (amount == None || amount == Some(0.0))
    ensures var r := UpdateStep(p, id, amount, true);
            && r.error == None && r.state.tenants == p.tenants && r.state.records == p.records
            && PutAt(p.subscriptions, r.state.subscriptions, id, p.subscriptions[id].(status := Canceled, graceEndsAt := None))
  {
  }

  /** An update is refused for a price and a cancellation together, then for an unknown subscription; an empty one does nothing. */
  lemma UpdateRefuses(p: Platform, id: nat, amount: Option<real>, cancel: bool)
    ensures var r := UpdateStep(p, id, amount, cancel);
            var priced := amount.Some? && amount.value != 0.0;
            && (r.error == Some(BadRequest) <==> priced && cancel)
            && (r.error == Some(NotFound) <==> !(priced && cancel) && id >= |p.subscriptions|)
            && (r.error == None <==> !(priced && cancel) && id < |p.subscriptions|)
            && (r.error.Some? || (!priced && !cancel) ==> r.state == p)
  {
  }

  /**
   * Confirming pays the open charge, dates the payment, renews from the old period end, issues the next
   * charge at the subscription's price, and reactivates the school only if it was suspended.
   */
  lemma ConfirmEffect(p: Platform, id: nat, paidAt: int) returns (j: nat)
    requires Inv(p) && id < |p.subscriptions|
    ensures var q := ConfirmStep(p, id, paidAt).state;
            var s, n := p.subscriptions[id], |p.records|;
            && OpenCharge(p, id, j)
            && |q.records| == n + 1
            && q.records[j] == p.records[j].(status := Paid, paidAt := Some(paidAt))
            && (forall k | 0 <= k < n && k != j :: q.records[k] == p.records[k])
            && q.records[n] == BillingRecord(s.tenantId, id, s.monthlyAmount, Pending, s.currentPeriodEnd, None)
            && PutAt(p.subscriptions, q.subscriptions, id,
                     Subscription(s.tenantId, s.monthlyAmount, Active, s.currentPeriodEnd,
                                  AddOneMonthPkt(s.currentPeriodEnd), None, None))
            && s.tenantId in p.tenants
            && q.tenants == p.tenants[s.tenantId := p.tenants[s.tenantId].(status :=
                              if p.tenants[s.tenantId].status == TenantSuspended then TenantActive
                              else p.tenants[s.tenantId].status)]
  {
    ConfirmNeverFails(p, id, paidAt);
    j := LatestPending(p.records, |p.records|, id).value;
    assert p.subscriptions[id].tenantId in p.tenants;
    hide AddOneMonthPkt, LatestPending, OpenCharge, Inv;
  }

  lemma ConfirmRefuses(p: Platform, id: nat, paidAt: int)
    ensures var r := ConfirmStep(p, id, paidAt);
            && (r.error == Some(NotFound) <==> id >= |p.subscriptions|)
            && (r.error.Some? ==> r.state == p)
  {
    hide AddOneMonthPkt, LatestPending;
  }

  /** After a re-price the next confirmed payment issues a charge of the new price, for the next period. */
  lemma RepricedIsCharged(p: Platform, id: nat, amount: real, paidAt: int)
    requires Inv(p) && id < |p.subscriptions| && amount != 0.0
    ensures var q := ConfirmStep(UpdateStep(p, id, Some(amount), false).state, id, paidAt).state;
            && |q.records| == |p.records| + 1
            && q.records[|p.records|]
               == BillingRecord(p.subscriptions[id].tenantId, id, amount, Pending, p.subscriptions[id].currentPeriodEnd, None)
  {
    RepriceEffect(p, id, amount);
    UpdateKeeps(p, id, Some(amount), false);
    hide Inv, UpdateStep, ConfirmStep;
    var j := ConfirmEffect(UpdateStep(p, id, Some(amount), false).state, id, paidAt);
  }

  /**
   * A sweep, in days of 86 400 000 milliseconds: an active subscription past its period end goes into
   * grace for the grace days, and is suspended with its school when they are over.
   */
  lemma SweepEffect(p: Platform, now1: int, now2: int, graceDays: int, i: nat)
    requires i < |p.subscriptions|
    ensures var q := SweepStep(p, now1, now2, graceDays);
            var s := p.subscriptions[i];
            var graceEnd := s.currentPeriodEnd + graceDays * 86_400_000;
            && q.records == p.records && |q.subscriptions| == |p.subscriptions|
            && q.subscriptions[i]
               == if s.status == Active && s.currentPeriodEnd <= now1 then
                    s.(status := if graceEnd <= now2 then Suspended else Grace,
                       graceEndsAt := Some(graceEnd), lastReminderEmailAt := Some(now1))
                  else if s.status == Grace && s.graceEndsAt.Some? && s.graceEndsAt.value <= now2 then s.(status := Suspended)
                  else s
  {
    SweptRows(p, now1, now2, graceDays);
  }

  /** Some subscription of the tenant is past its grace window when the sweep ends, having lapsed before it or in it. */
  ghost predicate GraceOver(p: Platform, t: string, now1: int, now2: int, graceDays: int) {
    exists i | 0 <= i < |p.subscriptions| :: p.subscriptions[i].tenantId == t
      && ((p.subscriptions[i].status == Active && p.subscriptions[i].currentPeriodEnd <= now1
           && p.subscriptions[i].currentPeriodEnd + graceDays * 86_400_000 <= now2)
          || (p.subscriptions[i].status == Grace && p.subscriptions[i].graceEndsAt.Some?
              && p.subscriptions[i].graceEndsAt.value <= now2))
  }

  /** The sweep suspends exactly the schools whose grace window is over, and edits no other. */
  lemma SweepTenantEffect(p: Platform, now1: int, now2: int, graceDays: int, t: string)
    requires t in p.tenants
    ensures var q := SweepStep(p, now1, now2, graceDays);
            && q.tenants.Keys == p.tenants.Keys
            && q.tenants[t] == Tenant(p.tenants[t].hasSchool,
                                      if GraceOver(p, t, now1, now2, graceDays) then TenantSuspended else p.tenants[t].status)
  {
    SweptRows(p, now1, now2, graceDays);
    if TenantSwept(p, t, now1, now2, graceDays) {
      var i :| SweptRowOf(p, i, t, now1, now2, graceDays);
      assert p.subscriptions[i].tenantId == t;
    }
    if GraceOver(p, t, now1, now2, graceDays) {
      var i :| 0 <= i < |p.subscriptions| && p.subscriptions[i].tenantId == t
        && ((p.subscriptions[i].status == Active && p.subscriptions[i].currentPeriodEnd <= now1
             && p.subscriptions[i].currentPeriodEnd + graceDays * 86_400_000 <= now2)
            || (p.subscriptions[i].status == Grace && p.subscriptions[i].graceEndsAt.Some?
                && p.subscriptions[i].graceEndsAt.value <= now2));
      assert SweptRowOf(p, i, t, now1, now2, graceDays);
    }
  }

  /** A manual edit sets the school's status as asked, and nothing else. */
  lemma SetStatusEffect(p: Platform, tenantId: string, status: TenantStatus)
    ensures var r := SetStatusStep(p, tenantId, status);
            && (r.error == None <==> tenantId in p.tenants && p.tenants[tenantId].hasSchool)
            && (r.error.Some? ==> r.error == Some(NotFound) && r.state == p)
            && r.state.subscriptions == p.subscriptions && r.state.records == p.records && r.state.tenants.Keys == p.tenants.Keys
            && (r.error.None? ==> r.state.tenants[tenantId] == p.tenants[tenantId].(status := status))
            && forall t | t in p.tenants && t != tenantId :: r.state.tenants[t] == p.tenants[t]
  {
  }
}
