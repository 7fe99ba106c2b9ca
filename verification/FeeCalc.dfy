/** Invoice arithmetic: discounts, line items and payment status. */
module FeeCalc {
  import opened Wrappers
  import opened Money
  import opened Selections

  datatype DiscountKind = Flat | Percentage

  datatype DiscountRule = DiscountRule(caption: string, kind: DiscountKind, value: real)

  datatype LineItem = LineItem(caption: string, amount: real)

  datatype InvoiceStatus = Pending | Partial | PaidUp | Overdue | Cancelled

  /** A row of the invoice table: for a student, for an application, or for both once the applicant is enrolled. */
  datatype Invoice = Invoice(
    studentId: Option<string>, admissionId: Option<nat>,
    totalAmount: real, paidAmount: real, dueDate: int, status: InvoiceStatus)

  datatype Payment = Payment(invoiceId: nat, amount: real, paidAt: int, refunded: bool)

  function Discount(base: real, rule: DiscountRule): real {
    if rule.kind.Percentage? then base * (rule.value / 100.0) else rule.value
  }

  /** A flat rule takes off its value, a percentage rule that many hundredths of the fee. */
  lemma DiscountMeaning(base: real, rule: DiscountRule)
    ensures rule.kind.Flat? ==> Discount(base, rule) == rule.value
    ensures rule.kind.Percentage? ==> 100.0 * Discount(base, rule) == base * rule.value
  {
    if rule.kind.Percentage? {
      var share := rule.value / 100.0;
      assert 100.0 * share == rule.value;
      assert 100.0 * (base * share) == base * (100.0 * share);
    }
  }

  function TotalDiscount(base: real, rules: seq<DiscountRule>): real {
    if rules == [] then 0.0 else TotalDiscount(base, rules[..|rules| - 1]) + Discount(base, rules[|rules| - 1])
  }

  /** What is charged: the fee less its discounts to the cent, and nothing when they exceed it. */
  function ComputeDiscountedAmount(base: real, rules: seq<DiscountRule>): real {
    Max0(Round2(base - TotalDiscount(base, rules)))
  }

  function ComputeInvoiceStatus(totalAmount: real, paidAmount: real, dueDate: int, now: int): InvoiceStatus {
    if totalAmount > 0.0 && paidAmount >= totalAmount then PaidUp
    else if paidAmount > 0.0 then Partial
    else if dueDate < now then Overdue else Pending
  }

  /** When an invoice has each status: nothing is paid on overdue and pending ones, and none is cancelled by computing. */
  lemma StatusMeaning(total: real, paid: real, dueDate: int, now: int)
    ensures var status := ComputeInvoiceStatus(total, paid, dueDate, now);
            && (status.PaidUp? <==> total > 0.0 && paid >= total)
            && (status.Partial? <==> paid > 0.0 && (paid < total || total <= 0.0))
            && (status.Overdue? <==> paid <= 0.0 && dueDate < now)
            && (status.Pending? <==> paid <= 0.0 && now <= dueDate)
  {
  }

  function RuleItem(base: real, rule: DiscountRule): seq<LineItem> {
    if Discount(base, rule) > 0.0 then [LineItem("Discount: " + rule.caption, -Round2(Discount(base, rule)))] else []
  }

  function LineItems(name: string, base: real, rules: seq<DiscountRule>): seq<LineItem> {
    if rules == [] then [LineItem(name, Round2(base))]
    else LineItems(name, base, rules[..|rules| - 1]) + RuleItem(base, rules[|rules| - 1])
  }

  method BuildLineItems(name: string, base: real, rules: seq<DiscountRule>) returns (items: seq<LineItem>)
    ensures items == LineItems(name, base, rules)
  {
    hide Discount, Round2;
    items := [LineItem(name, Round2(base))];
    for i := 0 to |rules|
      invariant items == LineItems(name, base, rules[..i])
    {
      var rule := rules[i];
      var amount := Discount(base, rule);
      assert items == items + [];
      if amount > 0.0 {
        items := items + [LineItem("Discount: " + rule.caption, -Round2(amount))];
      }
      assert rules[..i + 1][..i] == rules[..i];
    }
    assert rules[..|rules|] == rules;
  }

  /** The fee comes first, and after it one negative item per positive discount, in the order of the rules. */
  lemma {:induction false} ItemsListed(name: string, base: real, rules: seq<DiscountRule>)
    ensures LineItems(name, base, rules) != [] && LineItems(name, base, rules)[0] == LineItem(name, Round2(base))
    ensures Selects(rules, (rule: DiscountRule) => Discount(base, rule) > 0.0,
                    (rule: DiscountRule) => LineItem("Discount: " + rule.caption, -Round2(Discount(base, rule))),
                    LineItems(name, base, rules)[1..])
  {
    hide Selects, Discount, Round2;
    var keep := (rule: DiscountRule) => Discount(base, rule) > 0.0;
    var project := (rule: DiscountRule) => LineItem("Discount: " + rule.caption, -Round2(Discount(base, rule)));
    if rules == [] {
      SelectsNothing(keep, project);
      assert LineItems(name, base, rules)[1..] == [];
    } else {
      var n := |rules| - 1;
      ItemsListed(name, base, rules[..n]);
      SelectsOneMore(rules[..n], rules[n], keep, project, LineItems(name, base, rules[..n])[1..]);
      assert rules[..n] + [rules[n]] == rules;
      assert LineItems(name, base, rules)[1..] == LineItems(name, base, rules[..n])[1..] + RuleItem(base, rules[n]);
    }
  }

  function ItemSum(items: seq<LineItem>): real {
    if items == [] then 0.0 else ItemSum(items[..|items| - 1]) + items[|items| - 1].amount
  }

  /** What fee forms accept: a non-negative amount and non-negative discount values. */
  predicate ValidRules(base: real, rules: seq<DiscountRule>) {
    base >= 0.0 && forall i | 0 <= i < |rules| :: rules[i].value >= 0.0
  }

  lemma ProductNonNegative(x: real, y: real)
    requires x >= 0.0 && y >= 0.0
    ensures x * y >= 0.0
  {
  }

  lemma DiscountNonNegative(base: real, rule: DiscountRule)
    requires base >= 0.0 && rule.value >= 0.0
    ensures Discount(base, rule) >= 0.0
  {
    assert rule.value / 100.0 >= 0.0;
    ProductNonNegative(base, rule.value / 100.0);
  }

  lemma {:induction false} TotalDiscountNonNegative(base: real, rules: seq<DiscountRule>)
    requires ValidRules(base, rules)
    ensures TotalDiscount(base, rules) >= 0.0
  {
    hide Discount;
    if rules != [] {
      TotalDiscountNonNegative(base, rules[..|rules| - 1]);
      DiscountNonNegative(base, rules[|rules| - 1]);
    }
  }

  lemma ZeroCents()
    ensures Round2(0.0) == 0.0 && WholeCents(0.0)
  {
    CentsOf(0.0, 0);
    Round2Near(0.0);
  }

  /** A discounted invoice is never negative and never dearer than the undiscounted fee. */
  lemma DiscountedWithinFee(base: real, rules: seq<DiscountRule>)
    requires ValidRules(base, rules)
    ensures 0.0 <= ComputeDiscountedAmount(base, rules) <= Round2(base)
  {
    hide Round2, TotalDiscount;
    TotalDiscountNonNegative(base, rules);
    Round2Monotone(base - TotalDiscount(base, rules), base);
    Round2Monotone(0.0, base);
    ZeroCents();
  }

  /** The charge is the fee less all discounts, to the nearest cent, and nothing below that. */
  lemma ChargeNearExact(base: real, rules: seq<DiscountRule>)
    ensures WholeCents(ComputeDiscountedAmount(base, rules)) && ComputeDiscountedAmount(base, rules) >= 0.0
    ensures var exact := base - TotalDiscount(base, rules);
            && (exact >= 0.0 ==> -0.005 < ComputeDiscountedAmount(base, rules) - exact <= 0.005)
            && (exact <= 0.0 ==> ComputeDiscountedAmount(base, rules) == 0.0)
  {
    hide Round2, TotalDiscount, WholeCents;
    var exact := base - TotalDiscount(base, rules);
    Round2Near(exact);
    ZeroCents();
    CentsClosed(Round2(exact), 0.0);
    if exact >= 0.0 { Round2Monotone(0.0, exact); }
    if exact <= 0.0 { Round2Monotone(exact, 0.0); }
  }

  lemma {:induction false} ItemSumAppend(a: seq<LineItem>, b: seq<LineItem>)
    requires |b| <= 1
    ensures ItemSum(a + b) == ItemSum(a) + ItemSum(b)
  {
    if b == [] {
      assert a + b == a;
    } else {
      assert (a + b)[..|a|] == a && b[..0] == [];
    }
  }

  lemma RuleItemSum(base: real, rule: DiscountRule)
    requires base >= 0.0 && rule.value >= 0.0
    ensures -0.005 <= ItemSum(RuleItem(base, rule)) + Discount(base, rule) <= 0.005
    ensures WholeCents(Discount(base, rule)) ==> ItemSum(RuleItem(base, rule)) == -Discount(base, rule)
  {
    hide Discount, Round2, WholeCents;
    DiscountNonNegative(base, rule);
    Round2Near(Discount(base, rule));
    if Discount(base, rule) > 0.0 { assert RuleItem(base, rule)[..0] == []; }
  }

  lemma RuleItemLength(base: real, rule: DiscountRule)
    ensures |RuleItem(base, rule)| <= 1
  {
  }

  /** The items follow the exact amounts to within half a cent each. */
  lemma {:induction false} ItemsNearExact(name: string, base: real, rules: seq<DiscountRule>)
    requires ValidRules(base, rules)
    ensures var d := ItemSum(LineItems(name, base, rules)) - (base - TotalDiscount(base, rules));
            -0.005 * (|rules| + 1) as real <= d <= 0.005 * (|rules| + 1) as real
  {
    hide Round2, Discount, WholeCents, RuleItem;
    if rules == [] {
      Round2Near(base);
      assert [LineItem(name, Round2(base))][..0] == [];
    } else {
      var n := |rules| - 1;
      ItemsNearExact(name, base, rules[..n]);
      RuleItemSum(base, rules[n]);
      RuleItemLength(base, rules[n]);
      ItemSumAppend(LineItems(name, base, rules[..n]), RuleItem(base, rules[n]));
    }
  }

  predicate RulesInCents(base: real, rules: seq<DiscountRule>) {
    WholeCents(base) && forall i | 0 <= i < |rules| :: WholeCents(Discount(base, rules[i]))
  }

  lemma {:induction false} ItemsExact(name: string, base: real, rules: seq<DiscountRule>)
    requires ValidRules(base, rules) && RulesInCents(base, rules)
    ensures ItemSum(LineItems(name, base, rules)) == base - TotalDiscount(base, rules)
    ensures WholeCents(base - TotalDiscount(base, rules))
  {
    hide Round2, Discount, WholeCents, RuleItem;
    if rules == [] {
      Round2Near(base);
      assert [LineItem(name, Round2(base))][..0] == [];
    } else {
      var n := |rules| - 1;
      ItemsExact(name, base, rules[..n]);
      RuleItemSum(base, rules[n]);
      RuleItemLength(base, rules[n]);
      ItemSumAppend(LineItems(name, base, rules[..n]), RuleItem(base, rules[n]));
      CentsClosed(base - TotalDiscount(base, rules[..n]), Discount(base, rules[n]));
    }
  }

  /**
   * When the discounts do not exceed the fee, the printed items add up to the charged total within
   * half a cent per rule plus one cent. In whole cents they add up exactly, and only then: beyond the
   * fee the charge stops at nothing while the items go on below it.
   */
  lemma ItemsAddUp(name: string, base: real, rules: seq<DiscountRule>)
    requires ValidRules(base, rules)
    ensures var d := ItemSum(LineItems(name, base, rules)) - ComputeDiscountedAmount(base, rules);
            TotalDiscount(base, rules) <= base ==>
              -0.005 * (|rules| + 2) as real <= d <= 0.005 * (|rules| + 2) as real
    ensures RulesInCents(base, rules) ==>
              (ItemSum(LineItems(name, base, rules)) == ComputeDiscountedAmount(base, rules)
               <==> TotalDiscount(base, rules) <= base)
    ensures base < TotalDiscount(base, rules) ==> ComputeDiscountedAmount(base, rules) == 0.0
  {
    hide Round2, TotalDiscount, WholeCents, LineItems, ItemSum, RulesInCents;
    var exact := base - TotalDiscount(base, rules);
    ItemsNearExact(name, base, rules);
    if RulesInCents(base, rules) { ItemsExact(name, base, rules); }
    Round2Near(exact);
    if exact >= 0.0 { Round2Monotone(0.0, exact); } else { Round2Monotone(exact, 0.0); }
    ZeroCents();
  }

  /** A waiver of 150 on a fee of 100 charges nothing, while the items add up to 50 below nothing. */
  lemma OverDiscountExample(name: string)
    ensures var rules := [DiscountRule("waiver", Flat, 150.0)];
            ComputeDiscountedAmount(100.0, rules) == 0.0 && ItemSum(LineItems(name, 100.0, rules)) == -50.0
  {
    var rules := [DiscountRule("waiver", Flat, 150.0)];
    CentsOf(100.0, 10000);
    CentsOf(150.0, 15000);
    CentsOf(-50.0, -5000);
    Round2Near(100.0);
    Round2Near(150.0);
    Round2Near(-50.0);
    assert rules[..0] == [];
    assert TotalDiscount(100.0, rules) == 150.0;
    var items := [LineItem(name, 100.0), LineItem("Discount: waiver", -150.0)];
    assert Discount(100.0, rules[0]) == 150.0 && "Discount: " + "waiver" == "Discount: waiver";
    assert RuleItem(100.0, rules[0]) == [items[1]] && LineItems(name, 100.0, []) == [items[0]];
    assert LineItems(name, 100.0, rules) == items;
    assert items[..1] == [items[0]] && [items[0]][..0] == [];
    assert ItemSum(items) == ItemSum([items[0]]) - 150.0;
  }
}
