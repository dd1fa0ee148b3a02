/**
 * Concrete runs of the silver transform on small inputs: a return line item,
 * and two transactions of which one is canceled.
 */
module Scenarios {
  import opened Options
  import opened Relational
  import opened PosRecords
  import opened Silver
  import Gold

  // ---------------------------------------------------------------------
  // A return.

  const ReturnedItem := Item(Some("R"), Some("Returned article"), Some("D2"), Some(10), Some(2))
  const ReturnOfR := LineItem(None, Some(ReturnedItem), None, None)
  const Tx3 := Payload(Some("TX3"), Some("S1"), Some("W1"), Some("O1"), Some(0), Some([ReturnOfR]), None)
  const ReturnInput := [RawRecord(Some(Tx3))]
  const ReturnLine := ExplodedRow(HeaderOf(Tx3), ReturnOfR)

  lemma ReturnKept()
    ensures KeptRows(ReturnInput) == [ReturnLine]
  {
    assert Map(Project, ReturnInput) == [Tx3];
    assert LineItemRows(Tx3) == [ReturnLine];
    assert Explode(Transactions(ReturnInput)) == [ReturnLine];
    assert CanceledIds([ReturnLine]) == {};
    FilterKeepsOne(e => Survives(e, {}), ReturnLine);
  }

  /** A transaction whose only line item is a ReturnItem with Amount 10 and
      Quantity 2 gives one silver row with gross amount -10 and quantity -2;
      with no discount its net amount is -10. */
  lemma ReturnIsNegated()
    ensures |Transform(ReturnInput)| == 1
    ensures var r := Transform(ReturnInput)[0];
      && r.transactionId == Some("TX3")
      && r.itemId == Some("R")
      && r.grossAmount == Some(-10)
      && r.quantity == Some(-2)
      && r.totalDiscountAmount == 0
      && r.netAmount == Some(-10)
  {
    ReturnKept();
    var sale := ToSaleRow(ReturnLine);
    assert Map(ToSaleRow, [ReturnLine]) == [sale];
    FilterKeepsOne(IsSaleOrReturnRow, ReturnLine);
    FilterKeepsOne(HasItemId, sale);
    assert SaleRows([ReturnLine]) == [sale];
    assert DiscountRows([ReturnLine]) == [];
    assert AmountsFor([], SaleKey(sale)) == [];
  }

  // ---------------------------------------------------------------------
  // One transaction kept, one canceled.

  const SaleOfA := LineItem(Some(Item(Some("A"), Some("Article A"), Some("D1"), Some(100), Some(1))), None, None, None)
  const DiscountOnA := LineItem(None, None, Some(Discount(Some([DiscountEntry(Some("A"), Some(10))]))), None)
  const SaleOfB := LineItem(Some(Item(Some("B"), Some("Article B"), Some("D1"), Some(50), Some(1))), None, None, None)
  const Cancellation := LineItem(None, None, None, Some(TransactionInfo(Some("Canceled"))))

  const Tx1 := Payload(Some("TX1"), Some("S1"), Some("W1"), Some("O1"), Some(1700000000000), Some([SaleOfA, DiscountOnA]), None)
  const Tx2 := Payload(Some("TX2"), Some("S1"), Some("W1"), Some("O1"), Some(1700000000000), Some([SaleOfB, Cancellation]), None)

  const Input := [RawRecord(Some(Tx1)), RawRecord(Some(Tx2))]

  const SaleRowA := ExplodedRow(HeaderOf(Tx1), SaleOfA)
  const DiscountRowA := ExplodedRow(HeaderOf(Tx1), DiscountOnA)
  const SaleRowB := ExplodedRow(HeaderOf(Tx2), SaleOfB)
  const CancelRow := ExplodedRow(HeaderOf(Tx2), Cancellation)
  const Kept := [SaleRowA, DiscountRowA]
  const Exploded := [SaleRowA, DiscountRowA, SaleRowB, CancelRow]

  lemma InputTransactions()
    ensures Transactions(Input) == [Tx1, Tx2]
  {
    assert Map(Project, Input) == [Tx1, Tx2];
  }

  lemma InputExploded()
    ensures Explode(Transactions(Input)) == Exploded
  {
    InputTransactions();
    assert LineItemRows(Tx1) == Kept;
    assert LineItemRows(Tx2) == [SaleRowB, CancelRow];
  }

  lemma InputCanceledIds()
    ensures CanceledIds(Exploded) == {Some("TX2")}
  {
    assert CancelRow in Exploded;
  }

  lemma FilterKeepsFirstTwo<T(!new)>(p: T -> bool, a: T, b: T, c: T, d: T)
    requires p(a) && p(b) && !p(c) && !p(d)
    ensures Filter(p, [a, b, c, d]) == [a, b]
  {
    FilterCons(p, [a, b, c, d]);
    assert [a, b, c, d][1..] == [b, c, d];
    FilterCons(p, [b, c, d]);
    assert [b, c, d][1..] == [c, d];
    FilterCons(p, [c, d]);
    assert [c, d][1..] == [d];
    FilterCons(p, [d]);
    assert [d][1..] == [];
  }

  lemma InputSurvivors()
    ensures Filter(e => Survives(e, {Some("TX2")}), Exploded) == Kept
  {
    FilterKeepsFirstTwo(e => Survives(e, {Some("TX2")}), SaleRowA, DiscountRowA, SaleRowB, CancelRow);
  }

  lemma InputKept()
    ensures KeptRows(Input) == Kept
  {
    InputExploded();
    InputCanceledIds();
    InputSurvivors();
  }

  lemma FilterKeepsFirst<T(!new)>(p: T -> bool, a: T, b: T)
    requires p(a) && !p(b)
    ensures Filter(p, [a, b]) == [a]
  {
    FilterCons(p, [a, b]);
    assert [a, b][1..] == [b];
    FilterCons(p, [b]);
    assert [b][1..] == [];
  }

  lemma FilterKeepsOne<T(!new)>(p: T -> bool, a: T)
    requires p(a)
    ensures Filter(p, [a]) == [a]
  {
    FilterCons(p, [a]);
    assert [a][1..] == [];
  }

  const SaleA := ToSaleRow(SaleRowA)
  const DiscountA := DiscountRow(Some("TX1"), Some("A"), Some(10))

  lemma KeptSales()
    ensures SaleRows(Kept) == [SaleA]
  {
    FilterKeepsFirst(IsSaleOrReturnRow, SaleRowA, DiscountRowA);
    assert Map(ToSaleRow, [SaleRowA]) == [SaleA];
    FilterKeepsOne(HasItemId, SaleA);
  }

  lemma KeptDiscounts()
    ensures DiscountRows(Kept) == [DiscountA]
  {
    assert DiscountRowsOf(SaleRowA) == [];
    assert DiscountRowsOf(DiscountRowA) == [DiscountA];
    assert Kept[1..] == [DiscountRowA];
    assert DiscountRows([DiscountRowA]) == [DiscountA] + DiscountRows([]);
  }

  lemma DiscountOfA()
    ensures TotalDiscount([DiscountA], SaleKey(SaleA)) == 10
  {
    FilterKeepsOne((d: DiscountRow) => KeyOfDiscount(d) == SaleKey(SaleA), DiscountA);
    assert AmountsFor([DiscountA], SaleKey(SaleA)) == [Some(10)];
  }

  /** TX2 carries a cancellation, so only TX1's sale of "A" reaches silver:
      one row with gross amount 100, quantity 1, the discount of 10 attributed
      and net amount 90; the fact table holds that row alone. */
  lemma CanceledTransactionEndToEnd()
    ensures |Transform(Input)| == 1
    ensures var r := Transform(Input)[0];
      && r.transactionId == Some("TX1")
      && r.itemId == Some("A")
      && r.grossAmount == Some(100)
      && r.quantity == Some(1)
      && r.totalDiscountAmount == 10
      && r.netAmount == Some(90)
    ensures var fact := Gold.Dimensionalize(Transform(Input)).fact;
      |fact| == 1 && fact[0].transactionId == Some("TX1") && fact[0].netAmount == Some(90)
  {
    InputKept();
    KeptSales();
    KeptDiscounts();
    DiscountOfA();
    Gold.FactOnePerSilverRow(Transform(Input));
  }
}
