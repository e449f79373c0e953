/** Properties that span several handlers of the shop ledger. */
module Shop {
  import opened Schema
  import opened Access
  import opened Linkage
  import opened Ledger

  /** Every owner-only handler turns away a session whose role is not
      `"owner"`, and changes nothing. */
  lemma OwnerOnlyGate(s: Store, sess: Session, customerId: Id, nameField: string, phoneField: string,
                      pinField: Option<string>, freshId: Id, kind: string, amount: real, note: string)
    requires PhonesUnique(s.customers) && Fresh(s, freshId)
    requires sess.role != Some("owner")
    ensures AddCustomer(s, sess, nameField, phoneField, pinField, freshId) == Step(NotAuthorized, s)
    ensures UpdateCustomerPhone(s, sess, customerId, phoneField) == Step(NotAuthorized, s)
    ensures AddTransaction(s, sess, customerId, kind, amount, note) == Step(NotAuthorized, s)
  {
  }

  /** Without a logged-in user the transactions page shows nothing. */
  lemma ViewNeedsSession(s: Store, role: Option<string>, ownerId: Id, customerId: Id)
    ensures ViewTransactions(s, Session(None, role), ownerId, customerId) == Denied
  {
  }

  /** The page checks only customer sessions against the path: an owner
      session sees any shop's ledger with any customer, not just its own. */
  lemma OwnerSeesEveryShop(s: Store, sess: Session, ownerId: Id, customerId: Id)
    requires IsOwner(sess) && sess.userId.Some?
    ensures ViewTransactions(s, sess, ownerId, customerId).Shown?
  {
  }

  /** After an owner records an entry, that owner's page for the customer
      lists exactly one more entry, the new one last, and its total moves by
      the entry's signed amount; every other shop's page is unchanged. */
  lemma RecordThenView(s: Store, sess: Session, customerId: Id, kind: string, amount: real, note: string,
                       viewer: Session, ownerId: Id, viewedId: Id)
    requires AddTransaction(s, sess, customerId, kind, amount, note).outcome == Ok
    requires CanRead(viewer, viewedId)
    ensures var t := Txn(sess.userId.value, customerId, kind, amount, note);
      var s1 := AddTransaction(s, sess, customerId, kind, amount, note).store;
      var before := ViewTransactions(s, viewer, ownerId, viewedId);
      var after := ViewTransactions(s1, viewer, ownerId, viewedId);
      && before.Shown? && after.Shown?
      && (if InShop(t, ownerId, viewedId)
          then after.entries == before.entries + [t] && after.total == before.total + Signed(t)
          else after == before)
  {
    var t := Txn(sess.userId.value, customerId, kind, amount, note);
    var s1 := AddTransaction(s, sess, customerId, kind, amount, note).store;
    assert s1.txns == s.txns + [t];
    ShopLedgerAppend(s.txns, t, ownerId, viewedId);
    var before := ShopLedger(s.txns, ownerId, viewedId);
    BalanceAppend(before, [t]);
    assert [t][..0] == [];
  }

  /** Worked totals: a credit of 100 and a
      payment of 30 leave 70, an upper-case payment of 10 leaves -10, and no
      entries leave 0. */
  lemma BalanceExamples(o: Id, c: Id)
    ensures Balance([Txn(o, c, "credit", 100.0, ""), Txn(o, c, "payment", 30.0, "")]) == 70.0
    ensures Balance([Txn(o, c, "PAYMENT", 10.0, "")]) == -10.0
    ensures Balance([]) == 0.0
  {
    IsPaymentIgnoresCase("credit");
    IsPaymentIgnoresCase("payment");
    IsPaymentIgnoresCase("PAYMENT");
    assert !IsPayment("credit") && IsPayment("payment") && IsPayment("PAYMENT");
    var a := [Txn(o, c, "credit", 100.0, ""), Txn(o, c, "payment", 30.0, "")];
    assert a[..1] == [a[0]] && a[..1][..0] == [];
    assert Balance(a[..1]) == 100.0;
    assert Balance(a) == Balance(a[..1]) + Signed(a[1]);
    var b := [Txn(o, c, "PAYMENT", 10.0, "")];
    assert b[..0] == [];
  }
}
