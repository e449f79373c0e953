/** The transactions side: an owner records an entry against a customer,
    and the shop-scoped view lists one owner's entries with one customer
    together with their running total. */
module Ledger {
  import opened Text
  import opened Schema
  import opened Access

  /** The entry belongs to this owner's ledger with this customer. */
  predicate InShop(t: Txn, ownerId: Id, customerId: Id) {
    t.ownerId == ownerId && t.customerId == customerId
  }

  /** The owner records an entry (the POST branch of the add-transaction
      handler). Only an owner session may; the entry is appended under the
      session's own `user_id`, with the type, amount and note as given, and
      nothing else changes. */
  function AddTransaction(s: Store, sess: Session, customerId: Id,
                          kind: string, amount: real, note: string): (r: Step)
    ensures r.outcome != Ok ==> r.store == s
    ensures r.outcome == NotAuthorized <==> !IsOwner(sess)
    ensures r.outcome == NoUserId <==> IsOwner(sess) && sess.userId.None?
    ensures r.outcome in {Ok, NotAuthorized, NoUserId}
    ensures r.store.customers == s.customers && r.store.links == s.links
    ensures r.outcome == Ok ==>
      && |r.store.txns| == |s.txns| + 1
      && r.store.txns[..|s.txns|] == s.txns
      && var t := r.store.txns[|s.txns|];
         && Some(t.ownerId) == sess.userId && t.customerId == customerId
         && t.kind == kind && t.amount == amount && t.note == note
  {
    if !IsOwner(sess) then Step(NotAuthorized, s)
    else if sess.userId.None? then Step(NoUserId, s)
    else
      var t := Txn(sess.userId.value, customerId, kind, amount, note);
      assert (s.txns + [t])[..|s.txns|] == s.txns;
      Step(Ok, s.(txns := s.txns + [t]))
  }

  /** `SELECT * FROM transactions WHERE owner_id=? AND customer_id=?`: the
      entries of one shop's ledger with one customer, in stored order.
      Every entry returned matches. */
  function ShopLedger(txns: seq<Txn>, ownerId: Id, customerId: Id): (r: seq<Txn>)
    ensures |r| <= |txns|
    ensures forall k :: 0 <= k < |r| ==> InShop(r[k], ownerId, customerId)
  {
    if txns == [] then []
    else
      var rest := ShopLedger(txns[1..], ownerId, customerId);
      if InShop(txns[0], ownerId, customerId) then [txns[0]] + rest else rest
  }

  /** The query loses nothing: every matching entry is returned as often as
      it is stored, and no other entry is returned at all. */
  lemma {:induction false} ShopLedgerComplete(txns: seq<Txn>, ownerId: Id, customerId: Id)
    ensures forall t :: multiset(ShopLedger(txns, ownerId, customerId))[t]
                        == if InShop(t, ownerId, customerId) then multiset(txns)[t] else 0
  {
    if txns != [] {
      assert txns == [txns[0]] + txns[1..];
      ShopLedgerComplete(txns[1..], ownerId, customerId);
    }
  }

  lemma ConcatAssoc(a: seq<Txn>, b: seq<Txn>, c: seq<Txn>)
    ensures a + (b + c) == (a + b) + c
  {
  }

  /** Recording an entry extends the matching shop ledger by that entry and
      leaves every other shop ledger as it was. */
  lemma {:induction false} ShopLedgerAppend(txns: seq<Txn>, t: Txn, ownerId: Id, customerId: Id)
    ensures ShopLedger(txns + [t], ownerId, customerId)
         == ShopLedger(txns, ownerId, customerId) + (if InShop(t, ownerId, customerId) then [t] else [])
  {
    if txns == [] {
      assert [t][1..] == [];
    } else {
      var u := txns + [t];
      assert u[0] == txns[0] && u[1..] == txns[1..] + [t];
      ShopLedgerAppend(txns[1..], t, ownerId, customerId);
      var head := if InShop(txns[0], ownerId, customerId) then [txns[0]] else [];
      var tail := if InShop(t, ownerId, customerId) then [t] else [];
      var mid := ShopLedger(txns[1..], ownerId, customerId);
      assert ShopLedger(u, ownerId, customerId) == head + (mid + tail);
      ConcatAssoc(head, mid, tail);
    }
  }

  /** `t["type"].lower() == "payment"`. */
  predicate IsPayment(kind: string) {
    Lower(kind) == "payment"
  }

  /** The type test ignores case: it holds exactly for the seven-letter
      words that spell "payment" in any mix of upper and lower case. */
  lemma IsPaymentIgnoresCase(kind: string)
    ensures IsPayment(kind) <==>
      |kind| == 7 && forall k :: 0 <= k < 7 ==> kind[k] == "payment"[k] || kind[k] == "PAYMENT"[k]
  {
  }

  /** What one entry adds to the total: payments subtract their amount,
      every other type adds it. */
  function Signed(t: Txn): real {
    if IsPayment(t.kind) then -t.amount else t.amount
  }

  /** The handler's running total: start from 0 and add each entry's signed
      amount, first to last. */
  function Balance(txns: seq<Txn>): real {
    if txns == [] then 0.0 else Balance(txns[..|txns| - 1]) + Signed(txns[|txns| - 1])
  }

  /** Sum of the amounts of the entries that are not payments. */
  function Credits(txns: seq<Txn>): real {
    if txns == [] then 0.0
    else (if IsPayment(txns[0].kind) then 0.0 else txns[0].amount) + Credits(txns[1..])
  }

  /** Sum of the amounts of the payment entries. */
  function Payments(txns: seq<Txn>): real {
    if txns == [] then 0.0
    else (if IsPayment(txns[0].kind) then txns[0].amount else 0.0) + Payments(txns[1..])
  }

  /** The total of a concatenation is the sum of the totals. */
  lemma {:induction false} BalanceAppend(a: seq<Txn>, b: seq<Txn>)
    ensures Balance(a + b) == Balance(a) + Balance(b)
  {
    if b == [] {
      assert a + b == a;
    } else {
      assert (a + b)[..|a + b| - 1] == a + b[..|b| - 1];
      BalanceAppend(a, b[..|b| - 1]);
    }
  }

  /** The running total is what the credits bring in minus what the
      payments take out. */
  lemma {:induction false} BalanceIsCreditsMinusPayments(txns: seq<Txn>)
    ensures Balance(txns) == Credits(txns) - Payments(txns)
  {
    if txns != [] {
      assert txns == [txns[0]] + txns[1..];
      BalanceAppend([txns[0]], txns[1..]);
      assert [txns[0]][..0] == [];
      BalanceIsCreditsMinusPayments(txns[1..]);
    }
  }

  /** The total does not depend on the order of the entries: any
      rearrangement of the same entries has the same total. */
  lemma {:induction false} BalancePermutation(a: seq<Txn>, b: seq<Txn>)
    requires multiset(a) == multiset(b)
    ensures Balance(a) == Balance(b)
    decreases |a|
  {
    if a == [] {
      assert |b| == |multiset(b)| == 0;
    } else {
      var t := a[|a| - 1];
      assert t in multiset(b);
      var k :| 0 <= k < |b| && b[k] == t;
      var rest := b[..k] + b[k + 1..];
      assert b == b[..k] + [t] + b[k + 1..];
      assert a == a[..|a| - 1] + [t];
      assert multiset(a) == multiset(a[..|a| - 1]) + multiset{t};
      assert multiset(b) == multiset(b[..k]) + multiset{t} + multiset(b[k + 1..]);
      assert multiset(rest) == multiset(b[..k]) + multiset(b[k + 1..]);
      assert multiset(a[..|a| - 1]) == multiset(a) - multiset{t};
      assert multiset(rest) == multiset(b) - multiset{t};
      BalancePermutation(a[..|a| - 1], rest);
      BalanceAppend(b[..k] + [t], b[k + 1..]);
      BalanceAppend(b[..k], [t]);
      BalanceAppend(b[..k], b[k + 1..]);
      assert [t][..0] == [];
    }
  }

  /** The handler's loop over the fetched rows, as written. */
  method ComputeBalance(txns: seq<Txn>) returns (total: real)
    ensures total == Credits(txns) - Payments(txns)
  {
    total := 0.0;
    var i := 0;
    while i < |txns|
      invariant 0 <= i <= |txns|
      invariant total == Balance(txns[..i])
    {
      var t := txns[i];
      assert txns[..i + 1][..i] == txns[..i];
      if Lower(t.kind) == "payment" {
        total := total - t.amount;
      } else {
        total := total + t.amount;
      }
      i := i + 1;
    }
    assert txns[..i] == txns;
    BalanceIsCreditsMinusPayments(txns);
  }

  /** What the transactions page shows. */
  datatype View = Denied | Shown(entries: seq<Txn>, total: real)

  /** The shop-scoped transactions page. It needs a session with a
      `user_id`; a customer session may only see its own ledgers. It shows
      the entries of `ownerId`'s ledger with `customerId` and their total,
      credits minus payments. */
  function ViewTransactions(s: Store, sess: Session, ownerId: Id, customerId: Id): (r: View)
    ensures r.Shown? <==> sess.userId.Some? && (sess.role == Some("customer") ==> sess.userId.value == customerId)
    ensures r.Shown? ==> forall k :: 0 <= k < |r.entries| ==> InShop(r.entries[k], ownerId, customerId)
    ensures r.Shown? ==> forall t :: multiset(r.entries)[t] == if InShop(t, ownerId, customerId) then multiset(s.txns)[t] else 0
    ensures r.Shown? ==> r.total == Credits(r.entries) - Payments(r.entries)
  {
    if !CanRead(sess, customerId) then Denied
    else
      var entries := ShopLedger(s.txns, ownerId, customerId);
      ShopLedgerComplete(s.txns, ownerId, customerId);
      BalanceIsCreditsMinusPayments(entries);
      Shown(entries, Balance(entries))
  }
}
