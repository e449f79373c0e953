/** The owner side of the customer tables: adding a customer to a shop
    (reusing a customer another shop already knows) and changing a
    customer's phone. */
module Linkage {
  import opened Text
  import opened Schema
  import opened Access

  /** The phone rule both handlers apply to the stripped form field:
      `not p or not p.isdigit() or len(p) != 10` rejects. */
  predicate ValidPhone(p: string) {
    p != [] && IsDigits(p) && |p| == 10
  }

  /** The rule accepts exactly the strings of ten ASCII digits. */
  lemma ValidPhoneIsTenDigits(p: string)
    ensures ValidPhone(p) <==> |p| == 10 && forall k :: 0 <= k < |p| ==> '0' <= p[k] <= '9'
  {
  }

  /** Some customer holds this phone. */
  predicate PhoneTaken(customers: map<Id, Customer>, phone: string) {
    exists id :: id in customers && customers[id].phone == phone
  }

  /** `SELECT id FROM customers WHERE phone=?`, first row. The UNIQUE
      constraint on the column makes the answer unique. */
  function FindByPhone(customers: map<Id, Customer>, phone: string): (r: Option<Id>)
    requires PhonesUnique(customers)
    ensures r.Some? <==> PhoneTaken(customers, phone)
    ensures r.Some? ==> r.value in customers && customers[r.value].phone == phone
  {
    if PhoneTaken(customers, phone) then
      var id :| id in customers && customers[id].phone == phone;
      Some(id)
    else
      None
  }

  /** `pin if pin else None`: a missing or empty pin field stores NULL. */
  function StoredPin(pinField: Option<string>): (r: Option<string>)
    ensures r.Some? <==> pinField.Some? && pinField.value != []
    ensures r.Some? ==> r == pinField
  {
    if pinField.Some? && pinField.value != [] then pinField else None
  }

  /** `INSERT INTO owner_customers (owner_id, customer_id)`: one new link,
      active by the column default; the pair must not be linked yet, as the
      UNIQUE constraint demands. */
  function InsertLink(s: Store, ownerId: Id, customerId: Id): (r: Store)
    requires !HasLink(s.links, ownerId, customerId)
    ensures r.customers == s.customers && r.txns == s.txns
    ensures Link(ownerId, customerId, true) !in s.links
    ensures r.links == s.links + {Link(ownerId, customerId, true)}
    ensures |r.links| == |s.links| + 1
    ensures PairsUnique(s.links) ==> PairsUnique(r.links)
  {
    s.(links := s.links + {Link(ownerId, customerId, true)})
  }

  /** `INSERT INTO customers (id, name, phone, pin)` under a fresh id, for a
      phone nobody holds. */
  function InsertCustomer(s: Store, id: Id, c: Customer): (r: Store)
    requires Fresh(s, id)
    requires !PhoneTaken(s.customers, c.phone)
    ensures r.links == s.links && r.txns == s.txns
    ensures r.customers.Keys == s.customers.Keys + {id} && |r.customers| == |s.customers| + 1
    ensures forall k :: k in s.customers ==> r.customers[k] == s.customers[k]
    ensures r.customers[id] == c
    ensures PhonesUnique(s.customers) ==> PhonesUnique(r.customers)
  {
    s.(customers := s.customers[id := c])
  }

  /** The database part of adding a customer, once the request passed its
      checks: reuse the holder of `phone` unless this owner already has it,
      or create the customer under `freshId`; then link it to the owner. */
  function LinkByPhone(s: Store, ownerId: Id, name: string, phone: string,
                       pin: Option<string>, freshId: Id): (r: Step)
    requires PhonesUnique(s.customers)
    requires Fresh(s, freshId)
    ensures r.outcome == Ok || r.outcome == AlreadyAdded
    ensures r.outcome == AlreadyAdded <==>
      exists id :: id in s.customers && s.customers[id].phone == phone && HasLink(s.links, ownerId, id)
    ensures r.outcome == AlreadyAdded ==> r.store == s
    ensures r.outcome == Ok ==>
      && r.store.txns == s.txns
      && s.links < r.store.links && |r.store.links| == |s.links| + 1
      && (forall l :: l in r.store.links - s.links ==> l.ownerId == ownerId && l.isActive)
      && (forall id :: id in s.customers ==> id in r.store.customers && r.store.customers[id] == s.customers[id])
      && |s.customers| <= |r.store.customers| <= |s.customers| + 1
    ensures Valid(s) ==> Valid(r.store)
  {
    match FindByPhone(s.customers, phone)
    case Some(id) =>
      if HasLink(s.links, ownerId, id) then Step(AlreadyAdded, s)
      else Step(Ok, InsertLink(s, ownerId, id))
    case None =>
      var s1 := InsertCustomer(s, freshId, Customer(name, phone, pin));
      Step(Ok, InsertLink(s1, ownerId, freshId))
  }

  /** The owner adds a customer by phone. Only an owner session may; the
      phone field is stripped and must be ten digits. A customer already
      holding the phone is reused, and refused if this owner already has
      a link to it; otherwise a new customer is created under `freshId`.
      Either way exactly one active link from the owner is added, and no
      other row changes. */
  function AddCustomer(s: Store, sess: Session, nameField: string, phoneField: string,
                       pinField: Option<string>, freshId: Id): (r: Step)
    requires PhonesUnique(s.customers)
    requires Fresh(s, freshId)
    ensures r.outcome != Ok ==> r.store == s
    ensures r.outcome == NotAuthorized <==> !IsOwner(sess)
    ensures r.outcome == InvalidPhone <==> IsOwner(sess) && !ValidPhone(Strip(phoneField))
    ensures r.outcome == NoUserId <==> IsOwner(sess) && ValidPhone(Strip(phoneField)) && sess.userId.None?
    ensures r.outcome == AlreadyAdded <==>
      && IsOwner(sess) && ValidPhone(Strip(phoneField)) && sess.userId.Some?
      && exists id :: id in s.customers && s.customers[id].phone == Strip(phoneField)
                      && HasLink(s.links, sess.userId.value, id)
    ensures r.outcome == Ok ==>
      && sess.userId.Some?
      && r.store.txns == s.txns
      && s.links < r.store.links && |r.store.links| == |s.links| + 1
      && (forall l :: l in r.store.links - s.links ==> l.ownerId == sess.userId.value && l.isActive)
      && (forall id :: id in s.customers ==> id in r.store.customers && r.store.customers[id] == s.customers[id])
      && |s.customers| <= |r.store.customers| <= |s.customers| + 1
    ensures Valid(s) ==> Valid(r.store)
  {
    if !IsOwner(sess) then Step(NotAuthorized, s)
    else
      var name := Strip(nameField);
      var phone := Strip(phoneField);
      if !ValidPhone(phone) then Step(InvalidPhone, s)
      else if sess.userId.None? then Step(NoUserId, s)
      else LinkByPhone(s, sess.userId.value, name, phone, StoredPin(pinField), freshId)
  }

  /** A phone whose holder this owner already has: nothing changes and the
      request reports `already_added`. */
  lemma AddLinkedCustomer(s: Store, sess: Session, nameField: string, phoneField: string,
                          pinField: Option<string>, freshId: Id, id: Id)
    requires PhonesUnique(s.customers) && Fresh(s, freshId)
    requires IsOwner(sess) && sess.userId.Some? && ValidPhone(Strip(phoneField))
    requires id in s.customers && s.customers[id].phone == Strip(phoneField)
    requires HasLink(s.links, sess.userId.value, id)
    ensures AddCustomer(s, sess, nameField, phoneField, pinField, freshId) == Step(AlreadyAdded, s)
  {
  }

  /** A phone whose holder this owner does not have yet: no customer is
      created or changed, and the one added row is an active link from the
      owner to that holder. */
  lemma AddKnownCustomer(s: Store, sess: Session, nameField: string, phoneField: string,
                         pinField: Option<string>, freshId: Id, id: Id)
    requires PhonesUnique(s.customers) && Fresh(s, freshId)
    requires IsOwner(sess) && sess.userId.Some? && ValidPhone(Strip(phoneField))
    requires id in s.customers && s.customers[id].phone == Strip(phoneField)
    requires !HasLink(s.links, sess.userId.value, id)
    ensures var r := AddCustomer(s, sess, nameField, phoneField, pinField, freshId);
      && r.outcome == Ok
      && r.store.customers == s.customers
      && r.store.txns == s.txns
      && Link(sess.userId.value, id, true) !in s.links
      && r.store.links == s.links + {Link(sess.userId.value, id, true)}
  {
  }

  /** A phone nobody holds: exactly one customer is created, under the fresh
      id, with the stripped name and phone and the pin (NULL when empty),
      and exactly one active link from the owner to it. */
  lemma AddNewCustomer(s: Store, sess: Session, nameField: string, phoneField: string,
                       pinField: Option<string>, freshId: Id)
    requires PhonesUnique(s.customers) && Fresh(s, freshId)
    requires IsOwner(sess) && sess.userId.Some? && ValidPhone(Strip(phoneField))
    requires !PhoneTaken(s.customers, Strip(phoneField))
    ensures var r := AddCustomer(s, sess, nameField, phoneField, pinField, freshId);
      && r.outcome == Ok
      && freshId !in s.customers
      && r.store.customers == s.customers[freshId := Customer(Strip(nameField), Strip(phoneField), StoredPin(pinField))]
      && |r.store.customers| == |s.customers| + 1
      && r.store.txns == s.txns
      && Link(sess.userId.value, freshId, true) !in s.links
      && r.store.links == s.links + {Link(sess.userId.value, freshId, true)}
  {
  }

  /** Adding the same phone twice under the same owner: the second request
      reports `already_added` and changes nothing, whatever its name, pin
      and fresh id. */
  lemma AddCustomerTwice(s: Store, sess: Session, phoneField: string,
                         name1: string, pin1: Option<string>, fresh1: Id,
                         name2: string, pin2: Option<string>, fresh2: Id)
    requires PhonesUnique(s.customers) && Fresh(s, fresh1) && Fresh(s, fresh2) && fresh1 != fresh2
    requires IsOwner(sess) && sess.userId.Some? && ValidPhone(Strip(phoneField))
    ensures var r1 := AddCustomer(s, sess, name1, phoneField, pin1, fresh1);
      && Fresh(r1.store, fresh2)
      && AddCustomer(r1.store, sess, name2, phoneField, pin2, fresh2) == Step(AlreadyAdded, r1.store)
  {
    var phone := Strip(phoneField);
    var owner := sess.userId.value;
    var name := Strip(name1);
    var s1 := AddCustomer(s, sess, name1, phoneField, pin1, fresh1).store;
    match FindByPhone(s.customers, phone)
    case Some(id) =>
      if !HasLink(s.links, owner, id) {
        assert s1 == InsertLink(s, owner, id);
      }
      AddLinkedCustomer(s1, sess, name2, phoneField, pin2, fresh2, id);
    case None =>
      var s0 := InsertCustomer(s, fresh1, Customer(name, phone, StoredPin(pin1)));
      assert s1 == InsertLink(s0, owner, fresh1);
      assert HasLink(s1.links, owner, fresh1);
      AddLinkedCustomer(s1, sess, name2, phoneField, pin2, fresh2, fresh1);
  }

  /** The owner changes a customer's phone. Only an owner session may; the
      stripped phone must be ten digits and held by no other customer. On
      success that customer's phone, and nothing else, changes; an unknown
      customer id updates no row. */
  function UpdateCustomerPhone(s: Store, sess: Session, customerId: Id, phoneField: string): (r: Step)
    ensures r.outcome != Ok ==> r.store == s
    ensures r.outcome == NotAuthorized <==> !IsOwner(sess)
    ensures r.outcome == InvalidPhone <==> IsOwner(sess) && !ValidPhone(Strip(phoneField))
    ensures r.outcome == PhoneExists <==>
      && IsOwner(sess) && ValidPhone(Strip(phoneField))
      && exists id :: id in s.customers && id != customerId && s.customers[id].phone == Strip(phoneField)
    ensures r.outcome in {Ok, NotAuthorized, InvalidPhone, PhoneExists}
    ensures r.store.links == s.links && r.store.txns == s.txns
    ensures r.store.customers.Keys == s.customers.Keys
    ensures forall id :: id in s.customers && id != customerId ==> r.store.customers[id] == s.customers[id]
    ensures r.outcome == Ok && customerId in s.customers ==>
      r.store.customers[customerId] == s.customers[customerId].(phone := Strip(phoneField))
    ensures PhonesUnique(s.customers) ==> PhonesUnique(r.store.customers)
    ensures Valid(s) ==> Valid(r.store)
  {
    if !IsOwner(sess) then Step(NotAuthorized, s)
    else
      var phone := Strip(phoneField);
      if !ValidPhone(phone) then Step(InvalidPhone, s)
      else if exists id :: id in s.customers && id != customerId && s.customers[id].phone == phone then
        Step(PhoneExists, s)
      else if customerId in s.customers then
        Step(Ok, s.(customers := s.customers[customerId := s.customers[customerId].(phone := phone)]))
      else
        Step(Ok, s)
  }

  /** Repeating a phone update changes nothing more. */
  lemma UpdateCustomerPhoneIdempotent(s: Store, sess: Session, customerId: Id, phoneField: string)
    ensures var s1 := UpdateCustomerPhone(s, sess, customerId, phoneField).store;
      UpdateCustomerPhone(s1, sess, customerId, phoneField).store == s1
  {
  }
}
