/** The three tables the shop ledger works on, as one immutable value, and
    the constraints the database schema puts on them. */
module Schema {

  datatype Option<T> = None | Some(value: T)

  /** Row identifiers are text: a uuid for customers, whatever the session
      holds for owners. */
  type Id = string

  /** A row of `customers`; `pin` is NULL until the customer sets one. */
  datatype Customer = Customer(name: string, phone: string, pin: Option<string>)

  /** A row of `owner_customers`, without its autoincrement key, which no
      modelled operation reads. */
  datatype Link = Link(ownerId: Id, customerId: Id, isActive: bool)

  /** A row of `transactions`, without its key and timestamp. `kind` is the
      `type` column, stored verbatim; amounts are exact reals. */
  datatype Txn = Txn(ownerId: Id, customerId: Id, kind: string, amount: real, note: string)

  /** The database: customers by id, the owner/customer links, and the
      transactions in insertion order. */
  datatype Store = Store(customers: map<Id, Customer>, links: set<Link>, txns: seq<Txn>)

  /** `phone TEXT UNIQUE` on customers: no two customers share a phone. */
  predicate PhonesUnique(customers: map<Id, Customer>) {
    forall a, b :: a in customers && b in customers && customers[a].phone == customers[b].phone ==> a == b
  }

  /** `UNIQUE(owner_id, customer_id)` on owner_customers. */
  predicate PairsUnique(links: set<Link>) {
    forall l, m :: l in links && m in links && l.ownerId == m.ownerId && l.customerId == m.customerId ==> l == m
  }

  /** The constraints every reachable database satisfies. */
  predicate Valid(s: Store) {
    PhonesUnique(s.customers) && PairsUnique(s.links)
  }

  /** Some link joins this owner to this customer, active or not. */
  predicate HasLink(links: set<Link>, ownerId: Id, customerId: Id) {
    exists l :: l in links && l.ownerId == ownerId && l.customerId == customerId
  }

  /** An identifier no row uses yet, as a fresh uuid4 is. */
  predicate Fresh(s: Store, id: Id) {
    id !in s.customers && forall l :: l in s.links ==> l.customerId != id
  }

  /** How a mutating request ends. Every outcome but `Ok` leaves the
      database as it was. */
  datatype Outcome =
    | Ok
      /** The role check failed: redirect to the landing page. */
    | NotAuthorized
      /** The stripped phone is not ten digits: redirect to the dashboard. */
    | InvalidPhone
      /** `error=already_added`: the owner already has this customer. */
    | AlreadyAdded
      /** `error=phone_exists`: another customer holds the phone. */
    | PhoneExists
      /** The session has the owner role but no `user_id`: the lookup raises
          before anything is committed. */
    | NoUserId

  /** The outcome of a request together with the database after it. */
  datatype Step = Step(outcome: Outcome, store: Store)
}
