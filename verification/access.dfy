/** The session identity the handlers consult, passed in explicitly, and
    the two gates they apply to it. */
module Access {
  import opened Schema

  /** The two session keys the handlers read; either may be missing. */
  datatype Session = Session(userId: Option<Id>, role: Option<string>)

  /** An empty session: nobody is logged in. */
  const Anonymous: Session := Session(None, None)

  /** Owner-only handlers go on exactly when `session.get("role")` is
      `"owner"`. */
  predicate IsOwner(sess: Session) {
    sess.role == Some("owner")
  }

  /** The transactions view goes on when the session has a `user_id`, and,
      for a customer session, only when it is the requested customer. */
  predicate CanRead(sess: Session, customerId: Id) {
    && sess.userId.Some?
    && (sess.role == Some("customer") ==> sess.userId.value == customerId)
  }
}
