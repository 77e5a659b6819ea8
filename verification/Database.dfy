/** A SQLAlchemy session over a database value of type `T`: statements change `working`, and
    only a commit makes them durable. Closing or killing the session drops what is pending. */
module Database {

  class Session<T> {
    var committed: T
    var working: T

    /** No statement is waiting for a commit. */
    ghost predicate Idle()
      reads this
    {
      working == committed
    }

    constructor (initial: T)
      ensures Idle() && committed == initial
    {
      committed, working := initial, initial;
    }

    method Commit()
      modifies this
      ensures Idle() && committed == old(working)
    {
      committed := working;
    }

    method Rollback()
      modifies this
      ensures Idle() && committed == old(committed)
    {
      working := committed;
    }
  }
}
