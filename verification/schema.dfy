/**
 The two tables of the complaint backend and the outcomes its handlers
 report. A table is a sequence of rows in insertion order, so a row's
 position stands for its `created_at`.
 */
module Schema {
  import opened Php

  datatype Role = Pilgrim | Worker | Official {

    /** The value kept in the `role` column. */
    function Name(): string
    {
      match this
      case Pilgrim => "pilgrim"
      case Worker => "worker"
      case Official => "official"
    }
  }

  /** The complaint lifecycle: Pending, then Assigned, then Completed. */
  datatype Status = Pending | Assigned | Completed {

    /** Position in the lifecycle; a transition never lowers it. */
    function Rank(): nat
    {
      match this
      case Pending => 0
      case Assigned => 1
      case Completed => 2
    }
  }

  /** A row of `users`; the password is kept verbatim in the `password_hash` column. */
  datatype User = User(id: string, name: string, phone: Option<string>, password: string, role: Role)

  /** A row of `complaints`. */
  datatype Complaint = Complaint(
    id: string,
    location: string,
    description: string,
    contact: Option<string>,
    status: Status,
    worker: Option<string>,
    photoUrl: Option<string>)

  datatype Store = Store(users: seq<User>, complaints: seq<Complaint>)

  /** The error kinds the handlers report (HTTP 400, 409, 401 and 404). */
  datatype Failure = ValidationError | ConflictError | AuthError | NotFoundError

  datatype Reply<+T> = Success(value: T) | Error(failure: Failure)

  /** What a handler reports together with the store it leaves behind. */
  datatype Step<+T> = Step(reply: Reply<T>, next: Store)

  predicate IsPilgrim(u: User)
  {
    u.role == Pilgrim
  }

  predicate IsWorker(u: User)
  {
    u.role == Worker
  }
}
