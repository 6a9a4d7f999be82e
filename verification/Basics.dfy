/** Small datatypes shared by every part of the model. */
module Basics {

  datatype Option<+T> = None | Some(value: T)

  datatype Result<+T> = Ok(value: T) | Err

  /** How an operation ended. The first four are the ways a Python call can end: a normal
      return, an UpdateError, its subclass CandidateIncompatibility, or a bare OSError.
      A crash is not an exception: no handler runs, only the disk survives. */
  datatype Outcome = Done | Refused | Incompatible | IoFailed | Crashed {

    /** `except UpdateError` catches these. */
    predicate IsUpdateError() {
      Refused? || Incompatible?
    }
  }

  /** What the adversary does to one durable write. An atomic replace can fail before it,
      succeed and then fail its directory fsync, or be cut off on either side. */
  datatype Fault = Fine | FailsBefore | FailsAfter | CrashesBefore | CrashesAfter {

    predicate Lands() {
      Fine? || FailsAfter? || CrashesAfter?
    }

    predicate Crashes() {
      CrashesBefore? || CrashesAfter?
    }
  }
}
