/** What one awaited call of a collaborator does: it returns a value or it
    raises. The pipeline never inspects the exception it re-raises, so the
    raised case carries nothing. */
module Outcomes {

  datatype Outcome<+T> = Returned(value: T) | Raised

}
