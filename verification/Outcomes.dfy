/** What a call comes to: the code it returns, or the point where the code is about to read or
    write memory that is not its own. There the model stops. */
module Outcomes {

  datatype Outcome = Returned(code: int) | Overrun
}
