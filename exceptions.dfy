/** The Java exceptions that can leave the modelled operations. */
module Exceptions {

  datatype Exception =
    | NullPointerException            // unboxing a null Long
    | NumberFormatException           // Long.parseLong on a malformed line
    | IllegalArgumentException        // Enum.valueOf on an unknown constant
    | ClassCastException              // the audit file holds an object that is not a List
    | EmptyRepositoryResultException  // findById found no row
    | RepositoryAccessException       // any wrapped database failure
    | ProposalSearchException         // a client lookup failed during a proposal search
}
