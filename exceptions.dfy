/** The agency's exception taxonomy: one base kind with four specialised
    kinds, flattened into one datatype. Every variant carries the message
    the exception was raised with. */
module Exceptions {

  datatype AgencyError =
    | AgencyBase(message: string)      // the common base kind
    | AgencyConfig(message: string)    // missing credential, malformed configuration
    | LLMConnection(message: string)   // connection or authentication failure with the LLM provider
    | InputValidation(message: string) // missing field, empty or short CV
    | CrewExecution(message: string)   // failure while the crew runs
}
