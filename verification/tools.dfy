/** The `tools` module of the protocol: the two-step credential exchange
    used by companion tooling. */
module Tools {

  datatype TokenRequest = TokenRequest(accountKey: string)

  datatype CredentialsRequest = CredentialsRequest(accountKey: string, token: string)

  datatype CredentialsResponse =
    | Valid(userJwt: string, userSecret: string)
    | Error(reason: string)
}
