/** What a relay answers: a transaction id, or a failure that may say that relaying is disabled. */
module RelayApi {
  import opened Sequences

  datatype RelayResult = Ok(transactionId: Bytes) | Failed(disabled: bool)
}
