/** Audit rows and checkpoints. */
module Rows {
  import opened Text
  import opened Json
  import opened Timestamps

  datatype Row = Row(
    id: string,
    originId: string,
    seqNo: int,
    timestamp: Time,
    code: string,
    action: string,
    severity: string,
    serviceId: string,
    node: string,
    tenant: Option<string>,
    actor: string,
    actorKind: string,
    target: string,
    category: string,
    domain: string,
    how: string,
    requestId: string,
    detail: Option<Members>,
    pii: bool,
    shippedAt: Option<Time>,
    wireVersion: string,
    formId: string,
    prevHash: string,
    hash: string,
    salt: string,
    commitment: string)
  {
    /** A row without a hash was written before chaining, or never stored. */
    predicate Sealed() { hash != "" }
  }

  datatype Checkpoint = Checkpoint(node: string, seqNo: int, hash: string, anchoredAt: string)

  const GENESIS: string := "genesis"
}
