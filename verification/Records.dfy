/** Artifact records: the durable lifecycle states, the content-addressed key layout, the metadata
    row and the audit event, as values. */
module Records {

  datatype Option<+T> = None | Some(value: T)

  newtype Byte = x: int | 0 <= x < 256
  type Bytes = seq<Byte>

  /** The digest. Nothing is assumed about it: neither how it is computed nor that it is injective. */
  const Sha256: Bytes -> nat

  const ARTIFACT_CLASSES: set<string> := {
    "repository_snapshot", "sanitized_model_request", "sanitized_model_response", "parsed_patch",
    "applied_patch", "public_test_output", "sandbox_result", "promotion_evidence", "audit_export" }

  /** The tenant-prefixed, content-addressed key; `job` is the per-job suffix, when there is one. */
  datatype Key = Key(org: nat, class_: string, hash: nat, job: Option<nat>)

  datatype LifeState =
    | PendingUpload | Available | UploadFailed
    | DeleteRequested | LogicallyDeleted | PhysicalDeletePending | PhysicallyConfirmed | DeleteFailed

  /** The states a deletion that has begun passes through. */
  predicate Deleting(s: LifeState) {
    s.DeleteRequested? || s.LogicallyDeleted? || s.PhysicalDeletePending? || s.PhysicallyConfirmed?
  }

  /** A row is identified by its tenant and its key, which the table keeps unique together. */
  datatype Ref = Ref(org: nat, key: Key)

  datatype Row = Row(hash: nat, byteSize: Option<nat>, state: LifeState, legalHold: bool, retainUntil: Option<nat>)

  datatype Event = Event(ref: Ref, prior: LifeState, next: LifeState)

  /** Neither legal hold nor retention protects the row at time `now`. */
  predicate Erasable(row: Row, now: nat) {
    !row.legalHold && (row.retainUntil.None? || row.retainUntil.value <= now)
  }
}
