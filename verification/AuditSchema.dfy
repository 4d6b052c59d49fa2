/** The columns the audit chain covers (security/audit_chain.py, CANONICAL_FIELDS). */
module AuditSchema {
  const CANONICAL_FIELDS: seq<string> := [
    "app_id", "attribution_verified", "confidence", "confidence_band", "created_at", "decision", "dept_id",
    "detection_mode", "detection_scores", "execution_mode", "guardrail_scores", "input_hash", "input_length",
    "input_source", "ip_address", "key_id", "latency_ms", "llm_invoked", "model_version", "policy_source",
    "primary_reason", "principal_type", "proxy_interaction_id", "risk_score", "run_id", "session_id", "severity",
    "source", "tenant_id", "threats", "trace_id", "turn_index", "user_agent", "user_id"]

  /** The columns of AuditLogModel (db/models.py), by name. */
  const AUDIT_COLUMNS: seq<string> := [
    "app_id", "attribution_verified", "chain_format", "chain_seq", "confidence", "confidence_band", "created_at",
    "decision", "dept_id", "detection_mode", "detection_scores", "execution_mode", "guardrail_scores", "id",
    "input_hash", "input_length", "input_source", "ip_address", "key_id", "latency_ms", "llm_invoked",
    "model_version", "policy_source", "prev_hash", "primary_reason", "principal_type", "proxy_interaction_id",
    "record_hash", "risk_score", "run_id", "session_id", "severity", "source", "tenant_id", "threats", "trace_id",
    "turn_index", "user_agent", "user_id"]

  /** Where the canonical fields stand among the columns. */
  function Place(k: nat): nat { if k < 2 then k else if k < 11 then k + 2 else if k < 20 then k + 3 else if k < 23 then k + 4 else k + 5 }

  /** Every column but the row's own id and the chain's four is hashed, and nothing that is not a column. */
  lemma CanonicalExactly(name: string)
    ensures name in CANONICAL_FIELDS <==>
            name in AUDIT_COLUMNS && name !in ["id", "record_hash", "prev_hash", "chain_seq", "chain_format"]
  {
    if k :| 0 <= k < |CANONICAL_FIELDS| && CANONICAL_FIELDS[k] == name {
      FieldInPlace(k);
      NotTheChainsOwn(k);
    }
    if i :| 0 <= i < |AUDIT_COLUMNS| && AUDIT_COLUMNS[i] == name {
      if i == 2 || i == 3 || i == 13 || i == 23 || i == 27 {
        ChainsOwn(i);
      } else {
        var k := if i < 2 then i else if i < 13 then i - 2 else if i < 23 then i - 3 else if i < 27 then i - 4 else i - 5;
        FieldInPlace(k);
      }
    }
  }

  lemma FieldInPlace(k: nat)
    requires k < |CANONICAL_FIELDS|
    ensures Place(k) < |AUDIT_COLUMNS| && AUDIT_COLUMNS[Place(k)] == CANONICAL_FIELDS[k]
  {
    if k < 11 { EarlyField(k); } else if k < 23 { MiddleField(k); } else { LateField(k); }
  }

  lemma EarlyField(k: nat)
    requires k < 11
    ensures AUDIT_COLUMNS[Place(k)] == CANONICAL_FIELDS[k]
  {
  }

  lemma MiddleField(k: nat)
    requires 11 <= k < 23
    ensures AUDIT_COLUMNS[Place(k)] == CANONICAL_FIELDS[k]
  {
  }

  lemma LateField(k: nat)
    requires 23 <= k < |CANONICAL_FIELDS|
    ensures AUDIT_COLUMNS[Place(k)] == CANONICAL_FIELDS[k]
  {
  }

  lemma ChainsOwn(i: nat)
    requires i == 2 || i == 3 || i == 13 || i == 23 || i == 27
    ensures AUDIT_COLUMNS[i] in ["id", "record_hash", "prev_hash", "chain_seq", "chain_format"]
  {
  }

  lemma NotTheChainsOwn(k: nat)
    requires k < |CANONICAL_FIELDS|
    ensures CANONICAL_FIELDS[k] !in ["id", "record_hash", "prev_hash", "chain_seq", "chain_format"]
  {
  }

  lemma CanonicalFieldsDistinct()
    ensures forall i, j | 0 <= i < j < |CANONICAL_FIELDS| :: CANONICAL_FIELDS[i] != CANONICAL_FIELDS[j]
  {
  }

  lemma ChainSeqIsNotInFormatOne()
    ensures "chain_seq" !in CANONICAL_FIELDS
  {
  }

  lemma UnforeseeableFieldsAreCanonical()
    ensures "threats" in CANONICAL_FIELDS && "created_at" in CANONICAL_FIELDS
  {
    assert CANONICAL_FIELDS[29] == "threats" && CANONICAL_FIELDS[4] == "created_at";
  }
}
