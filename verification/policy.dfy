/** The policy of internal/policy/policy.go; loading it from YAML is not part of this model. */
module Policies {
  import opened Wire
  import opened Rendering
  import Compose
  import Keywords
  import TwoPass
  import Sqlscan

  datatype Policy = Policy(readOnly: bool)

  datatype Result = Allowed | Blocked(rule: Bytes)

  /** Whether the policy would block anything. */
  predicate Enforces(p: Policy) {
    p.readOnly
  }

  function Evaluate(p: Policy, sql: Bytes): Result {
    if p.readOnly && !TwoPass.IsReadOnly(sql) then Blocked("read_only") else Allowed
  }

  /** The evaluation the proxy runs, with the two-pass scanner of the source behind it. */
  method EvaluateSql(p: Policy, sql: Bytes) returns (r: Result)
    ensures r == Evaluate(p, sql)
  {
    if p.readOnly {
      var ok := Sqlscan.ReadOnly(sql);
      if !ok {
        return Blocked("read_only");
      }
    }
    r := Allowed;
  }

  /** A policy enforces exactly when it would block anything. */
  lemma EnforcesExactly(p: Policy)
    ensures Enforces(p) <==> exists sql: Bytes :: Evaluate(p, sql) != Allowed
  {
    hide TwoPass.IsReadOnly;
    Compose.DeleteIsRefused();
    var sql: Bytes := "delete";
    assert Enforces(p) ==> Evaluate(p, sql) != Allowed;
  }

  /** An enforced policy allows exactly the texts of which every statement may pass. */
  lemma AllowedExactly(p: Policy, sql: Bytes, gs: seq<Seg>, e: nat)
    requires Enforces(p) && Fills(sql, 0, gs, e)
    ensures Evaluate(p, sql) == Allowed <==>
            forall i :: 0 <= i < |StatementWords(gs)| ==> Keywords.MayPass(StatementWords(gs)[i])
  {
    hide TwoPass.IsReadOnly, Fills, StatementWords, Keywords.MayPass;
    Keywords.ReadOnlyExactly(sql, gs, e);
  }
}
