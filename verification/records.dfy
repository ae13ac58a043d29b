/** The completion records both scripts read from a JSONL file, and the
    names of the fields they look up in them. */
module Records {
  import opened Text

  /** One JSON object of the completions file: field name to string value. */
  type Record = map<string, string>

  /** One line of the completions file as `json.loads` sees it: a line holding
      only whitespace, a line that does not parse as a JSON object, or an
      object. */
  datatype Line = Blank | Malformed | Object(fields: Record)

  const QuestionIdKey := "question_id"

  /** The sampling budgets, in the order both scripts visit them. */
  const Budgets: seq<nat> := [1, 2, 4, 8, 16, 32]

  /** `2**i`. */
  function Pow2(i: nat): (r: nat)
    ensures r >= 1
  {
    if i == 0 then 1 else 2 * Pow2(i - 1)
  }

  /** Powers of two grow strictly, so distinct exponents give distinct
      budgets. */
  lemma {:induction false} Pow2Increasing(i: nat, j: nat)
    requires i < j
    ensures Pow2(i) < Pow2(j)
  {
    if i < j - 1 {
      Pow2Increasing(i, j - 1);
    }
  }

  /** `2**i` for `i in range(0, 6)` are the budgets, in order. */
  lemma Pow2AreBudgets()
    ensures forall i :: 0 <= i < 6 ==> Pow2(i) == Budgets[i]
  {
    assert Pow2(0) == 1 && Pow2(1) == 2 && Pow2(2) == 4;
    assert Pow2(3) == 8 && Pow2(4) == 16 && Pow2(5) == 32;
  }

  /** `f"completion_{strategy}@{n}"`: the field holding the completion chosen
      by `strategy` among `n` samples. */
  function CompletionKey(strategy: string, n: nat): (k: string)
    ensures |k| > |"completion_" + strategy + "@"|
  {
    "completion_" + strategy + "@" + NatToString(n)
  }

  /** For a fixed strategy, each budget names a different field. */
  lemma CompletionKeyInjective(strategy: string, a: nat, b: nat)
    requires CompletionKey(strategy, a) == CompletionKey(strategy, b)
    ensures a == b
  {
    var p := |"completion_" + strategy + "@"|;
    assert NatToString(a) == CompletionKey(strategy, a)[p..];
    assert NatToString(b) == CompletionKey(strategy, b)[p..];
    NatToStringInjective(a, b);
  }
}
