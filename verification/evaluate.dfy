/** The data handling of the multi-strategy evaluator: extracting code from a
    completion, indexing the completion records by question id, aligning
    them with the benchmark samples, keeping the samples that have a record,
    and choosing the rows of the per-strategy CSV report. */
module EvaluateCompletions {
  import opened Wrappers
  import opened Text
  import opened Records
  import opened Fences

  const PyOpen := "```python"

  /** Group 1 of `re.search(r'```python(.*?)```', text, re.DOTALL)`, or the
      whole text when the search fails. */
  function ExtractCodeFromMarkdown(text: string): (r: string)
    ensures NoMatch(text, PyOpen, Fence) ==> r == text
    ensures forall i: nat, j: nat :: IsLeftmostLazy(text, PyOpen, Fence, i, j) ==>
              r == text[i + |PyOpen|..j]
  {
    match Group(text, PyOpen, Fence)
    case None => text
    case Some(code) => code
  }

  /** A text without an opening "```python" comes back unchanged. */
  lemma MarkdownWithoutOpenerUnchanged(text: string)
    requires !Contains(text, PyOpen)
    ensures ExtractCodeFromMarkdown(text) == text
  {
    forall i: nat, j: nat
      ensures !IsMatch(text, PyOpen, Fence, i, j)
    {
      if i > |text| {
      } else {
        assert !OccursAt(text, PyOpen, i);
      }
    }
  }

  /** When the search succeeds, the code is a substring of the text that holds
      no fence. */
  lemma MarkdownMatchIsFenceFree(text: string)
    requires !NoMatch(text, PyOpen, Fence)
    ensures Contains(text, ExtractCodeFromMarkdown(text))
    ensures !Contains(ExtractCodeFromMarkdown(text), Fence)
  {
    GroupIsCloseFree(text, PyOpen, Fence);
  }

  /** Extracting twice gives what extracting once gives. */
  lemma MarkdownIdempotent(text: string)
    ensures ExtractCodeFromMarkdown(ExtractCodeFromMarkdown(text)) == ExtractCodeFromMarkdown(text)
  {
    var r := ExtractCodeFromMarkdown(text);
    if !NoMatch(text, PyOpen, Fence) {
      MarkdownMatchIsFenceFree(text);
      forall k: nat | k <= |r|
        ensures !OccursAt(r, PyOpen, k)
      {
        assert !OccursAt(r, Fence, k);
        OccursPrefix(r, PyOpen, 3, k);
      }
      MarkdownWithoutOpenerUnchanged(r);
    }
  }

  /** Wrapping code in a "```python" fence and extracting it gives the code
      back, provided the code holds no fence and does not end in a
      backtick. */
  lemma MarkdownRoundTrip(code: string)
    requires !Contains(code, Fence)
    requires code == [] || code[|code| - 1] != '`'
    ensures ExtractCodeFromMarkdown(PyOpen + code + Fence) == code
  {
    GroupOfFenced(PyOpen, code);
  }

  /** In particular, code without any backtick survives the round trip. */
  lemma MarkdownRoundTripNoBacktick(code: string)
    requires forall k :: 0 <= k < |code| ==> code[k] != '`'
    ensures ExtractCodeFromMarkdown(PyOpen + code + Fence) == code
  {
    NoBacktickNoFence(code);
    MarkdownRoundTrip(code);
  }

  // ---------------------------------------------------------------------
  // load_completions_map

  /** `line` is a JSON object whose "question_id" is `q`. */
  predicate HasId(line: Line, q: string) {
    line.Object? && QuestionIdKey in line.fields && line.fields[QuestionIdKey] == q
  }

  /** Among the first `n` lines, line `k` is the last carrying question id
      `q`. */
  ghost predicate IsLastWithIdBefore(lines: seq<Line>, n: int, k: int, q: string)
    requires n <= |lines|
  {
    0 <= k < n && HasId(lines[k], q)
    && forall k' :: k < k' < n ==> !HasId(lines[k'], q)
  }

  /** Line `k` is the last line of `lines` carrying question id `q`. */
  ghost predicate IsLastWithId(lines: seq<Line>, k: int, q: string) {
    IsLastWithIdBefore(lines, |lines|, k, q)
  }

  /** `json.loads` raising `JSONDecodeError` on line `line`. */
  datatype LoadError = InvalidJson(line: nat)

  /** Reads the parsed lines into a map from question id to record: blank
      lines and objects without "question_id" are skipped, a later record
      replaces an earlier one with the same id, and the first line that is
      not valid JSON aborts the load. */
  method LoadCompletionsMap(lines: seq<Line>) returns (r: Result<map<string, Record>, LoadError>)
    ensures r.Failure? <==> exists k :: 0 <= k < |lines| && lines[k].Malformed?
    ensures r.Failure? ==> r.error.line < |lines| && lines[r.error.line].Malformed?
                           && forall k :: 0 <= k < r.error.line ==> !lines[k].Malformed?
    ensures r.Success? ==> forall q :: q in r.value <==> exists k :: 0 <= k < |lines| && HasId(lines[k], q)
    ensures r.Success? ==> forall k, q :: IsLastWithId(lines, k, q) ==>
                             q in r.value && r.value[q] == lines[k].fields
  {
    var completions: map<string, Record> := map[];
    for n := 0 to |lines|
      invariant forall k :: 0 <= k < n ==> !lines[k].Malformed?
      invariant forall q :: q in completions <==> exists k :: 0 <= k < n && HasId(lines[k], q)
      invariant forall k, q :: IsLastWithIdBefore(lines, n, k, q) ==>
                  q in completions && completions[q] == lines[k].fields
    {
      if lines[n].Malformed? {
        return Failure(InvalidJson(n));
      }
      if lines[n].Object? && QuestionIdKey in lines[n].fields {
        var data := lines[n].fields;
        completions := completions[data[QuestionIdKey] := data];
      }
    }
    return Success(completions);
  }

  // ---------------------------------------------------------------------
  // get_aligned_generations

  /** A benchmark sample; only its question id matters here. Its evaluation
      fixture belongs to the external benchmark library. */
  datatype Sample = Sample(questionId: string)

  /** The completion stored for `sample` under `key`, if its record exists and
      has that field. */
  function Lookup(completions: map<string, Record>, sample: Sample, key: string): (r: Option<string>)
    ensures r.Some? <==> sample.questionId in completions && key in completions[sample.questionId]
  {
    if sample.questionId in completions && key in completions[sample.questionId] then
      Some(completions[sample.questionId][key])
    else None
  }

  /** Element `i` of `gens` follows the loop's rule: the extracted completion
      when sample `i` supplies one, and otherwise a copy of element `i - 1`
      (the variable left over from the previous iteration). */
  ghost predicate FollowsRule(dataset: seq<Sample>, completions: map<string, Record>, key: string,
                              gens: seq<seq<string>>, i: int)
  {
    0 <= i < |gens| && i < |dataset| &&
    match Lookup(completions, dataset[i], key)
    case Some(v) => gens[i] == [ExtractCodeFromMarkdown(v)]
    case None => 0 < i && gens[i] == gens[i - 1]
  }

  /** `gens` holds one element per sample, each following the loop's rule. */
  ghost predicate Aligned(dataset: seq<Sample>, completions: map<string, Record>, key: string,
                          gens: seq<seq<string>>)
  {
    |gens| == |dataset|
    && forall i :: 0 <= i < |dataset| ==> FollowsRule(dataset, completions, key, gens, i)
  }

  /** Reading `problem_generations` before any assignment raises
      `UnboundLocalError`, at sample `index`. */
  datatype AlignError = UnboundLocal(index: nat)

  /** Builds one single-element code list per sample. A sample whose
      completion is missing repeats the previous sample's list; if the very
      first sample has none, the variable is unbound and the call fails. */
  method GetAlignedGenerations(dataset: seq<Sample>, completions: map<string, Record>,
                               n: nat, strategy: string)
    returns (r: Result<seq<seq<string>>, AlignError>)
    ensures r.Failure? <==>
              |dataset| > 0 && Lookup(completions, dataset[0], CompletionKey(strategy, n)).None?
    ensures r.Failure? ==> r.error == UnboundLocal(0)
    ensures r.Success? ==> Aligned(dataset, completions, CompletionKey(strategy, n), r.value)
    ensures r.Success? ==> forall i :: 0 <= i < |r.value| ==> |r.value[i]| == 1
  {
    var targetKey := CompletionKey(strategy, n);
    var generations: seq<seq<string>> := [];
    var problemGenerations: Option<seq<string>> := None;
    for i := 0 to |dataset|
      invariant |generations| == i
      invariant problemGenerations.None? <==> i == 0
      invariant i > 0 ==> problemGenerations == Some(generations[i - 1])
      invariant i > 0 ==> Lookup(completions, dataset[0], targetKey).Some?
      invariant forall k :: 0 <= k < i ==> FollowsRule(dataset, completions, targetKey, generations, k)
      invariant forall k :: 0 <= k < i ==> |generations[k]| == 1
    {
      var qId := dataset[i].questionId;
      if qId in completions {
        var compData := completions[qId];
        if targetKey in compData {
          problemGenerations := Some([ExtractCodeFromMarkdown(compData[targetKey])]);
        }
      }
      if problemGenerations.None? {
        return Failure(UnboundLocal(i));
      }
      ghost var before := generations;
      generations := generations + [problemGenerations.value];
      forall k | 0 <= k < i
        ensures FollowsRule(dataset, completions, targetKey, generations, k)
      {
        assert FollowsRule(dataset, completions, targetKey, before, k);
        assert generations[k] == before[k];
      }
      assert FollowsRule(dataset, completions, targetKey, generations, i);
    }
    return Success(generations);
  }

  /** The rule unrolled: element `i` is the extracted completion of the latest
      sample at or before `i` that supplies one. */
  lemma {:induction false} AlignedTakesLatestSupplier(dataset: seq<Sample>, completions: map<string, Record>,
                                                      key: string, gens: seq<seq<string>>, i: nat)
    requires Aligned(dataset, completions, key, gens) && i < |dataset|
    ensures exists k :: 0 <= k <= i && Lookup(completions, dataset[k], key).Some?
                        && gens[i] == [ExtractCodeFromMarkdown(Lookup(completions, dataset[k], key).value)]
                        && forall k' :: k < k' <= i ==> Lookup(completions, dataset[k'], key).None?
  {
    assert FollowsRule(dataset, completions, key, gens, i);
    if Lookup(completions, dataset[i], key).None? {
      AlignedTakesLatestSupplier(dataset, completions, key, gens, i - 1);
    }
  }

  // ---------------------------------------------------------------------
  // The dataset filter of evaluate_all_n

  /** `r` is `s` with some elements deleted, the rest in their order. */
  ghost predicate IsSubsequence<T>(r: seq<T>, s: seq<T>)
    decreases |s|
  {
    if s == [] then r == []
    else IsSubsequence(r, s[1..]) || (r != [] && r[0] == s[0] && IsSubsequence(r[1..], s[1..]))
  }

  /** `[sample for sample in dataset if sample.question_id in completions_map]`:
      keeps, in order and with their multiplicity, exactly the samples whose id
      has a completion record. */
  function KnownSamples(dataset: seq<Sample>, completions: map<string, Record>): (r: seq<Sample>)
    ensures IsSubsequence(r, dataset)
    ensures forall s :: multiset(r)[s] == if s.questionId in completions then multiset(dataset)[s] else 0
  {
    if dataset == [] then []
    else
      var rest := KnownSamples(dataset[1..], completions);
      assert dataset == [dataset[0]] + dataset[1..];
      if dataset[0].questionId in completions then [dataset[0]] + rest else rest
  }

  // ---------------------------------------------------------------------
  // The rows of results_<strategy>.csv

  /** The score column: the metric `pass@n` when present, else the literal 0
      that `dict.get` falls back to. The metric values are whatever the
      external scorer returns. */
  datatype Score<V> = Reported(value: V) | DefaultZero

  datatype CsvRow<V> = CsvRow(n: nat, score: Score<V>)

  function PassKey(n: nat): string {
    "pass@" + NatToString(n)
  }

  /** `metrics.get(f"pass@{n}", 0)`. */
  function ScoreOf<V>(metrics: map<string, V>, n: nat): (r: Score<V>)
    ensures r.Reported? <==> PassKey(n) in metrics
    ensures r.Reported? ==> r.value == metrics[PassKey(n)]
  {
    if PassKey(n) in metrics then Reported(metrics[PassKey(n)]) else DefaultZero
  }

  /** Budget `n` has a non-empty metrics entry. */
  predicate HasMetrics<V>(resultsPerN: map<nat, map<string, V>>, n: nat) {
    n in resultsPerN && |resultsPerN[n]| > 0
  }

  /** The rows written below the header "n,pass@n": one per budget, in
      ascending order, for the budgets whose metrics entry is non-empty. */
  method CsvRows<V>(resultsPerN: map<nat, map<string, V>>) returns (rows: seq<CsvRow<V>>)
    ensures |rows| <= |Budgets|
    ensures forall k, l :: 0 <= k < l < |rows| ==> rows[k].n < rows[l].n
    ensures forall k :: 0 <= k < |rows| ==> rows[k].n in Budgets && HasMetrics(resultsPerN, rows[k].n)
                                              && rows[k].score == ScoreOf(resultsPerN[rows[k].n], rows[k].n)
    ensures forall n :: n in Budgets && HasMetrics(resultsPerN, n) ==>
              exists k :: 0 <= k < |rows| && rows[k].n == n
  {
    rows := [];
    for b := 0 to |Budgets|
      invariant |rows| <= b
      invariant forall k, l :: 0 <= k < l < |rows| ==> rows[k].n < rows[l].n
      invariant forall k :: 0 <= k < |rows| ==> rows[k].n in Budgets[..b] && HasMetrics(resultsPerN, rows[k].n)
                                                && rows[k].score == ScoreOf(resultsPerN[rows[k].n], rows[k].n)
      invariant forall j :: 0 <= j < b && HasMetrics(resultsPerN, Budgets[j]) ==>
                  exists k :: 0 <= k < |rows| && rows[k].n == Budgets[j]
    {
      var n := Budgets[b];
      if n in resultsPerN && |resultsPerN[n]| > 0 {
        var passAtNKey := PassKey(n);
        var score := if passAtNKey in resultsPerN[n] then Reported(resultsPerN[n][passAtNKey]) else DefaultZero;
        ghost var before := rows;
        rows := rows + [CsvRow(n, score)];
        assert forall k :: 0 <= k < |before| ==> rows[k] == before[k];
        assert rows[|rows| - 1].n == Budgets[b];
      }
    }
  }
}
