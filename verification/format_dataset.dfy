/** The completion reformatter: for every record of the completions file and
    every budget 2^i (i = 0..5), the "weighted" completion is turned into code
    and filed under that budget; each budget's list becomes one JSON file. */
module FormatDataset {
  import opened Wrappers
  import opened Text
  import opened Records
  import opened Fences

  const PyOpenNewline := "```python\n"

  /** Group 1 of `re.search(r'```python\n(.*?)```', text, re.DOTALL)`,
      stripped of surrounding whitespace, or "" when the search fails. */
  function ExtractPythonCode(text: string): (r: string)
    ensures NoMatch(text, PyOpenNewline, Fence) ==> r == ""
    ensures forall i: nat, j: nat :: IsLeftmostLazy(text, PyOpenNewline, Fence, i, j) ==>
              r == Strip(text[i + |PyOpenNewline|..j])
    ensures IsStripped(r)
    ensures Contains(text, r) && !Contains(r, Fence)
  {
    match Group(text, PyOpenNewline, Fence)
    case None =>
      assert OccursAt(text, "", 0);
      ""
    case Some(code) =>
      GroupIsCloseFree(text, PyOpenNewline, Fence);
      StripIsSubstring(code);
      ContainsTransitive(text, code, Strip(code));
      if Contains(Strip(code), Fence) then
        ContainsTransitive(code, Strip(code), Fence);
        Strip(code)
      else Strip(code)
  }

  /** What `strip` keeps is a substring of what it was given. */
  lemma StripIsSubstring(s: string)
    ensures Contains(s, Strip(s))
  {
    assert OccursAt(s, Strip(s), SkipSpace(s, 0));
  }

  /** Code wrapped in a "```python\n" fence comes back stripped, provided it
      holds no fence and does not end in a backtick. */
  lemma PythonCodeRoundTrip(code: string)
    requires !Contains(code, Fence)
    requires code == [] || code[|code| - 1] != '`'
    ensures ExtractPythonCode(PyOpenNewline + code + Fence) == Strip(code)
  {
    GroupOfFenced(PyOpenNewline, code);
  }

  /** Backtick-free code with no surrounding whitespace, written on its own
      lines inside a "```python" fence, is extracted exactly. */
  lemma PythonCodeOfFencedLines(code: string)
    requires IsStripped(code)
    requires forall k :: 0 <= k < |code| ==> code[k] != '`'
    ensures ExtractPythonCode(PyOpenNewline + (code + "\n") + Fence) == code
  {
    var body := code + "\n";
    NoBacktickNoFence(body);
    PythonCodeRoundTrip(body);
    StripLine(code);
  }

  lemma StripLine(code: string)
    requires IsStripped(code)
    ensures Strip(code + "\n") == code
  {
    StripTrailingSpace(code, '\n');
    StripStripped(code);
  }

  /** The single-record example: "```python\nprint(1)\n```" yields
      "print(1)". */
  lemma PythonCodeExample()
    ensures ExtractPythonCode("```python\nprint(1)\n```") == "print(1)"
  {
    var code := "print(1)";
    assert IsStripped(code);
    assert "```python\nprint(1)\n```" == PyOpenNewline + (code + "\n") + Fence;
    PythonCodeOfFencedLines(code);
  }

  // ---------------------------------------------------------------------
  // process_jsonl

  /** The field holding budget `2**i`'s "weighted" completion. */
  function WeightedKey(i: nat): string {
    CompletionKey("weighted", Pow2(i))
  }

  /** The keys of the dictionary of lists: the six budgets. */
  const BudgetKeys: set<nat> := {1, 2, 4, 8, 16, 32}

  /** They are the keys `{2**i for i in range(0, 6)}`. */
  lemma BudgetKeysArePowers()
    ensures BudgetKeys == set i | 0 <= i < 6 :: Pow2(i)
  {
    Pow2AreBudgets();
    assert Budgets == [1, 2, 4, 8, 16, 32];
    assert Pow2(0) == 1 && Pow2(1) == 2 && Pow2(2) == 4;
    assert Pow2(3) == 8 && Pow2(4) == 16 && Pow2(5) == 32;
  }

  /** Each key `2**i` is one of the budgets. */
  lemma PowersAreBudgetKeys()
    ensures forall i :: 0 <= i < 6 ==> Pow2(i) in BudgetKeys
  {
    BudgetKeysArePowers();
  }

  /** Each budget reads its own "weighted" field. */
  lemma WeightedKeyInjective(i: nat, j: nat)
    ensures i != j ==> WeightedKey(i) != WeightedKey(j)
  {
    if WeightedKey(i) == WeightedKey(j) {
      CompletionKeyInjective("weighted", Pow2(i), Pow2(j));
      Pow2Injective(i, j);
    }
  }

  /** Different exponents name different budgets. */
  lemma Pow2Injective(i: nat, j: nat)
    ensures i != j ==> Pow2(i) != Pow2(j)
  {
    if i < j {
      Pow2Increasing(i, j);
    } else if j < i {
      Pow2Increasing(j, i);
    }
  }

  /** One element of an output file. */
  datatype Entry = Entry(questionId: string, codeList: seq<string>)

  /** The line parses, and if it holds any budget's "weighted" completion it
      also holds a "question_id"; any other line aborts the run. */
  predicate Loadable(line: Line) {
    line.Object? &&
    (QuestionIdKey in line.fields || forall i :: 0 <= i < 6 ==> WeightedKey(i) !in line.fields)
  }

  /** `json.JSONDecodeError` (blank or malformed line) or `KeyError` on
      "question_id", at line `line`. */
  datatype FormatError = InvalidJson(line: nat) | MissingQuestionId(line: nat)

  /** What one record adds to the list of budget `2**i`. */
  function EntriesOf(fields: Record, i: nat): (r: seq<Entry>)
    requires WeightedKey(i) in fields ==> QuestionIdKey in fields
    ensures |r| <= 1 && (|r| == 1 <==> WeightedKey(i) in fields)
  {
    if WeightedKey(i) in fields then
      [Entry(fields[QuestionIdKey], [ExtractPythonCode(fields[WeightedKey(i)])])]
    else []
  }

  predicate AllLoadable(lines: seq<Line>, n: nat) {
    n <= |lines| && forall k :: 0 <= k < n ==> Loadable(lines[k])
  }

  /** The list of budget `2**i` after the first `n` records, in file order. */
  function BucketPrefix(lines: seq<Line>, n: nat, i: nat): seq<Entry>
    requires AllLoadable(lines, n) && i < 6
  {
    if n == 0 then []
    else BucketPrefix(lines, n - 1, i) + EntriesOf(lines[n - 1].fields, i)
  }

  /** The list of budget `2**i` after all records. */
  function Bucket(lines: seq<Line>, i: nat): seq<Entry>
    requires AllLoadable(lines, |lines|) && i < 6
  {
    BucketPrefix(lines, |lines|, i)
  }

  /** Appending records appends their entries: the first `|xs| + m` records
      of `xs + ys` file `xs`'s entries, then those of the first `m` records of
      `ys`. */
  lemma {:induction false} BucketPrefixAppend(xs: seq<Line>, ys: seq<Line>, m: nat, i: nat)
    requires AllLoadable(xs, |xs|) && AllLoadable(ys, m) && i < 6
    ensures AllLoadable(xs + ys, |xs| + m)
    ensures BucketPrefix(xs + ys, |xs| + m, i) == Bucket(xs, i) + BucketPrefix(ys, m, i)
  {
    if m == 0 {
      BucketPrefixAgrees(xs + ys, xs, |xs|, i);
    } else {
      BucketPrefixAppend(xs, ys, m - 1, i);
      assert (xs + ys)[|xs| + m - 1] == ys[m - 1];
    }
  }

  /** Two record lists with the same first `n` records file the same
      entries for them. */
  lemma {:induction false} BucketPrefixAgrees(xs: seq<Line>, ys: seq<Line>, n: nat, i: nat)
    requires n <= |xs| && n <= |ys| && xs[..n] == ys[..n]
    requires AllLoadable(xs, n) && i < 6
    ensures AllLoadable(ys, n)
    ensures BucketPrefix(xs, n, i) == BucketPrefix(ys, n, i)
  {
    assert forall k :: 0 <= k < n ==> xs[k] == xs[..n][k] == ys[k];
    if n > 0 {
      assert xs[..n - 1] == ys[..n - 1];
      BucketPrefixAgrees(xs, ys, n - 1, i);
    }
  }

  /** The buckets of a concatenation are the concatenated buckets, so entries
      keep the order of their records. */
  lemma BucketAppend(xs: seq<Line>, ys: seq<Line>, i: nat)
    requires AllLoadable(xs, |xs|) && AllLoadable(ys, |ys|) && i < 6
    ensures AllLoadable(xs + ys, |xs + ys|)
    ensures Bucket(xs + ys, i) == Bucket(xs, i) + Bucket(ys, i)
  {
    BucketPrefixAppend(xs, ys, |ys|, i);
  }

  /** A single record files exactly its own entry. */
  lemma BucketSingle(line: Line, i: nat)
    requires Loadable(line) && i < 6
    ensures AllLoadable([line], 1)
    ensures Bucket([line], i) == EntriesOf(line.fields, i)
  {
    assert [line][0] == line;
    assert Bucket([line], i) == BucketPrefix([line], 0, i) + EntriesOf(line.fields, i);
  }

  /** Record `k` contributes to budget `2**i` exactly its own entry, placed
      after the entries of the records before it and before those after
      it. */
  lemma BucketContribution(lines: seq<Line>, k: nat, i: nat)
    requires AllLoadable(lines, |lines|) && i < 6 && k < |lines|
    ensures AllLoadable(lines[..k], k) && AllLoadable(lines[k + 1..], |lines| - k - 1)
    ensures Bucket(lines, i) == Bucket(lines[..k], i) + EntriesOf(lines[k].fields, i) + Bucket(lines[k + 1..], i)
  {
    var pre, line, post := lines[..k], lines[k], lines[k + 1..];
    assert lines == pre + [line] + post;
    assert AllLoadable(pre, |pre|) by {
      assert forall j :: 0 <= j < k ==> pre[j] == lines[j];
    }
    assert AllLoadable(post, |post|) by {
      assert forall j :: 0 <= j < |post| ==> post[j] == lines[k + 1 + j];
    }
    BucketSingle(line, i);
    BucketAppend(pre, [line], i);
    BucketAppend(pre + [line], post, i);
  }

  /** A bucket has at most one entry per record. */
  lemma {:induction false} BucketLength(lines: seq<Line>, n: nat, i: nat)
    requires AllLoadable(lines, n) && i < 6
    ensures |BucketPrefix(lines, n, i)| <= n
  {
    if n > 0 {
      BucketLength(lines, n - 1, i);
    }
  }

  /** Every entry carries exactly one piece of code, stripped and free of
      fences. */
  lemma {:induction false} BucketEntriesWellFormed(lines: seq<Line>, n: nat, i: nat)
    requires AllLoadable(lines, n) && i < 6
    ensures forall e :: e in BucketPrefix(lines, n, i) ==>
              |e.codeList| == 1 && IsStripped(e.codeList[0]) && !Contains(e.codeList[0], Fence)
  {
    if n > 0 {
      BucketEntriesWellFormed(lines, n - 1, i);
    }
  }

  /** The inner loop over `i in range(0, 6)` for one parsed record: appends
      the record's entry to every budget whose "weighted" field it has, or
      fails (`KeyError`) when it has such a field but no "question_id". */
  method FileRecord(completions: map<nat, seq<Entry>>, data: Record)
    returns (r: Option<map<nat, seq<Entry>>>)
    requires completions.Keys == BudgetKeys
    ensures r.Some? <==> Loadable(Object(data))
    ensures r.Some? ==> r.value.Keys == BudgetKeys
    ensures r.Some? ==> forall i :: 0 <= i < 6 ==>
              Pow2(i) in r.value && r.value[Pow2(i)] == completions[Pow2(i)] + EntriesOf(data, i)
  {
    PowersAreBudgetKeys();
    var filled := completions;
    for i := 0 to 6
      invariant filled.Keys == completions.Keys
      invariant forall j :: 0 <= j < i ==> (WeightedKey(j) in data ==> QuestionIdKey in data)
      invariant forall j :: 0 <= j < 6 ==>
                  filled[Pow2(j)] == completions[Pow2(j)] + (if j < i then EntriesOf(data, j) else [])
    {
      var budget := Pow2(i);
      if WeightedKey(i) in data {
        if QuestionIdKey !in data {
          return None;
        }
        forall j | 0 <= j < 6 ensures j != i ==> Pow2(j) != budget {
          Pow2Injective(i, j);
        }
        filled := filled[budget := filled[budget] + EntriesOf(data, i)];
      }
    }
    return Some(filled);
  }

  /** Fills the six budget lists in record order. The first blank or
      malformed line, or the first record with a budget field but no
      "question_id", aborts the whole run. */
  method BucketCompletions(lines: seq<Line>) returns (r: Result<map<nat, seq<Entry>>, FormatError>)
    ensures r.Failure? <==> !AllLoadable(lines, |lines|)
    ensures r.Failure? ==> FirstUnloadable(lines, r.error)
    ensures r.Success? ==> AllLoadable(lines, |lines|) && r.value.Keys == BudgetKeys
                           && forall i :: 0 <= i < 6 ==> Pow2(i) in r.value && r.value[Pow2(i)] == Bucket(lines, i)
  {
    PowersAreBudgetKeys();
    var completions: map<nat, seq<Entry>> := map b | b in BudgetKeys :: [];
    for n := 0 to |lines|
      invariant AllLoadable(lines, n)
      invariant completions.Keys == BudgetKeys
      invariant forall i :: 0 <= i < 6 ==> Pow2(i) in completions && completions[Pow2(i)] == BucketPrefix(lines, n, i)
    {
      if !lines[n].Object? {
        return Failure(InvalidJson(n));
      }
      var filled := FileRecord(completions, lines[n].fields);
      if filled.None? {
        return Failure(MissingQuestionId(n));
      }
      completions := filled.value;
    }
    return Success(completions);
  }

  /** `error` names the first line that aborts the run, with the exception
      that line raises. */
  predicate FirstUnloadable(lines: seq<Line>, error: FormatError) {
    var k := error.line;
    k < |lines| && AllLoadable(lines, k) && !Loadable(lines[k])
    && error == (if lines[k].Object? then MissingQuestionId(k) else InvalidJson(k))
  }

  /** `f"./dataset/completions_{n}.json"`. */
  function FileName(n: nat): string {
    "./dataset/completions_" + NatToString(n) + ".json"
  }

  /** Different budgets are written to different files. */
  lemma FileNameInjective(a: nat, b: nat)
    ensures FileName(a) == FileName(b) ==> a == b
  {
    var p := |"./dataset/completions_"|;
    var sa, sb := NatToString(a), NatToString(b);
    assert |FileName(a)| == p + |sa| + 5 && |FileName(b)| == p + |sb| + 5;
    assert sa == FileName(a)[p..p + |sa|];
    assert sb == FileName(b)[p..p + |sb|];
    NatToStringInjective(a, b);
  }

  /** The six files written by `process_jsonl`, in order: the list of
      budget `2**i` goes to its own file. */
  function OutputFiles(buckets: map<nat, seq<Entry>>): (files: seq<(string, seq<Entry>)>)
    requires forall i :: 0 <= i < 6 ==> Pow2(i) in buckets
    ensures |files| == 6
    ensures forall i :: 0 <= i < 6 ==> files[i] == (FileName(Pow2(i)), buckets[Pow2(i)])
    ensures forall i, j :: 0 <= i < j < 6 ==> files[i].0 != files[j].0
  {
    var files := seq(6, i requires 0 <= i < 6 => (FileName(Pow2(i)), buckets[Pow2(i)]));
    forall i, j | 0 <= i < j < 6
      ensures files[i].0 != files[j].0
    {
      Pow2Injective(i, j);
      FileNameInjective(Pow2(i), Pow2(j));
    }
    files
  }

  /** The whole reformatter on parsed lines: either the run aborts at the
      first bad line, or exactly six files are produced, one per budget, each
      holding that budget's entries in record order. */
  method ProcessJsonl(lines: seq<Line>) returns (r: Result<seq<(string, seq<Entry>)>, FormatError>)
    ensures r.Failure? <==> !AllLoadable(lines, |lines|)
    ensures r.Failure? ==> FirstUnloadable(lines, r.error)
    ensures r.Success? ==> AllLoadable(lines, |lines|) && |r.value| == 6
                           && forall i :: 0 <= i < 6 ==>
                                r.value[i] == (FileName(Pow2(i)), Bucket(lines, i))
    ensures r.Success? ==> forall i, j :: 0 <= i < j < 6 ==> r.value[i].0 != r.value[j].0
    ensures lines == [] ==> r.Success? && forall i :: 0 <= i < 6 ==> r.value[i].1 == []
  {
    var buckets := BucketCompletions(lines);
    match buckets
    case Failure(e) =>
      return Failure(e);
    case Success(completions) =>
      return Success(OutputFiles(completions));
  }
}
