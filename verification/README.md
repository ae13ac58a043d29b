# Completion extraction and bucketing, modelled in Dafny

This project models the data handling of two scripts from a best-of-n code
generation study: the multi-strategy evaluator (`evaluate_completions_for_n.py`)
and the completion reformatter (`LiveCodeBench/format_dataset.py`). Both read
a JSONL file of completion records. Each record carries a `question_id` and
fields named `completion_<strategy>@<n>`, where `n` is a sampling budget
1, 2, 4, 8, 16 or 32.

- **Code extraction.** Each script has its own extractor.
  - `extract_code_from_markdown` takes the text between the first "```python"
    and the next "```". When there is no such fence it returns the whole text.
  - `extract_python_code` needs "```python" followed by a newline. It strips
    whitespace from the result and returns "" when there is no fence.
  - Both extractors are one `re.search` with a lazy DOTALL group. The model
    specifies that search directly on strings (module `Fences`): the leftmost
    opener, then the first fence after it.
- **Evaluator.** It indexes the records by question id, with the last record
  winning. It builds one single-element code list per benchmark sample. It
  keeps only the samples that have a record. It chooses the rows of the
  per-strategy CSV report.
- **Reformatter.** It files the "weighted" completion of every record under
  each budget `2**i` that the record has. It then writes one file per budget.

Inputs are the already-parsed lines of the JSONL file. A line is a
`Line`: blank, malformed, or a JSON object of string fields. The outputs are
values: maps, lists and `(file name, entries)` pairs.

Modules:

- `Wrappers`: Option and Result.
- `Text`: Python's `str.isspace`, `strip`, substring search and `str(n)`.
- `Records`: the record type, the field names and the budgets.
- `Fences`: the fenced-block search.
- `EvaluateCompletions`: the evaluator.
- `FormatDataset`: the reformatter.
- `ExtractorAgreement`: how the two extractors relate.

Two behaviours of the code are modelled as written:

- The reformatter does not skip a bad line. `json.loads` raises on a blank or
  malformed line, and `data["question_id"]` raises on a record that has a
  budget field but no id. Either exception aborts the whole run
  (`FormatError`). The evaluator's loader skips blank lines, but a malformed
  line still aborts it.
- In `get_aligned_generations`, `problem_generations` is assigned only when a
  sample has a completion. A sample without one therefore repeats the
  previous sample's list. When the first sample has no completion, Python
  raises `UnboundLocalError`. The model carries the variable as an `Option`
  and returns `UnboundLocal(0)` in that case. `AlignedTakesLatestSupplier`
  spells out which completion each element ends up holding.

## Model

| member | source | states |
|---|---|---|
| Text.IsSpace | LiveCodeBench/format_dataset.py:9 | defines the whitespace `strip()` removes: Python's `str.isspace` set (the ASCII blanks, U+001C..U+001F, U+0085, U+00A0 and the Unicode spaces) |
| Text.Strip | LiveCodeBench/format_dataset.py:9 | `strip()` drops exactly the leading and trailing whitespace: the result is a slice of the input, neither end of it is whitespace, and everything cut off is whitespace |
| Text.StripsToUnique | LiveCodeBench/format_dataset.py:9 | at most one string meets that description, so it determines `strip()` completely |
| Text.StripStripped | LiveCodeBench/format_dataset.py:9 | stripping a string with no whitespace at either end returns it unchanged |
| Text.StripIdempotent | LiveCodeBench/format_dataset.py:9 | stripping twice gives what stripping once gives |
| Text.StripLeadingSpace | LiveCodeBench/format_dataset.py:9 | a whitespace character in front does not change the stripped result |
| Text.StripTrailingSpace | LiveCodeBench/format_dataset.py:9 | a whitespace character at the end does not change the stripped result |
| Text.FindFrom | evaluate_completions_for_n.py:26 | the index returned holds the pattern and is the first such index at or after the start; none is returned only when the pattern occurs nowhere from the start on |
| Text.NatToString | evaluate_completions_for_n.py:70 | `str(n)` is a non-empty string of decimal digits without a leading zero unless `n` is 0 |
| Text.NatToStringRoundTrip | evaluate_completions_for_n.py:70 | reading the digits of `str(n)` back gives `n` |
| Text.NatToStringInjective | evaluate_completions_for_n.py:70 | different numbers print differently |
| Records.CompletionKey | evaluate_completions_for_n.py:70 | `f"completion_{strategy}@{n}"` is longer than its fixed prefix |
| Records.CompletionKeyInjective | LiveCodeBench/format_dataset.py:22 | for one strategy, different budgets name different fields |
| Records.Pow2 | LiveCodeBench/format_dataset.py:15 | defines `2**i` recursively; it is at least 1 |
| Records.Pow2Increasing | LiveCodeBench/format_dataset.py:15 | `2**i` grows strictly with `i` |
| Records.Pow2AreBudgets | LiveCodeBench/format_dataset.py:15 | `2**i` for `i` in 0..5 are 1, 2, 4, 8, 16 and 32, the budgets the evaluator lists at line 108 of the evaluator |
| Fences.Search | evaluate_completions_for_n.py:26 | the search reports the match with the leftmost opener and, for it, the nearest closing fence; it reports nothing exactly when no opener is followed by a fence |
| Fences.Group | evaluate_completions_for_n.py:26-27 | group 1 is the text between that opener and that fence, and is absent exactly when there is no match |
| Fences.GroupIsCloseFree | evaluate_completions_for_n.py:26 | group 1 is a substring of the text and contains no closing fence |
| Fences.GroupOfFenced | evaluate_completions_for_n.py:26 | for an opener, then code holding no fence and not ending in a backtick, then a fence, group 1 is exactly the code |
| EvaluateCompletions.ExtractCodeFromMarkdown | evaluate_completions_for_n.py:24-27 | returns the text itself when there is no match, and otherwise the text between the first "```python" and the first "```" after it |
| EvaluateCompletions.MarkdownWithoutOpenerUnchanged | evaluate_completions_for_n.py:26-27 | a text without "```python" comes back unchanged |
| EvaluateCompletions.MarkdownMatchIsFenceFree | evaluate_completions_for_n.py:26 | on a match, the result is a substring of the text and contains no "```" |
| EvaluateCompletions.MarkdownIdempotent | evaluate_completions_for_n.py:26-27 | extracting twice gives what extracting once gives |
| EvaluateCompletions.MarkdownRoundTrip | evaluate_completions_for_n.py:24-26 | "```python" + code + "```" gives the code back when the code holds no "```" and does not end in a backtick |
| EvaluateCompletions.MarkdownRoundTripNoBacktick | evaluate_completions_for_n.py:24-26 | in particular, code with no backtick survives the round trip |
| EvaluateCompletions.LoadCompletionsMap | evaluate_completions_for_n.py:53-60 | fails exactly when some line is malformed, naming the first one; otherwise the keys are exactly the ids of the records that have one, and each id maps to the last record carrying it |
| EvaluateCompletions.GetAlignedGenerations | evaluate_completions_for_n.py:62-85 | a sample has a completion (`Lookup`) when its id has a record and that record has the field `completion_<strategy>@<n>`; the method fails with `UnboundLocalError` at sample 0 exactly when the first sample has none; otherwise there is one single-element list per sample, holding the extracted completion when the sample has one and repeating the previous element when it has none |
| EvaluateCompletions.AlignedTakesLatestSupplier | evaluate_completions_for_n.py:72-83 | in such a list, element `i` holds the extracted completion of the latest sample at or before `i` that has one |
| EvaluateCompletions.KnownSamples | evaluate_completions_for_n.py:101 | the filter keeps an order-preserving subsequence of the dataset, holding each sample as often as the dataset does when its id has a record and not at all otherwise |
| EvaluateCompletions.PassKey | evaluate_completions_for_n.py:151 | defines the metric name `f"pass@{n}"` |
| EvaluateCompletions.CsvRows | evaluate_completions_for_n.py:147-154 | rows are in ascending budget order, one for each budget among 1..32 with a non-empty metrics entry and no others; each row's score (`ScoreOf`) is that budget's `pass@n` metric when present and the default 0 when absent |
| FormatDataset.ExtractPythonCode | LiveCodeBench/format_dataset.py:5-11 | returns "" when there is no match, and otherwise the stripped text between the first "```python\n" and the first "```" after it; the result has no surrounding whitespace, is a substring of the text and contains no "```" |
| FormatDataset.PythonCodeRoundTrip | LiveCodeBench/format_dataset.py:5-9 | "```python\n" + code + "```" gives the stripped code when the code holds no "```" and does not end in a backtick |
| FormatDataset.PythonCodeOfFencedLines | LiveCodeBench/format_dataset.py:5-9 | backtick-free code without surrounding whitespace, written on its own lines in a fence, is extracted exactly |
| FormatDataset.PythonCodeExample | LiveCodeBench/format_dataset.py:5-9 | "```python\nprint(1)\n```" gives "print(1)" |
| FormatDataset.BudgetKeysArePowers | LiveCodeBench/format_dataset.py:15 | the six budgets 1, 2, 4, 8, 16 and 32 are exactly the dictionary's keys `{2**i for i in range(0, 6)}` |
| FormatDataset.PowersAreBudgetKeys | LiveCodeBench/format_dataset.py:15 | each `2**i` with `i` in 0..5 is one of those keys |
| FormatDataset.WeightedKey | LiveCodeBench/format_dataset.py:22 | defines the field read for budget `2**i`: `f"completion_weighted@{2**i}"` |
| FormatDataset.WeightedKeyInjective | LiveCodeBench/format_dataset.py:22 | different budgets read different fields |
| FormatDataset.Loadable | LiveCodeBench/format_dataset.py:19-25 | defines a line the loop gets through: it parses as a JSON object (line 19), and it has a "question_id" whenever it has one of the six budget fields (line 25) |
| FormatDataset.Pow2Injective | LiveCodeBench/format_dataset.py:15 | different exponents give different keys, so the six lists are distinct entries of the dictionary |
| FormatDataset.EntriesOf | LiveCodeBench/format_dataset.py:21-27 | a record adds at most one entry to budget `2**i`, and adds one exactly when it has the field `completion_weighted@2**i` |
| FormatDataset.BucketPrefix | LiveCodeBench/format_dataset.py:15-27 | defines budget `2**i`'s list after the first `n` records: empty at the start, then each record's entries appended in order |
| FormatDataset.Bucket | LiveCodeBench/format_dataset.py:15-27 | defines budget `2**i`'s list after all records |
| FormatDataset.BucketPrefixAppend | LiveCodeBench/format_dataset.py:18-27 | filing records one after another appends their entries in record order |
| FormatDataset.BucketAppend | LiveCodeBench/format_dataset.py:18-27 | the list for the concatenation of two record sequences is the concatenation of their lists |
| FormatDataset.BucketSingle | LiveCodeBench/format_dataset.py:21-27 | a single record files exactly its own entry |
| FormatDataset.BucketContribution | LiveCodeBench/format_dataset.py:18-27 | record `k` contributes exactly its own entry, after those of the records before it and before those of the records after it |
| FormatDataset.BucketLength | LiveCodeBench/format_dataset.py:18-27 | a list has at most one entry per record |
| FormatDataset.BucketEntriesWellFormed | LiveCodeBench/format_dataset.py:24-27 | every entry's code list has exactly one element, with no surrounding whitespace and no "```" |
| FormatDataset.FileRecord | LiveCodeBench/format_dataset.py:21-27 | given the dictionary with exactly the six budget keys, the inner loop succeeds exactly when the record does not have a budget field without a "question_id"; it then keeps exactly those keys and appends the record's entry to each budget's list |
| FormatDataset.BucketCompletions | LiveCodeBench/format_dataset.py:14-27 | fails exactly when some line cannot be loaded, naming the first one with the error it raises; otherwise the keys are the six budgets and each budget's list is its entries in record order |
| FormatDataset.FileName | LiveCodeBench/format_dataset.py:31 | defines the output name `f"./dataset/completions_{n}.json"` |
| FormatDataset.FileNameInjective | LiveCodeBench/format_dataset.py:29-31 | different budgets are written to different file names |
| FormatDataset.OutputFiles | LiveCodeBench/format_dataset.py:29-34 | six files, in budget order, each named after its budget and holding that budget's list, all names distinct |
| FormatDataset.ProcessJsonl | LiveCodeBench/format_dataset.py:14-34 | aborts at the first bad line; otherwise writes six distinctly named files holding each budget's entries in record order, and an empty input gives six empty lists |
| ExtractorAgreement.SearchesAgree | LiveCodeBench/format_dataset.py:6-7 | when every "```python" in a text is followed by a newline, the reformatter's search finds the same fences as the evaluator's |
| ExtractorAgreement.ExtractorsAgree | LiveCodeBench/format_dataset.py:5-11 | on such a text, `extract_python_code` is `extract_code_from_markdown` followed by `strip`, except that it gives "" where the other returns the text unchanged |

## Left out

- Reading and writing files and JSON syntax are not modelled. Inputs are the parsed lines, and the outputs are values. The evaluator's `load_completions_from_jsonl` is unused and is not part of this model.
- Only string fields are modelled. A JSON value that is not an object (a list, a number or a string) gives a different meaning to `key in data` in Python. Non-string field values, including a non-string `question_id`, are not modelled either.
- The external benchmark calls (`load_code_generation_dataset`, `get_evaluation_sample`, `codegen_metrics`) are not modelled. A sample is reduced to its question id. The metrics map is an input to `CsvRows`, with values of an unspecified type.
- The rest of `evaluate_all_n` is not modelled: the strategy-by-budget loop, the length-0 check and the collection of `results_per_n`. That loop calls `sys.exit(-1)` right after the first evaluation, so in the code as written the CSV rows are never reached. `CsvRows` models the row choice on its own.
- `CsvRows` returns the rows as values. The text formatting of the score is not modelled.
- Command-line handling, `main`, exit codes, the top-level call with a fixed input path, and all printing are not modelled.
- The commented-out `get_generations_for_n_strategy` is not modelled.
- Regular expressions in general are not modelled. Only the two fixed searches are specified, directly on strings.
- `Text.Strip` uses Python's `str.isspace` character set. It does not model `strip` on surrogate code points or Unicode normalisation.
- `FormatDataset.FileRecord`: the source appends to the earlier budgets' lists before the `KeyError` is raised. The model returns no map at that point. This makes no difference, because the error aborts the whole run and nothing is written.
