/** How the two code extractors relate. The reformatter's pattern is the
    evaluator's with a newline added after "```python"; on a text where every
    such opener ends its line the two searches find the same fences, so the
    reformatter returns the evaluator's code stripped, and "" where the
    evaluator falls back to the whole text. */
module ExtractorAgreement {
  import opened Wrappers
  import opened Text
  import opened Fences
  import EvaluateCompletions
  import FormatDataset

  /** When `s[from]` is not a backtick, the first fence at or after `from`
      is the first one at or after `from + 1`. */
  lemma FindFenceSkips(s: string, from: nat)
    requires from < |s| && s[from] != '`'
    ensures FindFrom(s, Fence, from) == FindFrom(s, Fence, from + 1)
  {
    var a, b := FindFrom(s, Fence, from), FindFrom(s, Fence, from + 1);
    if a.Some? {
      assert s[a.value..a.value + 3][0] == '`';
      assert a.value != from;
    }
    if a.Some? && b.Some? {
      assert a.value <= b.value && b.value <= a.value;
    }
  }

  /** When every "```python" is followed by a newline, the first "```python"
      and the first "```python\n" are at the same place. */
  lemma FirstOpenerAgrees(s: string)
    requires forall k: nat :: OccursAt(s, EvaluateCompletions.PyOpen, k) ==>
                               OccursAt(s, FormatDataset.PyOpenNewline, k)
    ensures FindFrom(s, EvaluateCompletions.PyOpen, 0) == FindFrom(s, FormatDataset.PyOpenNewline, 0)
  {
    var a := FindFrom(s, EvaluateCompletions.PyOpen, 0);
    var b := FindFrom(s, FormatDataset.PyOpenNewline, 0);
    assert FormatDataset.PyOpenNewline[..9] == EvaluateCompletions.PyOpen;
    if b.Some? {
      OccursPrefix(s, FormatDataset.PyOpenNewline, 9, b.value);
    }
    if a.Some? && b.Some? {
      assert a.value <= b.value && b.value <= a.value;
    }
  }

  /** Under the same condition the two searches report the same fences. */
  lemma SearchesAgree(text: string)
    requires forall k: nat :: OccursAt(text, EvaluateCompletions.PyOpen, k) ==>
                               OccursAt(text, FormatDataset.PyOpenNewline, k)
    ensures Search(text, EvaluateCompletions.PyOpen, Fence) == Search(text, FormatDataset.PyOpenNewline, Fence)
  {
    FirstOpenerAgrees(text);
    var first := FindFrom(text, EvaluateCompletions.PyOpen, 0);
    if first.Some? {
      var i := first.value;
      assert text[i + 9] == FormatDataset.PyOpenNewline[9];
      FindFenceSkips(text, i + 9);
    }
  }

  /** On a text whose every "```python" opener ends its line,
      `extract_python_code` is `extract_code_from_markdown` followed by
      `strip`, except that it gives "" where the other returns the text
      unchanged. */
  lemma ExtractorsAgree(text: string)
    requires forall k: nat :: OccursAt(text, EvaluateCompletions.PyOpen, k) ==>
                               OccursAt(text, FormatDataset.PyOpenNewline, k)
    ensures FormatDataset.ExtractPythonCode(text) ==
              if NoMatch(text, EvaluateCompletions.PyOpen, Fence) then ""
              else Strip(EvaluateCompletions.ExtractCodeFromMarkdown(text))
  {
    SearchesAgree(text);
    var found := Search(text, EvaluateCompletions.PyOpen, Fence);
    if found.Some? {
      var (i, j) := found.value;
      var py := text[i + 10..j];
      assert text[i + 9] == '\n';
      assert text[i + 9..j] == [text[i + 9]] + py;
      StripLeadingSpace(text[i + 9], py);
    }
  }
}
