/** The leaderboard header: the view-mode buttons, the task title and the
    choice between chart and CSV export. */
module LeaderboardHeaderView {
  import opened Strings

  /** `viewMode`. */
  datatype ViewMode = Table | Scatter | CodeQuestions | ModelComparison

  /** The chart button: table, then scatter, then code questions, then back
      to table; any other mode goes to table. */
  function ChartButtonNext(mode: ViewMode): ViewMode
  {
    if mode == Table then Scatter
    else if mode == Scatter then CodeQuestions
    else Table
  }

  /** Three presses of the chart button bring table, scatter and code
      questions back to themselves, passing through the other two; from the
      comparison view one press leads to the table. The button never leads
      to the comparison view. */
  lemma ChartButtonCycle(mode: ViewMode)
    ensures mode != ModelComparison ==> ChartButtonNext(ChartButtonNext(ChartButtonNext(mode))) == mode
    ensures mode != ModelComparison ==> ChartButtonNext(mode) != mode && ChartButtonNext(ChartButtonNext(mode)) != mode
    ensures mode == ModelComparison ==> ChartButtonNext(mode) == Table
    ensures ChartButtonNext(mode) != ModelComparison
  {
  }

  /** The comparison button: from the comparison view back to the table,
      from any other view to the comparison view. */
  function ComparisonButtonNext(mode: ViewMode): ViewMode
  {
    if mode == ModelComparison then Table else ModelComparison
  }

  /** On table and comparison views the comparison button is an involution,
      always changing the view. */
  lemma ComparisonButtonInvolution(mode: ViewMode)
    ensures mode == Table || mode == ModelComparison ==> ComparisonButtonNext(ComparisonButtonNext(mode)) == mode
    ensures ComparisonButtonNext(mode) != mode
    ensures ComparisonButtonNext(mode) == Table || ComparisonButtonNext(mode) == ModelComparison
  {
  }

  /** The buttons the header shows. */
  datatype Buttons = Buttons(comparisonToggle: bool, compareModal: bool, chartButton: bool, exportChart: bool)

  function ShownButtons(task: string, mode: ViewMode, shouldShowChartButton: bool): Buttons
  {
    Buttons(task == "overall", task != "overall", shouldShowChartButton, mode == Scatter)
  }

  /** Exactly one of the comparison toggle (on the overall task) and the
      compare-modal button (on every other task) is shown; the chart export
      replaces the CSV export exactly in the scatter view. */
  lemma ComparisonButtonsExclusive(task: string, mode: ViewMode, shouldShowChartButton: bool)
    ensures ShownButtons(task, mode, shouldShowChartButton).comparisonToggle != ShownButtons(task, mode, shouldShowChartButton).compareModal
    ensures ShownButtons(task, mode, shouldShowChartButton).comparisonToggle <==> task == "overall"
    ensures ShownButtons(task, mode, shouldShowChartButton).exportChart <==> mode == Scatter
  {
  }

  /** `handleExport`: whether the chart is exported as SVG; only in the
      scatter view with a mounted chart. */
  function ExportsChart(mode: ViewMode, chartMounted: bool): (svg: bool)
    ensures svg <==> mode == Scatter && chartMounted
  {
    mode == Scatter && chartMounted
  }

  /** The export button wired to `handleExport` is the one shown in the
      scatter view, so a chart export only happens where that button is
      shown; there it exports the chart exactly when the chart is mounted.
      In every other view the CSV link is shown instead. */
  lemma ExportFromShownButton(task: string, mode: ViewMode, shouldShowChartButton: bool, chartMounted: bool)
    ensures ExportsChart(mode, chartMounted) ==> ShownButtons(task, mode, shouldShowChartButton).exportChart
    ensures ShownButtons(task, mode, shouldShowChartButton).exportChart ==> (ExportsChart(mode, chartMounted) <==> chartMounted)
  {
    ComparisonButtonsExclusive(task, mode, shouldShowChartButton);
  }

  /** `toUpperCase` on one character (ASCII letters). */
  function UpperChar(c: char): (u: char)
    ensures u == ' ' <==> c == ' '
  {
    if 'a' <= c <= 'z' then (c as int - 'a' as int + 'A' as int) as char else c
  }

  /** `word.charAt(0).toUpperCase() + word.slice(1)`. */
  function Capitalize(word: string): (capital: string)
    ensures |capital| == |word|
    ensures forall k :: 0 <= k < |word| ==> (capital[k] == ' ' <==> word[k] == ' ')
  {
    if word == [] then [] else [UpperChar(word[0])] + word[1..]
  }

  function CapitalizeAll(words: seq<string>): (caps: seq<string>)
    ensures |caps| == |words|
    ensures forall i :: 0 <= i < |words| ==> caps[i] == Capitalize(words[i])
  {
    seq(|words|, i requires 0 <= i < |words| => Capitalize(words[i]))
  }

  /** The title shown for the current task. */
  function TaskTitle(task: string): string
  {
    if task == "multi-modality" then "Multi-Modality"
    else if task == "code-robustness" then "Code-Robustness"
    else Join(CapitalizeAll(Split(task, ' ')), ' ')
  }

  /** Apart from the two special tasks, the title has as many words as the
      task name, and each word is the task's word with its first character
      upper-cased and the rest unchanged. */
  lemma TaskTitleWords(task: string)
    requires task != "multi-modality" && task != "code-robustness"
    ensures |Split(TaskTitle(task), ' ')| == |Split(task, ' ')|
    ensures forall i :: 0 <= i < |Split(task, ' ')| ==>
      var word := Split(task, ' ')[i];
      var titled := Split(TaskTitle(task), ' ')[i];
      |titled| == |word| && (|word| > 0 ==> titled[0] == UpperChar(word[0]) && titled[1..] == word[1..])
  {
    var words := Split(task, ' ');
    var caps := CapitalizeAll(words);
    SplitJoin(task, ' ');
    forall i | 0 <= i < |caps|
      ensures ' ' !in caps[i]
    {
      assert ' ' !in words[i];
    }
    JoinSplit(caps, ' ');
  }

  /** A two-word task name is titled word by word. */
  lemma TwoWordTitle(first: string, second: string)
    requires ' ' !in first && ' ' !in second
    requires first + " " + second != "multi-modality" && first + " " + second != "code-robustness"
    ensures TaskTitle(first + " " + second) == Capitalize(first) + " " + Capitalize(second)
  {
    assert first + " " + second == first + [' '] + second;
    SplitAfterWord(first, ' ', second);
    NoSeparatorWhole(second, ' ');
    var caps := CapitalizeAll([first, second]);
    assert caps == [Capitalize(first), Capitalize(second)];
    assert caps[1..] == [Capitalize(second)];
    assert Split(first + " " + second, ' ') == [first, second];
    assert Join(caps, ' ') == Capitalize(first) + [' '] + Join([Capitalize(second)], ' ');
  }
}

/** A leaderboard column header: its width, whether a click sorts, the
    resize handle, the sort indicator and the label layout. */
module TableHeaderView {
  import opened Strings
  import opened Wrappers

  /** `columnWidths[key] || fallback`: a missing or zero width falls back. */
  function StoredOr(widths: map<string, int>, key: string, fallback: int): (w: int)
    ensures key in widths && widths[key] != 0 ==> w == widths[key]
    ensures !(key in widths && widths[key] != 0) ==> w == fallback
  {
    if key in widths && widths[key] != 0 then widths[key] else fallback
  }

  /** The header's width: at least 300 for the model column of the overall
      task, else the stored width or 100. */
  function ColumnWidth(task: string, key: string, widths: map<string, int>): (w: int)
    ensures task == "overall" && key == "model" ==> w >= 300
    ensures task == "overall" && key == "model" && key in widths && widths[key] >= 300 ==> w == widths[key]
    ensures task == "overall" && key == "model" && !(key in widths && widths[key] >= 300) ==> w == 300
    ensures !(task == "overall" && key == "model") ==> w == StoredOr(widths, key, 100)
  {
    if task == "overall" && key == "model" then
      var stored := StoredOr(widths, key, 300);
      if stored >= 300 then stored else 300
    else StoredOr(widths, key, 100)
  }

  /** The width the label is fitted to before `getContentWidth`:
      the stored width, else 250 for summarization and review, 350 for
      vulnerability detection and 300 otherwise. */
  function ContentBasis(task: string, key: string, widths: map<string, int>): (w: int)
    ensures key in widths && widths[key] != 0 ==> w == widths[key]
    ensures !(key in widths && widths[key] != 0) ==> w in {250, 300, 350}
    ensures !(key in widths && widths[key] != 0) && (task == "code summarization" || task == "code review") ==> w == 250
    ensures !(key in widths && widths[key] != 0) && task == "vulnerability detection" ==> w == 350
    ensures !(key in widths && widths[key] != 0) && task !in {"code summarization", "code review", "vulnerability detection"}
      ==> w == 300
  {
    StoredOr(widths, key,
      if task == "code summarization" || task == "code review" then 250
      else if task == "vulnerability detection" then 350
      else 300)
  }

  /** The columns a click sorts. */
  const SortableColumns: seq<string> := [
    "rank", "model",
    "pass@1", "pass@3", "pass@5",
    "easy_pass@1", "medium_pass@1", "hard_pass@1",
    "easy_pass@3", "medium_pass@3", "hard_pass@3",
    "easy_pass@5", "medium_pass@5", "hard_pass@5",
    "CodeBLEU", "LLMJudge", "llmjudge", "LLM Judge", "Execution",
    "Accuracy", "Precision", "Recall", "F1 Score",
    "P-C", "P-V", "P-B", "P-R",
    "MLLM_Score", "CMS", "CLIP", "Compilation",
    "VAN", "ALL", "MDC", "MPS", "MHC", "Average",
    "Vanilla", "PSC-ALL", "MCC",
    "csr", "line_coverage", "branch_coverage"
  ]

  /** A click on the header: the key passed to `handleSort`, if any. */
  function HeaderClick(key: string): (sortKey: Option<string>)
    ensures sortKey.Some? <==> key in SortableColumns
    ensures sortKey.Some? ==> sortKey.value == key
  {
    if key in SortableColumns then Some(key) else None
  }

  /** Pressing the resize handle: the key passed to the resize handler, if
      any. */
  function ResizeStart(key: string): (resized: Option<string>)
    ensures resized.Some? <==> key != "rank"
    ensures resized.Some? ==> resized.value == key
  {
    if key != "rank" then Some(key) else None
  }

  datatype Direction = Asc | Desc
  datatype SortConfig = SortConfig(key: string, direction: Direction)

  /** The header's sort indicator: an arrow in the sort direction, or the
      neutral sort icon. */
  datatype Indicator = Neutral | Arrow(direction: Direction)

  function SortIndicator(sortConfig: Option<SortConfig>, key: string): (shown: Indicator)
    ensures shown.Arrow? <==> sortConfig.Some? && sortConfig.value.key == key && key != "rank"
    ensures shown.Arrow? ==> shown.direction == sortConfig.value.direction
  {
    match sortConfig
    case Some(config) =>
      if config.key == key && key != "rank" then Arrow(config.direction) else Neutral
    case None => Neutral
  }

  /** A header label's layout: difficulty over metric, several lines, or
      the label as is. */
  datatype HeaderLabel = Difficulty(difficulty: string, metric: string) | Lines(lines: seq<string>) | Plain(text: string)

  /** `formatDifficultyHeader`. */
  function FormatDifficultyHeader(text: string): (shown: HeaderLabel)
    ensures shown.Difficulty? <==> "Easy " <= text || "Medium " <= text || "Hard " <= text
    ensures shown.Lines? <==> !shown.Difficulty? && '\n' in text
    ensures shown.Plain? ==> shown.text == text && '\n' !in text
  {
    if "Easy " <= text || "Medium " <= text || "Hard " <= text then
      var parts := Split(text, ' ');
      assert |parts| >= 2 by { DifficultySplits(text); }
      Difficulty(parts[0], parts[1])
    else if '\n' in text then Lines(Split(text, '\n'))
    else Plain(text)
  }

  lemma DifficultySplits(text: string)
    requires "Easy " <= text || "Medium " <= text || "Hard " <= text
    ensures |Split(text, ' ')| >= 2
  {
    var w := if "Easy " <= text then "Easy" else if "Medium " <= text then "Medium" else "Hard";
    assert text == w + [' '] + text[|w| + 1..];
    SplitAfterWord(w, ' ', text[|w| + 1..]);
  }

  /** A difficulty label shows the difficulty word over the next word,
      dropping any words after it. */
  lemma DifficultyHeaderParts(difficulty: string, metric: string, rest: string)
    requires difficulty in ["Easy", "Medium", "Hard"]
    requires ' ' !in metric
    ensures FormatDifficultyHeader(difficulty + " " + metric) == Difficulty(difficulty, metric)
    ensures FormatDifficultyHeader(difficulty + " " + metric + " " + rest) == Difficulty(difficulty, metric)
  {
    var text := difficulty + " " + metric;
    assert difficulty + " " <= text;
    assert text == difficulty + [' '] + metric;
    SplitAfterWord(difficulty, ' ', metric);
    NoSeparatorWhole(metric, ' ');
    var long := difficulty + " " + metric + " " + rest;
    assert difficulty + " " <= long;
    assert long == difficulty + [' '] + (metric + [' '] + rest);
    SplitAfterWord(difficulty, ' ', metric + [' '] + rest);
    SplitAfterWord(metric, ' ', rest);
  }

  /** Any other label with a newline is shown as its lines, which join back
      to the label and hold no newline. */
  lemma MultiLineHeader(text: string)
    requires !("Easy " <= text || "Medium " <= text || "Hard " <= text)
    requires '\n' in text
    ensures FormatDifficultyHeader(text).Lines?
    ensures Join(FormatDifficultyHeader(text).lines, '\n') == text
    ensures forall i :: 0 <= i < |FormatDifficultyHeader(text).lines| ==> '\n' !in FormatDifficultyHeader(text).lines[i]
  {
    SplitJoin(text, '\n');
  }

  /** The label's minimum width in pixels: 12 per character, at least 60. */
  function LabelMinWidth(text: string): (w: int)
    ensures w >= 60 && w >= 12 * |text|
    ensures w == 60 || w == 12 * |text|
  {
    if 12 * |text| >= 60 then 12 * |text| else 60
  }
}
