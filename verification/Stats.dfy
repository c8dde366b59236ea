/** The daily statistics: three metrics over all jobs, the same for every order of the jobs
    and for every order in which maps are traversed. */
module Stats {
  import opened Sorting
  import opened Text

  const PROMPT_TREND_LIMIT := 10

  datatype Job = Job(status: string, modelId: string, customPrompt: string, inputTokens: int, outputTokens: int)

  datatype ModelUsage = ModelUsage(modelId: string, count: nat, ratio: real)
  datatype PromptTrend = PromptTrend(prompt: string, count: nat)
  datatype TokenUsage = TokenUsage(inputTokens: int, outputTokens: int, totalTokens: int)
  datatype Metrics = Metrics(totalJobs: nat, modelUsage: seq<ModelUsage>, promptTrends: seq<PromptTrend>, tokenUsage: TokenUsage)

  /** The white space of Unicode. */
  predicate IsSpace(c: char) {
    var n := c as int;
    9 <= n <= 13 || n == 0x20 || n == 0x85 || n == 0xA0 || n == 0x1680 || 0x2000 <= n <= 0x200A ||
    n == 0x2028 || n == 0x2029 || n == 0x202F || n == 0x205F || n == 0x3000
  }

  function TrimSpace(s: string): string
    decreases |s|
  {
    if s != "" && IsSpace(s[0]) then TrimSpace(s[1..])
    else if s != "" && IsSpace(s[|s| - 1]) then TrimSpace(s[..|s| - 1])
    else s
  }

  /** All that the metrics depend on. */
  datatype Summary = Summary(jobs: nat, models: multiset<string>, prompts: multiset<string>, inputTokens: int, outputTokens: int)

  function Named(name: string): multiset<string> {
    if name == "" then multiset{} else multiset{name}
  }

  function Add(s: Summary, j: Job): Summary {
    Summary(s.jobs + 1, s.models + Named(j.modelId), s.prompts + Named(TrimSpace(j.customPrompt)),
            s.inputTokens + j.inputTokens, s.outputTokens + j.outputTokens)
  }

  function Summarize(jobs: seq<Job>): Summary {
    if jobs == [] then Summary(0, multiset{}, multiset{}, 0, 0)
    else Add(Summarize(jobs[..|jobs| - 1]), jobs[|jobs| - 1])
  }

  lemma AddCommutes(s: Summary, x: Job, y: Job)
    ensures Add(Add(s, x), y) == Add(Add(s, y), x)
  {
    hide TrimSpace;
  }

  lemma {:induction false} SummarizeInsert(a: seq<Job>, x: Job, b: seq<Job>)
    ensures Summarize(a + [x] + b) == Add(Summarize(a + b), x)
  {
    hide Add;
    var all := a + [x] + b;
    if b == [] {
      assert all[..|all| - 1] == a && a + b == a;
    } else {
      AddCommutes(Summarize(a + b[..|b| - 1]), x, b[|b| - 1]);
      var front, last := b[..|b| - 1], b[|b| - 1];
      SummarizeInsert(a, x, front);
      assert all[..|all| - 1] == a + [x] + front;
      assert (a + b)[..|a + b| - 1] == a + front;
    }
  }

  /** The order of the jobs does not matter. */
  lemma {:induction false} SummaryOfPermutation(a: seq<Job>, b: seq<Job>)
    requires multiset(a) == multiset(b)
    ensures Summarize(a) == Summarize(b)
  {
    assert |a| == |multiset(a)| == |multiset(b)| == |b|;
    if a != [] {
      var front, x := a[..|a| - 1], a[|a| - 1];
      assert a == front + [x];
      SameElements(a, b, x);
      var i: nat :| i < |b| && b[i] == x;
      var without := b[..i] + b[i + 1..];
      assert b == b[..i] + [x] + b[i + 1..];
      assert front + [x] + [] == a && front + [] == front;
      WithoutOne(front, x, []);
      WithoutOne(b[..i], x, b[i + 1..]);
      SummaryOfPermutation(front, without);
      SummarizeInsert(b[..i], x, b[i + 1..]);
    }
  }

  /** One row of a ranking before it is dressed as usage or trend. */
  datatype Tally = Tally(name: string, count: nat)

  /** Count descending, name ascending. */
  const RankLe: (Tally, Tally) -> bool :=
    (a: Tally, b: Tally) => a.count > b.count || (a.count == b.count && !StrLess(b.name, a.name))

  lemma RankLePreorder()
    ensures Preorder(RankLe)
    ensures forall a, b :: RankLe(a, b) && RankLe(b, a) ==> a == b
  {
    StringLePreorder();
    forall a: Tally, b: Tally
      ensures RankLe(a, b) || RankLe(b, a)
      ensures RankLe(a, b) && RankLe(b, a) ==> a == b
    {
      assert StringLe(a.name, b.name) || StringLe(b.name, a.name);
    }
    forall a: Tally, b: Tally, c: Tally | RankLe(a, b) && RankLe(b, c)
      ensures RankLe(a, c)
    {
      assert StringLe(a.name, b.name) && StringLe(b.name, c.name) ==> StringLe(a.name, c.name);
    }
  }

  /** The rows list every name of `names` once, with its count. */
  ghost predicate Lists(names: multiset<string>, rows: seq<Tally>) {
    (forall r | r in rows :: r.name in names && r.count == names[r.name]) &&
    (forall n | n in names :: Tally(n, names[n]) in rows) &&
    (forall i: nat, j: nat | i < j < |rows| :: rows[i].name != rows[j].name)
  }

  ghost predicate IsRanking(names: multiset<string>, rows: seq<Tally>) {
    Lists(names, rows) && Sorted(RankLe, rows)
  }

  lemma {:induction false} OccursOnce(rows: seq<Tally>, r: Tally)
    requires forall i: nat, j: nat | i < j < |rows| :: rows[i].name != rows[j].name
    ensures multiset(rows)[r] == if r in rows then 1 else 0
  {
    if rows != [] {
      OccursOnce(rows[1..], r);
      assert rows == [rows[0]] + rows[1..];
    }
  }

  lemma {:induction false} ListsHaveOneMultiset(names: multiset<string>, a: seq<Tally>, b: seq<Tally>)
    requires Lists(names, a) && Lists(names, b)
    ensures multiset(a) == multiset(b)
  {
    forall r
      ensures multiset(a)[r] == multiset(b)[r]
    {
      OccursOnce(a, r);
      OccursOnce(b, r);
    }
  }

  /** There is one ranking, whichever way the map was traversed and however the sort treats equals. */
  lemma {:induction false} RankingIsUnique(names: multiset<string>, a: seq<Tally>, b: seq<Tally>)
    requires IsRanking(names, a) && IsRanking(names, b)
    ensures a == b
  {
    ListsHaveOneMultiset(names, a, b);
    RankLePreorder();
    SortedIsUnique(RankLe, a, b);
  }

  function Counts(names: multiset<string>): map<string, nat> {
    map n | n in names :: names[n]
  }

  /** Sorts the rows of a counting map, which is traversed in any order. */
  method Rank(counts: map<string, nat>, ghost names: multiset<string>) returns (rows: seq<Tally>)
    requires counts == Counts(names)
    ensures IsRanking(names, rows)
  {
    rows := [];
    var todo := counts.Keys;
    while todo != {}
      invariant todo <= counts.Keys
      invariant forall r | r in rows :: r.name in counts && r.name !in todo && r.count == counts[r.name]
      invariant forall n | n in counts && n !in todo :: Tally(n, counts[n]) in rows
      invariant forall i: nat, j: nat | i < j < |rows| :: rows[i].name != rows[j].name
      decreases |todo|
    {
      var n :| n in todo;
      todo := todo - {n};
      rows := rows + [Tally(n, counts[n])];
    }
    assert forall n | n in names :: n in counts && Tally(n, counts[n]) in rows;
    RankLePreorder();
    var sorted := SortSlice(RankLe, rows);
    SortedStillLists(names, rows, sorted);
    rows := sorted;
  }

  lemma {:induction false} SortedStillLists(names: multiset<string>, a: seq<Tally>, b: seq<Tally>)
    requires Lists(names, a) && multiset(a) == multiset(b)
    ensures Lists(names, b)
  {
    forall r: Tally
      ensures r in a <==> r in b
    {
      SameElements(a, b, r);
    }
    forall i: nat, j: nat | i < j < |b|
      ensures b[i].name != b[j].name
    {
      assert b[i] in b && b[j] in b;
      OccursOnce(a, b[i]);
      if b[i] == b[j] {
        OccursTwice(b, i, j);
      }
    }
  }

  lemma OccursTwice(rows: seq<Tally>, i: nat, j: nat)
    requires i < j < |rows| && rows[i] == rows[j]
    ensures multiset(rows)[rows[i]] >= 2
  {
    assert rows == rows[..j] + [rows[j]] + rows[j + 1..];
    assert rows[..j][i] == rows[i];
  }

  function Ratio(count: nat, total: nat): real {
    if total > 0 then count as real / total as real else 0.0
  }

  function Usages(rows: seq<Tally>, total: nat): seq<ModelUsage> {
    seq(|rows|, i requires 0 <= i < |rows| => ModelUsage(rows[i].name, rows[i].count, Ratio(rows[i].count, total)))
  }

  function Trends(rows: seq<Tally>): seq<PromptTrend> {
    var kept := if |rows| > PROMPT_TREND_LIMIT then rows[..PROMPT_TREND_LIMIT] else rows;
    seq(|kept|, i requires 0 <= i < |kept| => PromptTrend(kept[i].name, kept[i].count))
  }

  /** The metrics of a summary: the complete ranking of models, the first ten of the ranking of prompts, the totals. */
  ghost predicate IsMetrics(s: Summary, m: Metrics) {
    m.totalJobs == s.jobs &&
    (exists rows :: IsRanking(s.models, rows) && m.modelUsage == Usages(rows, s.jobs)) &&
    (exists rows :: IsRanking(s.prompts, rows) && m.promptTrends == Trends(rows)) &&
    m.tokenUsage == TokenUsage(s.inputTokens, s.outputTokens, s.inputTokens + s.outputTokens)
  }

  method Aggregate(jobs: seq<Job>) returns (m: Metrics)
    ensures IsMetrics(Summarize(jobs), m)
  {
    hide TrimSpace, Summarize, Counts;
    var modelCount: map<string, nat>, promptCount: map<string, nat> := map[], map[];
    var total: nat, input, output := 0, 0, 0;
    ghost var s := Summary(0, multiset{}, multiset{}, 0, 0);
    NothingSummarized(jobs);
    for i := 0 to |jobs|
      invariant s == Summarize(jobs[..i])
      invariant total == s.jobs && input == s.inputTokens && output == s.outputTokens
      invariant modelCount == Counts(s.models) && promptCount == Counts(s.prompts)
    {
      SummarizeStep(jobs, i);
      var j := jobs[i];
      total := total + 1;
      CountsGrow(s.models, j.modelId);
      if j.modelId != "" {
        modelCount := modelCount[j.modelId := 1 + if j.modelId in modelCount then modelCount[j.modelId] else 0];
      }
      var p := TrimSpace(j.customPrompt);
      CountsGrow(s.prompts, p);
      if p != "" {
        promptCount := promptCount[p := 1 + if p in promptCount then promptCount[p] else 0];
      }
      input, output := input + j.inputTokens, output + j.outputTokens;
      s := Add(s, j);
    }
    assert jobs[..|jobs|] == jobs;
    var models := Rank(modelCount, s.models);
    var prompts := Rank(promptCount, s.prompts);
    m := Metrics(total, Usages(models, total), Trends(prompts), TokenUsage(input, output, input + output));
  }

  lemma NothingSummarized(jobs: seq<Job>)
    ensures Summarize(jobs[..0]) == Summary(0, multiset{}, multiset{}, 0, 0) && Counts(multiset{}) == map[]
  {
  }

  lemma SummarizeStep(jobs: seq<Job>, i: nat)
    requires i < |jobs|
    ensures Summarize(jobs[..i + 1]) == Add(Summarize(jobs[..i]), jobs[i])
  {
    assert jobs[..i + 1][..i] == jobs[..i];
  }

  lemma CountsGrow(names: multiset<string>, n: string)
    ensures Counts(names + Named(n)) ==
      if n == "" then Counts(names) else Counts(names)[n := 1 + if n in Counts(names) then Counts(names)[n] else 0]
  {
  }

  /** A summary has one set of metrics. */
  lemma {:induction false} MetricsAreUnique(s: Summary, m: Metrics, n: Metrics)
    requires IsMetrics(s, m) && IsMetrics(s, n)
    ensures m == n
  {
    var a :| IsRanking(s.models, a) && m.modelUsage == Usages(a, s.jobs);
    var b :| IsRanking(s.models, b) && n.modelUsage == Usages(b, s.jobs);
    RankingIsUnique(s.models, a, b);
    var c :| IsRanking(s.prompts, c) && m.promptTrends == Trends(c);
    var d :| IsRanking(s.prompts, d) && n.promptTrends == Trends(d);
    RankingIsUnique(s.prompts, c, d);
  }

  /** `Aggregate` is a function of the multiset of jobs. */
  lemma {:induction false} AggregateIgnoresOrder(a: seq<Job>, b: seq<Job>, m: Metrics, n: Metrics)
    requires multiset(a) == multiset(b) && IsMetrics(Summarize(a), m) && IsMetrics(Summarize(b), n)
    ensures m == n
  {
    SummaryOfPermutation(a, b);
    MetricsAreUnique(Summarize(a), m, n);
  }

  function ModelsOf(jobs: seq<Job>): seq<string> {
    seq(|jobs|, i requires 0 <= i < |jobs| => jobs[i].modelId)
  }

  function PromptsOf(jobs: seq<Job>): seq<string> {
    seq(|jobs|, i requires 0 <= i < |jobs| => TrimSpace(jobs[i].customPrompt))
  }

  /** How often `name` occurs. */
  function Occurrences(names: seq<string>, name: string): nat {
    multiset(names)[name]
  }

  /** `counted` holds what there is to count in `names`: the empty name is not counted. */
  ghost predicate Counted(counted: multiset<string>, names: seq<string>) {
    (forall n | n != "" :: counted[n] == Occurrences(names, n)) && |counted| + Occurrences(names, "") == |names|
  }

  lemma CountedStep(counted: multiset<string>, names: seq<string>, next: string)
    requires Counted(counted, names)
    ensures Counted(counted + Named(next), names + [next])
  {
    assert |counted + Named(next)| == |counted| + |Named(next)|;
  }

  /** The summary counts the jobs by model and by trimmed prompt; those without one are not counted. */
  lemma {:induction false} SummaryCounts(jobs: seq<Job>)
    ensures var s := Summarize(jobs);
      s.jobs == |jobs| && Counted(s.models, ModelsOf(jobs)) && Counted(s.prompts, PromptsOf(jobs))
  {
    hide TrimSpace, Counted, Summarize;
    assert jobs[..|jobs|] == jobs;
    NothingCounted();
    NothingSummarized(jobs);
    if jobs == [] {
      assert ModelsOf(jobs) == [] && PromptsOf(jobs) == [];
    } else {
      var front, last := jobs[..|jobs| - 1], jobs[|jobs| - 1];
      SummaryCounts(front);
      SummarizeStep(jobs, |jobs| - 1);
      NamesStep(front, last);
      assert jobs == front + [last];
      hide ModelsOf, PromptsOf;
      CountedStep(Summarize(front).models, ModelsOf(front), last.modelId);
      CountedStep(Summarize(front).prompts, PromptsOf(front), TrimSpace(last.customPrompt));
    }
  }

  lemma NamesStep(front: seq<Job>, last: Job)
    ensures ModelsOf(front + [last]) == ModelsOf(front) + [last.modelId]
    ensures PromptsOf(front + [last]) == PromptsOf(front) + [TrimSpace(last.customPrompt)]
  {
    hide TrimSpace;
  }

  lemma NothingCounted()
    ensures Counted(multiset{}, [])
  {
  }

  function RowTotal(rows: seq<Tally>): nat {
    if rows == [] then 0 else rows[0].count + RowTotal(rows[1..])
  }

  /** The counts of a list add up to everything there is to count. */
  lemma {:induction false} RowsAddUp(names: multiset<string>, rows: seq<Tally>)
    requires Lists(names, rows)
    ensures RowTotal(rows) == |names|
  {
    if rows == [] {
      assert names == multiset{};
    } else {
      var n := rows[0].name;
      var rest := names[n := 0];
      assert |rest| + names[n] == |names|;
      assert rows[0] in rows;
      forall r | r in rows[1..]
        ensures r.name in rest && r.count == rest[r.name]
      {
        assert r in rows;
        var i: nat :| i < |rows[1..]| && rows[1..][i] == r;
        assert rows[i + 1].name != rows[0].name;
      }
      RowsAddUp(rest, rows[1..]);
    }
  }

  function UsageTotal(usage: seq<ModelUsage>): nat {
    if usage == [] then 0 else usage[0].count + UsageTotal(usage[1..])
  }

  lemma {:induction false} UsageTotalIsRowTotal(rows: seq<Tally>, total: nat)
    ensures UsageTotal(Usages(rows, total)) == RowTotal(rows)
  {
    if rows != [] {
      UsageTotalIsRowTotal(rows[1..], total);
      assert Usages(rows, total)[1..] == Usages(rows[1..], total);
    }
  }

  /** The listed usages are the counted names, each with its count and share. */
  lemma {:induction false} UsagesAreRows(names: multiset<string>, rows: seq<Tally>, total: nat, model: string)
    requires IsRanking(names, rows)
    ensures model in names <==> exists u :: u in Usages(rows, total) && u.modelId == model
    ensures forall u | u in Usages(rows, total) && u.modelId == model :: u.count == names[model] && u.ratio == Ratio(names[model], total)
  {
    hide Ratio, RankLe;
    var usages := Usages(rows, total);
    forall u | u in usages
      ensures Tally(u.modelId, u.count) in rows && u.ratio == Ratio(u.count, total)
    {
      var i: nat :| i < |usages| && usages[i] == u;
      assert rows[i] in rows;
    }
    if model in names {
      var i: nat :| i < |rows| && rows[i] == Tally(model, names[model]);
      assert usages[i] in usages && usages[i].modelId == model;
    }
  }

  /** Conservation: the model counts add up to the jobs that name a model, each model has its own count
      and its share, and nothing else is listed. */
  lemma {:induction false} ModelsAreConserved(jobs: seq<Job>, m: Metrics, model: string)
    requires IsMetrics(Summarize(jobs), m) && model != ""
    ensures m.totalJobs == |jobs|
    ensures UsageTotal(m.modelUsage) + Occurrences(ModelsOf(jobs), "") == |jobs|
    ensures var c := Occurrences(ModelsOf(jobs), model);
      (c > 0 <==> exists u :: u in m.modelUsage && u.modelId == model) &&
      forall u | u in m.modelUsage && u.modelId == model :: u.count == c && u.ratio == Ratio(c, |jobs|)
  {
    hide TrimSpace;
    var s := Summarize(jobs);
    SummaryCounts(jobs);
    assert |ModelsOf(jobs)| == |jobs|;
    hide Summarize, Occurrences, ModelsOf, PromptsOf, Ratio, RankLe;
    var rows :| IsRanking(s.models, rows) && m.modelUsage == Usages(rows, s.jobs);
    RowsAddUp(s.models, rows);
    UsageTotalIsRowTotal(rows, s.jobs);
    UsagesAreRows(s.models, rows, s.jobs, model);
  }

  lemma {:induction false} TrendOfRow(rows: seq<Tally>, t: PromptTrend) returns (i: nat)
    requires t in Trends(rows)
    ensures i < |rows| && i < 10 && rows[i] == Tally(t.prompt, t.count)
  {
    TrendRows(rows);
    hide Trends;
    i :| i < |Trends(rows)| && Trends(rows)[i] == t;
  }

  /** The published trends are rows of the ranking ... */
  lemma {:induction false} TrendsAreRows(names: multiset<string>, rows: seq<Tally>, t: PromptTrend)
    requires IsRanking(names, rows) && t in Trends(rows)
    ensures t.prompt in names && t.count == names[t.prompt]
  {
    var i := TrendOfRow(rows, t);
    assert rows[i] in rows;
  }

  /** ... the first ten, if there are more: a name that is left out comes after all that are kept. */
  lemma {:induction false} OthersComeAfter(names: multiset<string>, rows: seq<Tally>, prompt: string, t: PromptTrend)
    requires IsRanking(names, rows) && prompt in names && t in Trends(rows)
    requires PromptTrend(prompt, names[prompt]) !in Trends(rows)
    ensures |Trends(rows)| == 10
    ensures t.count > names[prompt] || (t.count == names[prompt] && StrLess(t.prompt, prompt))
  {
    RowsDescend(names, rows);
    TrendRows(rows);
    var trends := Trends(rows);
    assert forall i: nat | i < |trends| :: trends[i] in trends;
    var i := TrendOfRow(rows, t);
    var k: nat :| k < |rows| && rows[k] == Tally(prompt, names[prompt]);
    hide Sorted, Lists, Trends, StrLess, RankLe;
  }

  lemma {:induction false} NoTrendsNoNames(names: multiset<string>, rows: seq<Tally>, prompt: string)
    requires IsRanking(names, rows) && prompt in names
    ensures Trends(rows) != []
  {
    assert Tally(prompt, names[prompt]) in rows;
    TrendRows(rows);
  }

  lemma TrendRows(rows: seq<Tally>)
    ensures |Trends(rows)| == if |rows| < 10 then |rows| else 10
    ensures forall i: nat | i < |Trends(rows)| :: Trends(rows)[i] == PromptTrend(rows[i].name, rows[i].count)
  {
  }

  /** Every prompt is counted right; the ones left out come after all ten that are kept:
      they are less frequent, or as frequent and later in byte order. */
  lemma {:induction false} PromptsAreRanked(jobs: seq<Job>, m: Metrics, prompt: string)
    requires IsMetrics(Summarize(jobs), m) && prompt != ""
    ensures |m.promptTrends| <= 10
    ensures forall t | t in m.promptTrends && t.prompt == prompt :: t.count == Occurrences(PromptsOf(jobs), prompt)
    ensures var c := Occurrences(PromptsOf(jobs), prompt);
      c == 0 || PromptTrend(prompt, c) in m.promptTrends ||
        (|m.promptTrends| == 10 && forall t | t in m.promptTrends ::
          t.count > c || (t.count == c && StrLess(t.prompt, prompt)))
  {
    hide TrimSpace;
    var s := Summarize(jobs);
    SummaryCounts(jobs);
    hide Summarize, Occurrences, ModelsOf, PromptsOf, Ratio, Trends, IsRanking;
    var rows :| IsRanking(s.prompts, rows) && m.promptTrends == Trends(rows);
    TrendRows(rows);
    forall t | t in m.promptTrends
      ensures t.prompt in s.prompts && t.count == s.prompts[t.prompt]
    {
      TrendsAreRows(s.prompts, rows, t);
    }
    var c := s.prompts[prompt];
    if c > 0 && PromptTrend(prompt, c) !in m.promptTrends {
      NoTrendsNoNames(s.prompts, rows, prompt);
      OthersComeAfter(s.prompts, rows, prompt, m.promptTrends[0]);
      forall t | t in m.promptTrends
        ensures t.count > c || (t.count == c && StrLess(t.prompt, prompt))
      {
        OthersComeAfter(s.prompts, rows, prompt, t);
      }
    }
  }

  /** A ranking is strictly ordered: by count descending, then by name ascending in byte order. */
  lemma {:induction false} RowsDescend(names: multiset<string>, rows: seq<Tally>)
    requires IsRanking(names, rows)
    ensures forall i: nat, j: nat | i < j < |rows| ::
      rows[i].count > rows[j].count || (rows[i].count == rows[j].count && StrLess(rows[i].name, rows[j].name))
  {
    forall i: nat, j: nat | i < j < |rows|
      ensures rows[i].count > rows[j].count || (rows[i].count == rows[j].count && StrLess(rows[i].name, rows[j].name))
    {
      assert RankLe(rows[i], rows[j]) && rows[i].name != rows[j].name;
      StrLessConnected(rows[i].name, rows[j].name);
    }
  }

  lemma {:induction false} UsagesDescend(names: multiset<string>, rows: seq<Tally>, total: nat)
    requires IsRanking(names, rows)
    ensures var us := Usages(rows, total); forall i: nat, j: nat | i < j < |us| ::
      us[i].count > us[j].count || (us[i].count == us[j].count && StrLess(us[i].modelId, us[j].modelId))
  {
    RowsDescend(names, rows);
    hide Ratio, StrLess, RankLe, IsRanking;
  }

  lemma {:induction false} TrendsDescend(names: multiset<string>, rows: seq<Tally>)
    requires IsRanking(names, rows)
    ensures var ts := Trends(rows); forall i: nat, j: nat | i < j < |ts| ::
      ts[i].count > ts[j].count || (ts[i].count == ts[j].count && StrLess(ts[i].prompt, ts[j].prompt))
  {
    RowsDescend(names, rows);
    TrendRows(rows);
    hide Trends, StrLess, RankLe, IsRanking;
  }

  /** Both rankings as they are published: by count descending, equal counts by name. */
  lemma {:induction false} MetricsAreRanked(jobs: seq<Job>, m: Metrics)
    requires IsMetrics(Summarize(jobs), m)
    ensures forall i: nat, j: nat | i < j < |m.modelUsage| ::
      m.modelUsage[i].count > m.modelUsage[j].count ||
      (m.modelUsage[i].count == m.modelUsage[j].count && StrLess(m.modelUsage[i].modelId, m.modelUsage[j].modelId))
    ensures forall i: nat, j: nat | i < j < |m.promptTrends| ::
      m.promptTrends[i].count > m.promptTrends[j].count ||
      (m.promptTrends[i].count == m.promptTrends[j].count && StrLess(m.promptTrends[i].prompt, m.promptTrends[j].prompt))
  {
    hide Summarize, Usages, Trends, IsRanking, StrLess;
    var s := Summarize(jobs);
    var models :| IsRanking(s.models, models) && m.modelUsage == Usages(models, s.jobs);
    var prompts :| IsRanking(s.prompts, prompts) && m.promptTrends == Trends(prompts);
    UsagesDescend(s.models, models, s.jobs);
    TrendsDescend(s.prompts, prompts);
  }

  /** Trimming takes off all the white space at both ends and nothing else. */
  lemma {:induction false} TrimMeans(s: string) returns (i: nat, j: nat)
    ensures i <= j <= |s| && TrimSpace(s) == s[i..j]
    ensures forall k: nat | k < i || j <= k < |s| :: IsSpace(s[k])
    ensures i < j ==> !IsSpace(s[i]) && !IsSpace(s[j - 1])
    decreases |s|
  {
    hide IsSpace;
    i, j := 0, |s|;
    if s != "" && IsSpace(s[0]) {
      i, j := TrimMeans(s[1..]);
      assert s[1..][i..j] == s[i + 1..j + 1] && forall k: nat | k < |s[1..]| :: s[1..][k] == s[k + 1];
      i, j := i + 1, j + 1;
    } else if s != "" && IsSpace(s[|s| - 1]) {
      i, j := TrimMeans(s[..|s| - 1]);
      assert s[..|s| - 1][i..j] == s[i..j];
    }
  }

  function SumOf(xs: seq<int>): int {
    if xs == [] then 0 else SumOf(xs[..|xs| - 1]) + xs[|xs| - 1]
  }

  lemma SumSnoc(front: seq<int>, x: int)
    ensures SumOf(front + [x]) == SumOf(front) + x
  {
    assert (front + [x])[..|front + [x]| - 1] == front;
  }

  function InputsOf(jobs: seq<Job>): seq<int> {
    seq(|jobs|, i requires 0 <= i < |jobs| => jobs[i].inputTokens)
  }

  function OutputsOf(jobs: seq<Job>): seq<int> {
    seq(|jobs|, i requires 0 <= i < |jobs| => jobs[i].outputTokens)
  }

  /** The token totals are the sums over all jobs. */
  lemma {:induction false} TokensAreSummed(jobs: seq<Job>, m: Metrics)
    requires IsMetrics(Summarize(jobs), m)
    ensures m.tokenUsage.inputTokens == SumOf(InputsOf(jobs))
    ensures m.tokenUsage.outputTokens == SumOf(OutputsOf(jobs))
    ensures m.tokenUsage.totalTokens == m.tokenUsage.inputTokens + m.tokenUsage.outputTokens
  {
    hide IsRanking, Usages, Trends;
    SummarySums(jobs);
  }

  lemma {:induction false} SummarySums(jobs: seq<Job>)
    ensures Summarize(jobs).inputTokens == SumOf(InputsOf(jobs))
    ensures Summarize(jobs).outputTokens == SumOf(OutputsOf(jobs))
  {
    hide TrimSpace, SumOf, InputsOf, OutputsOf, Add;
    if jobs == [] {
      SumOfNothing();
    } else {
      var front, last := jobs[..|jobs| - 1], jobs[|jobs| - 1];
      SummarySums(front);
      AddTokens(Summarize(front), last);
      TokensStep(front, last);
      assert jobs == front + [last];
      SumSnoc(InputsOf(front), last.inputTokens);
      SumSnoc(OutputsOf(front), last.outputTokens);
    }
  }

  lemma SumOfNothing()
    ensures SumOf(InputsOf([])) == 0 == SumOf(OutputsOf([]))
  {
  }

  lemma AddTokens(s: Summary, j: Job)
    ensures Add(s, j).inputTokens == s.inputTokens + j.inputTokens && Add(s, j).outputTokens == s.outputTokens + j.outputTokens
  {
    hide TrimSpace, Named;
  }

  lemma TokensStep(front: seq<Job>, last: Job)
    ensures InputsOf(front + [last]) == InputsOf(front) + [last.inputTokens]
    ensures OutputsOf(front + [last]) == OutputsOf(front) + [last.outputTokens]
  {
  }

  ghost function PlacesOf(names: seq<string>, name: string): set<nat> {
    set i: nat | i < |names| && names[i] == name
  }

  lemma PlacesStep(front: seq<string>, last: string, name: string)
    ensures PlacesOf(front + [last], name) == PlacesOf(front, name) + if last == name then {|front|} else {}
    ensures |front| !in PlacesOf(front, name)
  {
  }

  lemma NoPlaces(name: string)
    ensures PlacesOf([], name) == {} && Occurrences([], name) == 0
  {
  }

  /** How often a name occurs is at how many places. */
  lemma {:induction false} OccurrencesCount(names: seq<string>, name: string)
    ensures Occurrences(names, name) == |PlacesOf(names, name)|
  {
    if names == [] {
      NoPlaces(name);
    } else {
      var front, last := names[..|names| - 1], names[|names| - 1];
      OccurrencesCount(front, name);
      assert names == front + [last];
      PlacesStep(front, last, name);
      hide PlacesOf;
    }
  }

  /** The jobs that ran a model, and those with a prompt, by their places. */
  ghost function JobsOn(jobs: seq<Job>, model: string): set<nat> {
    set i: nat | i < |jobs| && jobs[i].modelId == model
  }

  ghost function JobsAbout(jobs: seq<Job>, prompt: string): set<nat> {
    set i: nat | i < |jobs| && TrimSpace(jobs[i].customPrompt) == prompt
  }

  lemma {:induction false} PlacesOfModel(jobs: seq<Job>, model: string)
    ensures Occurrences(ModelsOf(jobs), model) == |JobsOn(jobs, model)|
  {
    var names := ModelsOf(jobs);
    OccurrencesCount(names, model);
    assert PlacesOf(names, model) == JobsOn(jobs, model);
  }

  lemma {:induction false} PlacesOfPrompt(jobs: seq<Job>, prompt: string)
    ensures Occurrences(PromptsOf(jobs), prompt) == |JobsAbout(jobs, prompt)|
  {
    var names := PromptsOf(jobs);
    OccurrencesCount(names, prompt);
    assert PlacesOf(names, prompt) == JobsAbout(jobs, prompt);
  }

  lemma RatioMeans(count: nat, total: nat)
    requires 0 < total
    ensures Ratio(count, total) * total as real == count as real
  {
  }

  lemma {:induction false} ModelsOfNothing(jobs: seq<Job>, model: string)
    ensures Occurrences(ModelsOf(jobs), model) > 0 ==> |jobs| > 0
  {
  }

  /** What is counted of a model, from the jobs alone: the jobs that ran it; and its share of all jobs. */
  lemma {:induction false} UsageCountsJobs(jobs: seq<Job>, m: Metrics, u: ModelUsage)
    requires IsMetrics(Summarize(jobs), m) && u in m.modelUsage
    ensures u.modelId != "" && u.count == |JobsOn(jobs, u.modelId)| > 0
    ensures u.ratio * |jobs| as real == u.count as real
  {
    hide TrimSpace, Occurrences, ModelsOf, PromptsOf, Ratio, Usages, IsRanking;
    var s := Summarize(jobs);
    SummaryHasNoEmptyName(jobs);
    SummaryCounts(jobs);
    hide Summarize;
    var rows :| IsRanking(s.models, rows) && m.modelUsage == Usages(rows, s.jobs);
    UsagesAreRows(s.models, rows, s.jobs, u.modelId);
    PlacesOfModel(jobs, u.modelId);
    assert u.count == s.models[u.modelId] > 0;
    assert s.jobs == |jobs|;
    ModelsOfNothing(jobs, u.modelId);
    RatioMeans(u.count, |jobs|);
  }

  /** What is counted of a prompt, from the jobs alone: the jobs whose prompt is that one after trimming. */
  lemma {:induction false} TrendCountsJobs(jobs: seq<Job>, m: Metrics, t: PromptTrend)
    requires IsMetrics(Summarize(jobs), m) && t in m.promptTrends
    ensures t.prompt != "" && t.count == |JobsAbout(jobs, t.prompt)| > 0
  {
    hide TrimSpace, Occurrences, ModelsOf, PromptsOf, Ratio, Sorted;
    var s := Summarize(jobs);
    SummaryHasNoEmptyName(jobs);
    SummaryCounts(jobs);
    hide Summarize, Trends, IsRanking;
    var rows :| IsRanking(s.prompts, rows) && m.promptTrends == Trends(rows);
    TrendsAreRows(s.prompts, rows, t);
    PlacesOfPrompt(jobs, t.prompt);
  }

  lemma {:induction false} SummaryHasNoEmptyName(jobs: seq<Job>)
    ensures "" !in Summarize(jobs).models && "" !in Summarize(jobs).prompts
  {
    hide TrimSpace;
    if jobs != [] {
      SummaryHasNoEmptyName(jobs[..|jobs| - 1]);
    }
  }
}
