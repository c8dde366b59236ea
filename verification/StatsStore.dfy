/** The statistics' access to the job table: a paged scan, and records written into the table that is scanned. */
module StatsStore {
  import opened Sorting
  import opened Stats
  import opened Text
  import JobTable

  /** An attribute value. Numbers travel as text; a payload is one whole metric. */
  datatype Attr = S(text: string) | N(digits: string) | M(entries: map<string, Attr>) | Payload(metric: Metric)

  datatype Metric =
    | ModelUsageMetric(totalJobs: nat, items: seq<ModelUsage>)
    | PromptTrendsMetric(trends: seq<PromptTrend>)
    | TokenUsageMetric(usage: TokenUsage)

  type Item = map<string, Attr>

  /** The table by key; every item carries its key. */
  type Table = map<string, Item>

  const STATS_KEY_PREFIX := "STATS#"

  predicate IsStats(key: string) {
    STATS_KEY_PREFIX <= key
  }

  function StringAttr(item: Item, key: string): string {
    if key in item && item[key].S? then item[key].text else ""
  }

  function NumberAttr(item: Item, key: string): int {
    if key in item && item[key].N? then
      match ParseInt64(item[key].digits)
      case None => 0
      case Some(n) => n
    else 0
  }

  function JobFromItem(item: Item): Job {
    var usage := if "usage" in item && item["usage"].M? then item["usage"].entries else map[];
    Job(StringAttr(item, "status"), StringAttr(item, "model_id"), StringAttr(item, "custom_prompt"),
        NumberAttr(usage, "input_tokens"), NumberAttr(usage, "output_tokens"))
  }

  function ParseDigits(s: string): JobTable.Option<nat> {
    if s == "" then JobTable.None
    else if !IsDigit(s[|s| - 1]) then JobTable.None
    else
      var last := (s[|s| - 1] - '0') as nat;
      if |s| == 1 then JobTable.Some(last)
      else match ParseDigits(s[..|s| - 1])
        case None => JobTable.None
        case Some(n) => JobTable.Some(10 * n + last)
  }

  const INT64_LIMIT := 0x8000_0000_0000_0000

  /** `strconv.ParseInt(s, 10, 64)`. */
  function ParseInt64(s: string): JobTable.Option<int> {
    var negative := s != "" && s[0] == '-';
    var signed := s != "" && (s[0] == '-' || s[0] == '+');
    match ParseDigits(if signed then s[1..] else s)
    case None => JobTable.None
    case Some(n) =>
      var size: int := n;
      var value := if negative then -size else size;
      if -INT64_LIMIT <= value < INT64_LIMIT then JobTable.Some(value) else JobTable.None
  }

  function FormatNat(n: nat): string {
    (if n < 10 then "" else FormatNat(n / 10)) + [(n % 10) as char + '0']
  }

  /** `strconv.FormatInt(n, 10)`. */
  function FormatInt(n: int): string {
    if n < 0 then "-" + FormatNat(-n) else FormatNat(n)
  }

  lemma {:induction false} FormatNatParses(n: nat)
    ensures ParseDigits(FormatNat(n)) == JobTable.Some(n)
    ensures FormatNat(n) != "" && IsDigit(FormatNat(n)[0])
  {
    var s := FormatNat(n);
    assert s[|s| - 1] == (n % 10) as char + '0';
    assert (s[|s| - 1] - '0') as nat == n % 10;
    if n >= 10 {
      FormatNatParses(n / 10);
      assert s[..|s| - 1] == FormatNat(n / 10);
      assert s[0] == FormatNat(n / 10)[0];
    }
  }

  lemma ParseSnoc(front: string, c: char)
    ensures ParseDigits(front + [c]) ==
      if !IsDigit(c) then JobTable.None
      else if front == "" then JobTable.Some(c as int - '0' as int)
      else match ParseDigits(front)
        case None => JobTable.None
        case Some(n) => JobTable.Some(10 * n + (c as int - '0' as int))
  {
    var s := front + [c];
    assert s[|s| - 1] == c && s[..|s| - 1] == front;
  }

  /** A row of digits is read as the number it denotes, anything else not at all. */
  lemma {:induction false} ParseDigitsMeans(s: string)
    ensures ParseDigits(s) == if s != "" && AllDigits(s) then JobTable.Some(Decimal(s)) else JobTable.None
  {
    hide AllDigits, Decimal, ParseDigits, IsDigit;
    if s == "" {
      ParseNothing();
    } else {
      var front, c := s[..|s| - 1], s[|s| - 1];
      assert s == front + [c];
      ParseSnoc(front, c);
      DecimalSnoc(front, c);
      if front == "" {
        DecimalOfNothing();
      } else {
        ParseDigitsMeans(front);
      }
    }
  }

  lemma ParseNothing()
    ensures ParseDigits("") == JobTable.None
  {
  }

  lemma DecimalOfNothing()
    ensures AllDigits("") && Decimal("") == 0
  {
  }

  /** Numbers are read exactly if they are decimal, possibly signed, and fit into 64 bits. */
  lemma ParseInt64Means(s: string)
    ensures var signed := s != "" && (s[0] == '-' || s[0] == '+');
      var digits := if signed then s[1..] else s;
      if digits == "" || !AllDigits(digits) then ParseInt64(s) == JobTable.None
      else
        var size: int := Decimal(digits);
        var n := if s[0] == '-' then -size else size;
        ParseInt64(s) == if -0x8000_0000_0000_0000 <= n < 0x8000_0000_0000_0000 then JobTable.Some(n) else JobTable.None
  {
    var signed := s != "" && (s[0] == '-' || s[0] == '+');
    ParseDigitsMeans(if signed then s[1..] else s);
  }

  /** Numbers are printed in decimal digits, without leading zeros. */
  lemma {:induction false} FormatNatMeans(n: nat)
    ensures AllDigits(FormatNat(n)) && Decimal(FormatNat(n)) == n
    ensures FormatNat(n) != "" && (n > 0 ==> FormatNat(n)[0] != '0') && (n == 0 ==> FormatNat(n) == "0")
  {
    var s := FormatNat(n);
    var front := if n < 10 then "" else FormatNat(n / 10);
    assert s == front + [(n % 10) as char + '0'];
    assert s[..|s| - 1] == front;
    if n >= 10 {
      FormatNatMeans(n / 10);
      assert s[0] == front[0];
    }
  }

  /** What the worker prints, the statistics read. */
  lemma FormatIntParses(n: int)
    requires -INT64_LIMIT <= n < INT64_LIMIT
    ensures ParseInt64(FormatInt(n)) == JobTable.Some(n)
  {
    if n < 0 {
      FormatNatParses(-n);
      assert FormatInt(n)[1..] == FormatNat(-n);
    } else {
      FormatNatParses(n);
    }
  }

  /** The job a scanned item stands for: missing attributes and those of another type are empty, missing or
      unreadable numbers are zero. */
  lemma JobMeans(item: Item)
    ensures var j := JobFromItem(item);
      j.status == (if "status" in item && item["status"].S? then item["status"].text else "") &&
      j.modelId == (if "model_id" in item && item["model_id"].S? then item["model_id"].text else "") &&
      j.customPrompt == (if "custom_prompt" in item && item["custom_prompt"].S? then item["custom_prompt"].text else "")
    ensures var j := JobFromItem(item);
      if "usage" in item && item["usage"].M? then
        var u := item["usage"].entries;
        j.inputTokens == (if "input_tokens" in u && u["input_tokens"].N? && ParseInt64(u["input_tokens"].digits).Some?
                          then ParseInt64(u["input_tokens"].digits).value else 0) &&
        j.outputTokens == (if "output_tokens" in u && u["output_tokens"].N? && ParseInt64(u["output_tokens"].digits).Some?
                           then ParseInt64(u["output_tokens"].digits).value else 0)
      else j.inputTokens == 0 && j.outputTokens == 0
  {
    hide ParseInt64;
  }

  /** The worker's `usageAttr`. */
  function UsageAttr(u: JobTable.Usage): Attr {
    M(map["input_tokens" := N(FormatInt(u.inputTokens)), "output_tokens" := N(FormatInt(u.outputTokens))])
  }

  function StatusText(status: JobTable.Status): string {
    match status
    case Queued => "queued"
    case Processing => "processing"
    case Completed => "completed"
    case Failed => "failed"
  }

  /** The attributes of a job record that the scan projects. */
  function ItemOf(job: string, r: JobTable.JobRecord): Item {
    map["job_id" := S(job), "status" := S(StatusText(r.status))] +
    (if r.modelId.Some? then map["model_id" := S(r.modelId.value)] else map[]) +
    (if r.request.Some? then map["custom_prompt" := S(r.request.value.customPrompt)] else map[]) +
    (if r.usage.Some? then map["usage" := UsageAttr(r.usage.value)] else map[])
  }

  /** The item as it is stored, attribute by attribute. */
  lemma ItemMeans(job: string, r: JobTable.JobRecord)
    ensures var item := ItemOf(job, r);
      "job_id" in item && item["job_id"] == S(job) &&
      "status" in item && item["status"] == S(match r.status
        case Queued => "queued" case Processing => "processing" case Completed => "completed" case Failed => "failed")
    ensures var item := ItemOf(job, r);
      (if r.modelId == JobTable.None then "model_id" !in item else "model_id" in item && item["model_id"] == S(r.modelId.value)) &&
      (if r.request == JobTable.None then "custom_prompt" !in item
       else "custom_prompt" in item && item["custom_prompt"] == S(r.request.value.customPrompt))
    ensures var item := ItemOf(job, r);
      if r.usage == JobTable.None then "usage" !in item
      else "usage" in item && item["usage"] == M(map["input_tokens" := N(FormatInt(r.usage.value.inputTokens)),
                                                     "output_tokens" := N(FormatInt(r.usage.value.outputTokens))])
  {
    hide FormatInt;
  }

  /** From the worker's record to the statistics' job nothing is lost: status, model, prompt and token counts. */
  lemma RecordRoundTrip(job: string, r: JobTable.JobRecord)
    requires r.usage.Some? ==> -INT64_LIMIT <= r.usage.value.inputTokens < INT64_LIMIT
    requires r.usage.Some? ==> -INT64_LIMIT <= r.usage.value.outputTokens < INT64_LIMIT
    ensures JobFromItem(ItemOf(job, r)) == Job(
      StatusText(r.status), if r.modelId.Some? then r.modelId.value else "",
      if r.request.Some? then r.request.value.customPrompt else "",
      if r.usage.Some? then r.usage.value.inputTokens else 0,
      if r.usage.Some? then r.usage.value.outputTokens else 0)
  {
    hide UsageAttr, StatusText, JobFromItem, NumberAttr;
    var item := ItemOf(job, r);
    assert item["status"] == S(StatusText(r.status));
    assert r.modelId.Some? ==> item["model_id"] == S(r.modelId.value);
    assert r.modelId.None? ==> "model_id" !in item;
    assert r.request.Some? ==> item["custom_prompt"] == S(r.request.value.customPrompt);
    assert r.request.None? ==> "custom_prompt" !in item;
    assert r.usage.Some? ==> item["usage"] == UsageAttr(r.usage.value);
    assert r.usage.None? ==> "usage" !in item;
    hide ItemOf;
    if r.usage.Some? {
      UsageRoundTrip(r.usage.value);
    }
    JobOfAttributes(item);
  }

  lemma UsageRoundTrip(u: JobTable.Usage)
    requires -INT64_LIMIT <= u.inputTokens < INT64_LIMIT && -INT64_LIMIT <= u.outputTokens < INT64_LIMIT
    ensures UsageAttr(u).M?
    ensures NumberAttr(UsageAttr(u).entries, "input_tokens") == u.inputTokens
    ensures NumberAttr(UsageAttr(u).entries, "output_tokens") == u.outputTokens
  {
    hide ParseInt64, FormatInt;
    FormatIntParses(u.inputTokens);
    FormatIntParses(u.outputTokens);
  }

  lemma JobOfAttributes(item: Item)
    ensures var j := JobFromItem(item);
      j.status == StringAttr(item, "status") && j.modelId == StringAttr(item, "model_id") &&
      j.customPrompt == StringAttr(item, "custom_prompt") &&
      (if "usage" in item && item["usage"].M? then
         j.inputTokens == NumberAttr(item["usage"].entries, "input_tokens") &&
         j.outputTokens == NumberAttr(item["usage"].entries, "output_tokens")
       else j.inputTokens == j.outputTokens == 0)
  {
  }

  /** The jobs among the items, in their order. */
  function JobsIn(items: seq<Item>): seq<Job> {
    if items == [] then []
    else JobsIn(items[..|items| - 1]) +
         if IsStats(StringAttr(items[|items| - 1], "job_id")) then [] else [JobFromItem(items[|items| - 1])]
  }

  function Flatten(pages: seq<seq<Item>>): seq<Item> {
    if pages == [] then [] else Flatten(pages[..|pages| - 1]) + pages[|pages| - 1]
  }

  lemma {:induction false} JobsInConcat(a: seq<Item>, b: seq<Item>)
    ensures JobsIn(a + b) == JobsIn(a) + JobsIn(b)
  {
    if b == [] {
      assert a + b == a;
    } else {
      var front := b[..|b| - 1];
      assert (a + b)[..|a + b| - 1] == a + front;
      JobsInConcat(a, front);
    }
  }

  /** The key of a scanned item. */
  function KeyIn(item: Item): string {
    if "job_id" in item && item["job_id"].S? then item["job_id"].text else ""
  }

  /** Skipped are exactly the items whose key starts with `STATS#`; every other item yields its job, in order. */
  lemma {:induction false} JobsInMeans(items: seq<Item>, n: nat) returns (ps: seq<nat>)
    requires n <= |items|
    ensures forall j: nat, k: nat | j < k < |ps| :: ps[j] < ps[k]
    ensures forall i: nat :: i in ps <==> i < n && !(|KeyIn(items[i])| >= 6 && KeyIn(items[i])[..6] == "STATS#")
    ensures |JobsIn(items[..n])| == |ps|
    ensures forall k: nat | k < |ps| :: ps[k] < n && JobsIn(items[..n])[k] == JobFromItem(items[ps[k]])
  {
    hide JobFromItem, KeyIn, JobsIn, IsStats, StringAttr;
    ps := [];
    if n == 0 {
      NoJobs();
    } else {
      ps := JobsInMeans(items, n - 1);
      assert forall k: nat | k < |ps| :: ps[k] in ps;
      JobsStep(items, n - 1);
      SkippedMeans(items[n - 1]);
      if !IsStats(StringAttr(items[n - 1], "job_id")) {
        ps := ps + [n - 1];
      }
    }
  }

  lemma NoJobs()
    ensures JobsIn([]) == []
  {
  }

  lemma JobsStep(items: seq<Item>, i: nat)
    requires i < |items|
    ensures JobsIn(items[..i + 1]) ==
            JobsIn(items[..i]) + if IsStats(StringAttr(items[i], "job_id")) then [] else [JobFromItem(items[i])]
  {
    hide JobFromItem, IsStats, StringAttr;
    assert items[..i + 1][..i] == items[..i];
  }

  lemma SkippedMeans(item: Item)
    ensures IsStats(StringAttr(item, "job_id")) <==> |KeyIn(item)| >= 6 && KeyIn(item)[..6] == "STATS#"
  {
  }

  /** The pages follow one another. */
  lemma {:induction false} FlattenSplits(a: seq<seq<Item>>, b: seq<seq<Item>>)
    ensures Flatten(a + b) == Flatten(a) + Flatten(b)
    ensures |b| == 1 ==> Flatten(b) == b[0]
  {
    if b == [] {
      assert a + b == a;
    } else {
      assert (a + b)[..|a + b| - 1] == a + b[..|b| - 1];
      FlattenSplits(a, b[..|b| - 1]);
    }
  }

  datatype ScanResult = Scanned(jobs: seq<Job>) | ScanError

  /** The scan delivers the table in pages; `pages[i]` carries a key to go on with unless it is the last one.
      The call for page `failing` fails, if there is one. */
  method ScanJobs(pages: seq<seq<Item>>, failing: nat) returns (r: ScanResult)
    requires pages != []
    ensures r.Scanned? <==> |pages| <= failing
    ensures r.Scanned? ==> r.jobs == JobsIn(Flatten(pages))
  {
    hide JobFromItem, IsStats, StringAttr;
    var jobs: seq<Job> := [];
    var next := 0;
    while true
      invariant next < |pages| && next <= failing
      invariant jobs == JobsIn(Flatten(pages[..next]))
      decreases |pages| - next
    {
      if next == failing {
        return ScanError;
      }
      var items := pages[next];
      var i := 0;
      while i < |items|
        invariant i <= |items|
        invariant jobs == JobsIn(Flatten(pages[..next])) + JobsIn(items[..i])
      {
        assert items[..i + 1][..i] == items[..i];
        if !IsStats(StringAttr(items[i], "job_id")) {
          jobs := jobs + [JobFromItem(items[i])];
        }
        i := i + 1;
      }
      assert items[..|items|] == items;
      JobsInConcat(Flatten(pages[..next]), items);
      assert pages[..next + 1][..next] == pages[..next];
      if next + 1 == |pages| {
        assert pages[..next + 1] == pages;
        return Scanned(jobs);
      }
      next := next + 1;
    }
  }

  predicate TableOk(t: Table) {
    forall key | key in t :: "job_id" in t[key] && t[key]["job_id"] == S(key)
  }

  /** `order` names every key of the table once. */
  ghost predicate IsOrder(t: Table, order: seq<string>) {
    (forall key :: key in order <==> key in t) && (forall i: nat, j: nat | i < j < |order| :: order[i] != order[j])
  }

  function ItemsIn(t: Table, order: seq<string>): seq<Item>
    requires forall key | key in order :: key in t
  {
    seq(|order|, i requires 0 <= i < |order| => t[order[i]])
  }

  /** The pages are the table, in some order, split somehow. */
  ghost predicate IsScanOf(t: Table, order: seq<string>, pages: seq<seq<Item>>) {
    IsOrder(t, order) && pages != [] && Flatten(pages) == ItemsIn(t, order)
  }

  /** The keys of `order` that are not statistics. */
  function JobKeys(order: seq<string>): seq<string> {
    if order == [] then []
    else JobKeys(order[..|order| - 1]) + if IsStats(order[|order| - 1]) then [] else [order[|order| - 1]]
  }

  function JobsAt(t: Table, keys: seq<string>): seq<Job>
    requires forall key | key in keys :: key in t
  {
    seq(|keys|, i requires 0 <= i < |keys| => JobFromItem(t[keys[i]]))
  }

  lemma {:induction false} JobKeysAre(order: seq<string>)
    requires forall i: nat, j: nat | i < j < |order| :: order[i] != order[j]
    ensures forall key :: key in JobKeys(order) <==> key in order && !IsStats(key)
    ensures forall key :: multiset(JobKeys(order))[key] == if key in JobKeys(order) then 1 else 0
  {
    if order != [] {
      var front, last := order[..|order| - 1], order[|order| - 1];
      assert order == front + [last];
      JobKeysAre(front);
      assert last !in front;
    }
  }

  /** What a scan delivers are the jobs of the table that are not statistics, one each. */
  lemma {:induction false} ScanDeliversJobs(t: Table, order: seq<string>)
    requires TableOk(t) && forall key | key in order :: key in t
    ensures forall key | key in JobKeys(order) :: key in t
    ensures JobsIn(ItemsIn(t, order)) == JobsAt(t, JobKeys(order))
  {
    hide JobFromItem;
    if order != [] {
      var front, last := order[..|order| - 1], order[|order| - 1];
      assert order == front + [last];
      ScanDeliversJobs(t, front);
      assert ItemsIn(t, order)[..|order| - 1] == ItemsIn(t, front);
      assert StringAttr(t[last], "job_id") == last;
      assert JobsAt(t, JobKeys(order)) == JobsAt(t, JobKeys(front)) + if IsStats(last) then [] else [JobFromItem(t[last])];
    }
  }

  /** Two tables with the same jobs, whatever statistics they hold. */
  ghost predicate SameJobs(t: Table, u: Table) {
    forall key | !IsStats(key) :: (key in t <==> key in u) && (key in t ==> t[key] == u[key])
  }

  lemma JobsAtConcat(t: Table, a: seq<string>, b: seq<string>)
    requires forall key | key in a + b :: key in t
    requires (forall key | key in a :: key in t) && forall key | key in b :: key in t
    ensures JobsAt(t, a + b) == JobsAt(t, a) + JobsAt(t, b)
  {
    hide JobFromItem;
  }

  lemma {:induction false} PermutedJobs(t: Table, u: Table, a: seq<string>, b: seq<string>)
    requires forall key | key in a :: key in t
    requires forall key | key in b :: key in u
    requires forall key | key in a && key in b :: t[key] == u[key]
    requires multiset(a) == multiset(b)
    ensures multiset(JobsAt(t, a)) == multiset(JobsAt(u, b))
  {
    assert |a| == |multiset(a)| == |multiset(b)| == |b|;
    if a == [] {
      assert JobsAt(t, a) == [] == JobsAt(u, b);
    } else {
      var front, x := a[..|a| - 1], a[|a| - 1];
      SameElements(a, b, x);
      var i: nat :| i < |b| && b[i] == x;
      var left, right := b[..i], b[i + 1..];
      RemoveOne(front, x, left, right, a, b);
      assert forall key | key in front + left + right :: key in a && key in b by {
        SameKeys(front, left + right);
      }
      PermutedJobs(t, u, front, left + right);
      JobsAtConcat(t, front, [x]);
      JobsAtConcat(u, left + [x], right);
      JobsAtConcat(u, left, [x]);
      JobsAtConcat(u, left, right);
      assert JobsAt(t, [x]) == [JobFromItem(t[x])] == JobsAt(u, [x]);
    }
  }

  lemma SameKeys(a: seq<string>, b: seq<string>)
    requires multiset(a) == multiset(b)
    ensures forall key :: key in a <==> key in b
  {
    forall key
      ensures key in a <==> key in b
    {
      SameElements(a, b, key);
    }
  }

  lemma RemoveOne(front: seq<string>, x: string, left: seq<string>, right: seq<string>, a: seq<string>, b: seq<string>)
    requires multiset(a) == multiset(b) && a == front + [x]
    requires |b| == |left| + 1 + |right| && b[..|left|] == left && b[|left|] == x && b[|left| + 1..] == right
    ensures b == left + [x] + right && multiset(front) == multiset(left + right)
  {
    assert b == left + [x] + right;
    assert front + [x] + [] == a && front + [] == front;
    WithoutOne(front, x, []);
    WithoutOne(left, x, right);
  }

  /** Stored statistics do not feed back: tables with the same jobs yield the same metrics, for every
      order of the scan, every split into pages and every traversal of the counting maps. */
  lemma {:induction false} SameJobsSameMetrics(t: Table, u: Table, a: seq<string>, b: seq<string>,
      pagesA: seq<seq<Item>>, pagesB: seq<seq<Item>>, m: Metrics, n: Metrics)
    requires TableOk(t) && TableOk(u) && SameJobs(t, u) && IsScanOf(t, a, pagesA) && IsScanOf(u, b, pagesB)
    requires IsMetrics(Summarize(JobsIn(Flatten(pagesA))), m) && IsMetrics(Summarize(JobsIn(Flatten(pagesB))), n)
    ensures m == n
  {
    hide Summarize, IsMetrics, JobFromItem, JobsIn, ItemsIn;
    ScanDeliversJobs(t, a);
    ScanDeliversJobs(u, b);
    JobKeysAre(a);
    JobKeysAre(b);
    forall key
      ensures multiset(JobKeys(a))[key] == multiset(JobKeys(b))[key]
    {
      assert key in JobKeys(a) <==> key in JobKeys(b);
    }
    PermutedJobs(t, u, JobKeys(a), JobKeys(b));
    AggregateIgnoresOrder(JobsAt(t, JobKeys(a)), JobsAt(u, JobKeys(b)), m, n);
  }

  /** The three records of a day, in the order they are written. */
  function Records(m: Metrics): (r: seq<(string, Metric)>)
    ensures |r| == 3
  {
    [("model_usage", ModelUsageMetric(m.totalJobs, m.modelUsage)),
     ("prompt_trends", PromptTrendsMetric(m.promptTrends)),
     ("token_usage", TokenUsageMetric(m.tokenUsage))]
  }

  function KeyOf(date: string, name: string): string {
    STATS_KEY_PREFIX + (date + ("#" + name))
  }

  function Put(t: Table, key: string, metric: Metric): Table {
    t[key := map["job_id" := S(key), "metric" := Payload(metric)]]
  }

  /** The table after the first `n` records of a day. */
  function WrittenTable(t: Table, date: string, m: Metrics, n: nat): Table
    requires n <= 3
  {
    if n == 0 then t else Put(WrittenTable(t, date, m, n - 1), KeyOf(date, Records(m)[n - 1].0), Records(m)[n - 1].1)
  }

  /** The three keys of a day differ. */
  lemma KeysDiffer(date: string, a: string, b: string)
    requires a != b
    ensures KeyOf(date, a) != KeyOf(date, b)
  {
    var front := STATS_KEY_PREFIX + (date + "#");
    assert KeyOf(date, a) == front + a && KeyOf(date, b) == front + b;
    assert (front + a)[|front|..] == a && (front + b)[|front|..] == b;
  }

  lemma KeyMeans(date: string, name: string)
    ensures KeyOf(date, name) == "STATS#" + date + "#" + name
  {
  }

  /** The table holds a metric under a key: an item with the key and the metric, nothing else. */
  predicate Holds(t: Table, key: string, metric: Metric) {
    key in t && t[key].Keys == {"job_id", "metric"} && t[key]["job_id"] == S(key) && t[key]["metric"] == Payload(metric)
  }

  lemma PutMeans(t: Table, key: string, metric: Metric)
    ensures Holds(Put(t, key, metric), key, metric)
    ensures forall k | k != key :: (k in Put(t, key, metric) <==> k in t) && (k in t ==> Put(t, key, metric)[k] == t[k])
    ensures forall k, other | k != key :: Holds(Put(t, key, metric), k, other) <==> Holds(t, k, other)
  {
  }

  /** What is written, record by record: under its own key each of the three metrics, with that key;
      everything else in the table stays. */
  lemma {:induction false} WrittenMeans(t: Table, date: string, m: Metrics, n: nat)
    requires n <= 3
    ensures var u, k := WrittenTable(t, date, m, n), "STATS#" + date + "#";
      (1 <= n ==> Holds(u, k + "model_usage", ModelUsageMetric(m.totalJobs, m.modelUsage))) &&
      (2 <= n ==> Holds(u, k + "prompt_trends", PromptTrendsMetric(m.promptTrends))) &&
      (3 <= n ==> Holds(u, k + "token_usage", TokenUsageMetric(m.tokenUsage)))
    ensures var u, k := WrittenTable(t, date, m, n), "STATS#" + date + "#";
      forall key | !(1 <= n && key == k + "model_usage") && !(2 <= n && key == k + "prompt_trends") && !(3 <= n && key == k + "token_usage") ::
        (key in u <==> key in t) && (key in t ==> u[key] == t[key])
  {
    KeyMeans(date, "model_usage");
    KeyMeans(date, "prompt_trends");
    KeyMeans(date, "token_usage");
    KeysDiffer(date, "model_usage", "prompt_trends");
    KeysDiffer(date, "model_usage", "token_usage");
    KeysDiffer(date, "prompt_trends", "token_usage");
    hide KeyOf, Holds, Put;
    if n > 0 {
      WrittenMeans(t, date, m, n - 1);
      PutMeans(WrittenTable(t, date, m, n - 1), KeyOf(date, Records(m)[n - 1].0), Records(m)[n - 1].1);
    }
  }

  class Writer {
    var table: Table

    constructor (table: Table)
      ensures this.table == table
    {
      this.table := table;
    }

    /** Writes the records of a day. The put number `failing` fails, if there is one; `lost` says whether its
        effect is lost too. The keys are returned only if all puts succeed. */
    method Write(m: Metrics, date: string, failing: nat, lost: bool) returns (ok: bool, written: seq<string>)
      modifies this
      ensures ok <==> 3 <= failing
      ensures ok ==> table == WrittenTable(old(table), date, m, 3) && |written| == 3
      ensures ok ==> forall i: nat | i < 3 :: written[i] == KeyOf(date, Records(m)[i].0)
      ensures ok ==>
        var k := "STATS#" + date + "#"; written == [k + "model_usage", k + "prompt_trends", k + "token_usage"]
      ensures !ok ==> written == [] && table == WrittenTable(old(table), date, m, if lost then failing else failing + 1)
    {
      written := [];
      for i := 0 to 3
        invariant i <= failing && |written| == i && forall k: nat | k < i :: written[k] == KeyOf(date, Records(m)[k].0)
        invariant table == WrittenTable(old(table), date, m, i)
      {
        var key := KeyOf(date, Records(m)[i].0);
        if i == failing {
          if !lost {
            table := Put(table, key, Records(m)[i].1);
          }
          return false, [];
        }
        table := Put(table, key, Records(m)[i].1);
        written := written + [key];
      }
      KeyMeans(date, "model_usage");
      KeyMeans(date, "prompt_trends");
      KeyMeans(date, "token_usage");
      assert written == [KeyOf(date, "model_usage"), KeyOf(date, "prompt_trends"), KeyOf(date, "token_usage")];
      ok := true;
    }
  }

  lemma {:induction false} WritingKeepsJobs(t: Table, date: string, m: Metrics, n: nat)
    requires n <= 3 && TableOk(t)
    ensures TableOk(WrittenTable(t, date, m, n)) && SameJobs(t, WrittenTable(t, date, m, n))
    decreases n
  {
    hide Records;
    if n > 0 {
      WritingKeepsJobs(t, date, m, n - 1);
      assert IsStats(KeyOf(date, Records(m)[n - 1].0));
    }
  }

  /** One daily run: a scan, metrics of what was scanned, and the first `puts` records written. */
  datatype Day = Day(date: string, order: seq<string>, pages: seq<seq<Item>>, metrics: Metrics, puts: nat)

  ghost predicate DayOk(t: Table, d: Day) {
    d.puts <= 3 && IsScanOf(t, d.order, d.pages) && IsMetrics(Summarize(JobsIn(Flatten(d.pages))), d.metrics)
  }

  /** The runs follow one another on the same table, and nobody else writes to it. */
  ghost predicate DaysOk(t: Table, days: seq<Day>)
    decreases days
  {
    days == [] ||
    (DayOk(t, days[0]) && DaysOk(WrittenTable(t, days[0].date, days[0].metrics, days[0].puts), days[1..]))
  }

  /** However many days the statistics are taken, and even if some runs fail half way, they come out the same. */
  lemma {:induction false} StatisticsAreStable(t: Table, u: Table, days: seq<Day>, order: seq<string>, pages: seq<seq<Item>>, m: Metrics, i: nat)
    requires TableOk(t) && TableOk(u) && SameJobs(t, u) && DaysOk(u, days) && i < |days|
    requires IsScanOf(t, order, pages) && IsMetrics(Summarize(JobsIn(Flatten(pages))), m)
    ensures days[i].metrics == m
    decreases i
  {
    hide IsMetrics, Summarize, JobsIn, WrittenTable, IsScanOf, Flatten;
    var d := days[0];
    if i == 0 {
      SameJobsSameMetrics(t, u, order, d.order, pages, d.pages, m, d.metrics);
    } else {
      WritingKeepsJobs(u, d.date, d.metrics, d.puts);
      StatisticsAreStable(t, WrittenTable(u, d.date, d.metrics, d.puts), days[1..], order, pages, m, i - 1);
    }
  }
}
